/** The blog page's renderer for the rich-text document the editor stores,
    and the rule that shows the edit and delete actions. The output is a
    presentation tree rather than markup. */
module BlogView {
  import opened Wrappers
  import opened Identity
  import opened Sequences

  /** A mark on a text span. */
  datatype Mark = Mark(markType: string)

  /** A document node. `level` is `attrs.level` (None when `attrs` or the
      level is missing), `content` the children (None when missing); a
      missing `text` is the empty string and missing `marks` the empty list,
      which render the same. */
  datatype Node = Node(nodeType: string, level: Option<int>, content: Option<seq<Node>>,
                       text: string, marks: seq<Mark>)

  /** A text span with its wrappers, innermost first applied. */
  datatype Styled = Plain(text: string) | Strong(inner: Styled) | Em(inner: Styled) | InlineCode(inner: Styled)

  /** One rendered inline child: a span, or null for a child that is not text. */
  datatype Piece = Span(styled: Styled) | NullPiece

  /** One rendered top-level node. A list holds, per item, the rendered
      inline content of each of the item's children; `None` stands for an
      `undefined` that renders nothing. */
  datatype Block =
    | Paragraph(run: Option<seq<Piece>>)
    | Heading(tagLevel: int, style: string, run: Option<seq<Piece>>)
    | CodeBlock(code: string)
    | BulletList(entries: Option<seq<Option<seq<Option<seq<Piece>>>>>>)
    | OrderedList(entries: Option<seq<Option<seq<Option<seq<Piece>>>>>>)
    | NullBlock

  const H1Style := "text-3xl font-bold mt-6 mb-4"
  const H2Style := "text-2xl font-bold mt-5 mb-3"
  const H3Style := "text-xl font-bold mt-4 mb-2"

  // ---------------------------------------------------------------------------
  // Marks

  predicate KnownMark(m: Mark) {
    m.markType == "bold" || m.markType == "italic" || m.markType == "code"
  }

  /** One step of the mark loop: bold, italic and code wrap the span so far;
      any other mark leaves it as it is. */
  function WrapMark(s: Styled, m: Mark): (r: Styled)
    ensures m.markType == "bold" ==> r == Strong(s)
    ensures m.markType == "italic" ==> r == Em(s)
    ensures m.markType == "code" ==> r == InlineCode(s)
    ensures !KnownMark(m) ==> r == s
    ensures KnownMark(m) ==> TextOf(r) == TextOf(s) && Depth(r) == Depth(s) + 1
  {
    if m.markType == "bold" then Strong(s)
    else if m.markType == "italic" then Em(s)
    else if m.markType == "code" then InlineCode(s)
    else s
  }

  /** The marks applied in array order, each wrapping the previous result. */
  function ApplyMarks(s: Styled, marks: seq<Mark>): Styled
    decreases |marks|
  {
    if marks == [] then s else ApplyMarks(WrapMark(s, marks[0]), marks[1..])
  }

  /** The text inside all wrappers. */
  function TextOf(s: Styled): string {
    match s
    case Plain(t) => t
    case Strong(inner) => TextOf(inner)
    case Em(inner) => TextOf(inner)
    case InlineCode(inner) => TextOf(inner)
  }

  /** The number of wrappers around the text. */
  function Depth(s: Styled): nat {
    match s
    case Plain(_) => 0
    case Strong(inner) => 1 + Depth(inner)
    case Em(inner) => 1 + Depth(inner)
    case InlineCode(inner) => 1 + Depth(inner)
  }

  /** The loop of `renderInlineContent` over one span's marks. */
  method RenderSpan(text: string, marks: seq<Mark>) returns (s: Styled)
    ensures s == ApplyMarks(Plain(text), marks)
  {
    s := Plain(text);
    for i := 0 to |marks|
      invariant ApplyMarks(s, marks[i..]) == ApplyMarks(Plain(text), marks)
    {
      assert marks[i..][1..] == marks[i + 1..];
      s := WrapMark(s, marks[i]);
    }
  }

  /** Applying two mark lists in turn is applying their concatenation. */
  lemma {:induction false} MarksCompose(s: Styled, a: seq<Mark>, b: seq<Mark>)
    ensures ApplyMarks(s, a + b) == ApplyMarks(ApplyMarks(s, a), b)
    decreases |a|
  {
    if a != [] {
      assert (a + b)[1..] == a[1..] + b;
      MarksCompose(WrapMark(s, a[0]), a[1..], b);
    } else {
      assert a + b == b;
    }
  }

  /** Unknown marks can be dropped without changing the result. */
  lemma {:induction false} UnknownMarksIgnored(s: Styled, marks: seq<Mark>)
    ensures ApplyMarks(s, marks) == ApplyMarks(s, Filter(marks, KnownMark))
    decreases |marks|
  {
    if marks != [] {
      UnknownMarksIgnored(WrapMark(s, marks[0]), marks[1..]);
      if KnownMark(marks[0]) {
        assert Filter(marks, KnownMark) == [marks[0]] + Filter(marks[1..], KnownMark);
        assert ([marks[0]] + Filter(marks[1..], KnownMark))[1..] == Filter(marks[1..], KnownMark);
      } else {
        assert Filter(marks, KnownMark) == Filter(marks[1..], KnownMark);
      }
    }
  }

  /** Marks never change the text, and each known mark adds exactly one
      wrapper. */
  lemma {:induction false} MarksKeepText(s: Styled, marks: seq<Mark>)
    ensures TextOf(ApplyMarks(s, marks)) == TextOf(s)
    ensures Depth(ApplyMarks(s, marks)) == Depth(s) + |Filter(marks, KnownMark)|
    decreases |marks|
  {
    if marks != [] {
      MarksKeepText(WrapMark(s, marks[0]), marks[1..]);
    }
  }

  /** The first mark ends up innermost: bold then italic is italic around
      bold. */
  lemma BoldThenItalic(t: string)
    ensures ApplyMarks(Plain(t), [Mark("bold"), Mark("italic")]) == Em(Strong(Plain(t)))
  {
    assert [Mark("bold"), Mark("italic")][1..] == [Mark("italic")];
  }

  // ---------------------------------------------------------------------------
  // Inline content

  /** One inline child: text becomes a marked span, anything else null. */
  function RenderItem(n: Node): (r: Piece)
    ensures n.nodeType == "text" <==> r.Span?
  {
    if n.nodeType == "text" then Span(ApplyMarks(Plain(n.text), n.marks)) else NullPiece
  }

  function RenderItems(items: seq<Node>): (r: seq<Piece>)
    ensures |r| == |items|
  {
    if items == [] then [] else [RenderItem(items[0])] + RenderItems(items[1..])
  }

  /** `renderInlineContent(content)`: null for missing content, otherwise one
      piece per child, in order. */
  function RenderInline(content: Option<seq<Node>>): (r: Option<seq<Piece>>)
    ensures content.None? <==> r.None?
  {
    match content
    case None => None
    case Some(items) => Some(RenderItems(items))
  }

  /** Each child is rendered on its own, at its own position. */
  lemma {:induction false} RenderItemsPointwise(items: seq<Node>)
    ensures forall i :: 0 <= i < |items| ==> RenderItems(items)[i] == RenderItem(items[i])
  {
    if items != [] {
      var rest := RenderItems(items[1..]);
      RenderItemsPointwise(items[1..]);
      assert RenderItems(items) == [RenderItem(items[0])] + rest;
      forall i | 1 <= i < |items| ensures RenderItems(items)[i] == RenderItem(items[i]) {
        assert RenderItems(items)[i] == rest[i - 1];
        assert items[1..][i - 1] == items[i];
      }
    }
  }

  // ---------------------------------------------------------------------------
  // Blocks

  /** `node.attrs?.level || 2`: a missing or zero level gives a level-2 tag. */
  function HeadingTagLevel(level: Option<int>): (r: int)
    ensures level.None? || level == Some(0) ==> r == 2
    ensures level.Some? && level.value != 0 ==> r == level.value
  {
    if level.None? || level.value == 0 then 2 else level.value
  }

  /** The style table is looked up with the level as stored, not the
      defaulted one: only 1, 2 and 3 have a style. */
  function HeadingStyle(level: Option<int>): (r: string)
    ensures r != "" <==> level == Some(1) || level == Some(2) || level == Some(3)
  {
    if level == Some(1) then H1Style
    else if level == Some(2) then H2Style
    else if level == Some(3) then H3Style
    else ""
  }

  /** The texts of the children, concatenated in order. */
  function Concat(children: seq<Node>): string {
    if children == [] then "" else children[0].text + Concat(children[1..])
  }

  /** `node.content?.map(c => c.text).join('') || ''`. */
  function CodeText(content: Option<seq<Node>>): (r: string)
    ensures content.None? ==> r == ""
  {
    match content
    case None => ""
    case Some(children) => Concat(children)
  }

  /** One list item: the inline rendering of each of its children. */
  function RenderListItem(item: Node): Option<seq<Option<seq<Piece>>>> {
    match item.content
    case None => None
    case Some(children) => Some(seq(|children|, j requires 0 <= j < |children| => RenderInline(children[j].content)))
  }

  /** A list: one entry per item, in order. */
  function RenderListItems(content: Option<seq<Node>>): (r: Option<seq<Option<seq<Option<seq<Piece>>>>>>)
    ensures content.None? <==> r.None?
    ensures content.Some? ==> |r.value| == |content.value|
                              && forall i :: 0 <= i < |content.value| ==> r.value[i] == RenderListItem(content.value[i])
  {
    match content
    case None => None
    case Some(items) => Some(seq(|items|, i requires 0 <= i < |items| => RenderListItem(items[i])))
  }

  /** The tag dispatch of `renderContent` for one top-level node. */
  function RenderBlock(n: Node): Block {
    if n.nodeType == "paragraph" then Paragraph(RenderInline(n.content))
    else if n.nodeType == "heading" then Heading(HeadingTagLevel(n.level), HeadingStyle(n.level), RenderInline(n.content))
    else if n.nodeType == "codeBlock" then CodeBlock(CodeText(n.content))
    else if n.nodeType == "bulletList" then BulletList(RenderListItems(n.content))
    else if n.nodeType == "orderedList" then OrderedList(RenderListItems(n.content))
    else NullBlock
  }

  function RenderBlocks(nodes: seq<Node>): (r: seq<Block>)
    ensures |r| == |nodes|
  {
    if nodes == [] then [] else [RenderBlock(nodes[0])] + RenderBlocks(nodes[1..])
  }

  /** `renderContent(content)`: nothing without a document or without its
      top-level `content`; otherwise one block per top-level node. */
  function RenderContent(doc: Option<Node>): (r: Option<seq<Block>>)
    ensures doc.None? || doc.value.content.None? <==> r.None?
  {
    if doc.None? || doc.value.content.None? then None
    else Some(RenderBlocks(doc.value.content.value))
  }

  predicate KnownBlock(n: Node) {
    n.nodeType in {"paragraph", "heading", "codeBlock", "bulletList", "orderedList"}
  }

  /** Rendering distributes over concatenation of the top-level nodes: every
      node is rendered on its own, whatever its siblings are. */
  lemma {:induction false} RenderBlocksAppend(a: seq<Node>, b: seq<Node>)
    ensures RenderBlocks(a + b) == RenderBlocks(a) + RenderBlocks(b)
  {
    if a != [] {
      assert (a + b)[1..] == a[1..] + b;
      RenderBlocksAppend(a[1..], b);
    } else {
      assert a + b == b;
    }
  }

  /** Each block is at its node's position; a node of an unknown type gives
      a null entry there and nothing else. */
  lemma {:induction false} RenderBlocksPointwise(nodes: seq<Node>)
    ensures forall i :: 0 <= i < |nodes| ==> RenderBlocks(nodes)[i] == RenderBlock(nodes[i])
    ensures forall i :: 0 <= i < |nodes| ==> (RenderBlocks(nodes)[i] == NullBlock <==> !KnownBlock(nodes[i]))
  {
    if nodes != [] {
      var rest := RenderBlocks(nodes[1..]);
      RenderBlocksPointwise(nodes[1..]);
      assert RenderBlocks(nodes) == [RenderBlock(nodes[0])] + rest;
      forall i | 1 <= i < |nodes| ensures RenderBlocks(nodes)[i] == RenderBlock(nodes[i]) {
        assert RenderBlocks(nodes)[i] == rest[i - 1];
        assert nodes[1..][i - 1] == nodes[i];
      }
    }
  }

  /** A heading without a level is an `h2` with no style from the table,
      unlike an explicit level 2. */
  lemma MissingHeadingLevel(run: Option<seq<Node>>)
    ensures RenderBlock(Node("heading", None, run, "", [])) == Heading(2, "", RenderInline(run))
    ensures RenderBlock(Node("heading", Some(2), run, "", [])) == Heading(2, H2Style, RenderInline(run))
  {
  }

  /** A code block shows its children's texts in order and ignores marks. */
  lemma {:induction false} CodeTextAppend(a: seq<Node>, b: seq<Node>)
    ensures CodeText(Some(a + b)) == CodeText(Some(a)) + CodeText(Some(b))
  {
    if a != [] {
      assert (a + b)[1..] == a[1..] + b;
      CodeTextAppend(a[1..], b);
    } else {
      assert a + b == b;
    }
  }

  /** The text of a code block does not depend on the children's marks. */
  lemma {:induction false} CodeTextIgnoresMarks(children: seq<Node>, marks: seq<Mark>)
    ensures CodeText(Some(children)) == CodeText(Some(seq(|children|, i requires 0 <= i < |children| => children[i].(marks := marks))))
  {
    var stripped := seq(|children|, i requires 0 <= i < |children| => children[i].(marks := marks));
    if children != [] {
      CodeTextIgnoresMarks(children[1..], marks);
      assert stripped[1..] == seq(|children[1..]|, i requires 0 <= i < |children[1..]| => children[1..][i].(marks := marks));
    }
  }

  /** A list nested in a list item renders as a run of nulls: its items are
      not text. */
  lemma NestedListRendersNulls(item: Node, nested: Node)
    requires item.content == Some([nested])
    requires nested.content.Some?
    requires forall k :: 0 <= k < |nested.content.value| ==> nested.content.value[k].nodeType == "listItem"
    ensures RenderListItem(item).Some? && |RenderListItem(item).value| == 1
    ensures var run := RenderListItem(item).value[0];
            run.Some? && forall k :: 0 <= k < |run.value| ==> run.value[k] == NullPiece
  {
    RenderItemsPointwise(nested.content.value);
  }

  // ---------------------------------------------------------------------------
  // Edit rights

  /** The viewed blog as the page holds it; the populated author can be null. */
  datatype ViewedBlog = ViewedBlog(author: Option<UserId>)

  /** `canEdit`: a signed-in user, a loaded blog, and the user is its author
      or an administrator. */
  predicate CanEdit(user: Option<User>, blog: Option<ViewedBlog>) {
    && user.Some? && blog.Some?
    && ((blog.value.author.Some? && user.value.id == blog.value.author.value) || user.value.role == AdminRole)
  }

  /** The page offers editing exactly to those the server lets edit. */
  lemma CanEditMatchesServer(user: Option<User>, blog: Option<ViewedBlog>)
    ensures user.None? || blog.None? ==> !CanEdit(user, blog)
    ensures user.Some? && blog.Some? && blog.value.author.Some? ==>
              (CanEdit(user, blog) <==> OwnerOrAdmin(user.value, blog.value.author.value))
    ensures user.Some? && blog.Some? && blog.value.author.None? ==>
              (CanEdit(user, blog) <==> IsAdmin(user.value))
  {
  }
}
