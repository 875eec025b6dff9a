/** The blog schema: the slug derived from the title, the constraints the
    schema puts on title and tags, and a loaded document whose fields are set
    one at a time and whose pre-save hook refreshes the slug. */
module BlogModel {
  import opened Wrappers
  import opened Text
  import opened JsonValue
  import opened Identity

  // ---------------------------------------------------------------------------
  // Slug derivation

  /** The characters `[a-z0-9]` that survive in a slug. */
  predicate IsSlugAlnum(c: char) {
    'a' <= c <= 'z' || '0' <= c <= '9'
  }

  /** Every character is `[a-z0-9]` or a hyphen. */
  predicate SlugAlphabet(s: string) {
    forall i :: 0 <= i < |s| ==> IsSlugAlnum(s[i]) || s[i] == '-'
  }

  /** No two hyphens in a row. */
  predicate NoDoubleHyphen(s: string) {
    forall i :: 0 <= i < |s| - 1 ==> !(s[i] == '-' && s[i + 1] == '-')
  }

  /** The `[a-z0-9]` characters of `s`, in order. */
  function Alnums(s: string): (r: string)
    ensures forall i :: 0 <= i < |r| ==> IsSlugAlnum(r[i])
  {
    if s == [] then []
    else if IsSlugAlnum(s[0]) then [s[0]] + Alnums(s[1..])
    else Alnums(s[1..])
  }

  /** The end of the maximal run of non-`[a-z0-9]` characters starting at `i`. */
  function SkipRun(s: string, i: nat): (r: nat)
    requires i <= |s|
    ensures i <= r <= |s|
    ensures forall k :: i <= k < r ==> !IsSlugAlnum(s[k])
    ensures r == |s| || IsSlugAlnum(s[r])
    decreases |s| - i
  {
    if i == |s| || IsSlugAlnum(s[i]) then i else SkipRun(s, i + 1)
  }

  /** `s.replace(/[^a-z0-9]+/g, '-')`: each maximal run of characters outside
      `[a-z0-9]` becomes one hyphen. The result opens (ends) with a hyphen
      exactly when the input opens (ends) with such a character. */
  function CollapseRuns(s: string): (r: string)
    ensures SlugAlphabet(r) && NoDoubleHyphen(r)
    ensures r == [] <==> s == []
    ensures r != [] ==> (r[0] == '-' <==> !IsSlugAlnum(s[0]))
    ensures r != [] ==> (r[|r| - 1] == '-' <==> !IsSlugAlnum(s[|s| - 1]))
    decreases |s|
  {
    if s == [] then []
    else if IsSlugAlnum(s[0]) then [s[0]] + CollapseRuns(s[1..])
    else "-" + CollapseRuns(s[SkipRun(s, 0)..])
  }

  /** `s.replace(/(^-|-$)/g, '')`: one leading and one trailing hyphen go. A
      lone hyphen is consumed by the leading alternative. */
  function StripEdgeHyphens(s: string): string {
    var from := if |s| > 0 && s[0] == '-' then 1 else 0;
    var to := if |s| > from && s[|s| - 1] == '-' then |s| - 1 else |s|;
    s[from..to]
  }

  /** The title part of the slug. */
  function SlugBase(title: string): string {
    StripEdgeHyphens(CollapseRuns(ToLower(title)))
  }

  /** The value of one base-36 digit. */
  function DigitChar(d: nat): (c: char)
    requires d < 36
    ensures IsSlugAlnum(c)
  {
    if d < 10 then ('0' as int + d) as char else ('a' as int + d - 10) as char
  }

  /** The digit value of a `[0-9a-z]` character. */
  function DigitValue(c: char): nat {
    if '0' <= c <= '9' then c as int - '0' as int
    else if 'a' <= c <= 'z' then c as int - 'a' as int + 10
    else 0
  }

  /** `n.toString(36)` for a non-negative integer: lower-case digits, most
      significant first, no leading zero. */
  function Base36(n: nat): (r: string)
    ensures r != [] && forall i :: 0 <= i < |r| ==> IsSlugAlnum(r[i])
    decreases n
  {
    if n < 36 then [DigitChar(n)] else Base36(n / 36) + [DigitChar(n % 36)]
  }

  /** Reads base-36 digits back. */
  function FromBase36(s: string): nat {
    if s == [] then 0 else FromBase36(s[..|s| - 1]) * 36 + DigitValue(s[|s| - 1])
  }

  /** The slug written by the pre-save hook at time `now` (milliseconds). */
  function Slug(title: string, now: nat): string {
    SlugBase(title) + "-" + Base36(now)
  }

  /** The characters after the last hyphen. */
  function AfterLastHyphen(s: string): (r: string)
    ensures forall i :: 0 <= i < |r| ==> r[i] != '-'
  {
    if s == [] || s[|s| - 1] == '-' then [] else AfterLastHyphen(s[..|s| - 1]) + [s[|s| - 1]]
  }

  /** The digits round-trip. */
  lemma {:induction false} Base36RoundTrip(n: nat)
    ensures FromBase36(Base36(n)) == n
    decreases n
  {
    if n < 36 {
      assert DigitValue(DigitChar(n)) == n;
    } else {
      var r := Base36(n);
      assert r[..|r| - 1] == Base36(n / 36);
      Base36RoundTrip(n / 36);
      assert DigitValue(DigitChar(n % 36)) == n % 36;
    }
  }

  /** Whatever comes before the separator, the suffix after the last hyphen
      is the hyphen-free tail. */
  lemma {:induction false} AfterLastHyphenOf(a: string, d: string)
    requires forall i :: 0 <= i < |d| ==> d[i] != '-'
    ensures AfterLastHyphen(a + "-" + d) == d
  {
    if d != [] {
      var s := a + "-" + d;
      assert s[..|s| - 1] == a + "-" + d[..|d| - 1];
      AfterLastHyphenOf(a, d[..|d| - 1]);
    }
  }

  /** The slug alphabet: every character is `[a-z0-9]` or a hyphen. */
  lemma SlugCharacters(title: string, now: nat)
    ensures SlugAlphabet(Slug(title, now))
  {
    BaseShape(title);
    var s := Slug(title, now);
    forall i | 0 <= i < |s| ensures IsSlugAlnum(s[i]) || s[i] == '-' {
      if i > |SlugBase(title)| {
        assert s[i] == Base36(now)[i - |SlugBase(title)| - 1];
      }
    }
  }

  /** The base keeps the alphabet and has no doubled or edge hyphen. */
  lemma BaseShape(title: string)
    ensures var b := SlugBase(title);
            && SlugAlphabet(b) && NoDoubleHyphen(b)
            && (b != [] ==> b[0] != '-' && b[|b| - 1] != '-')
  {
    var c := CollapseRuns(ToLower(title));
    var b := SlugBase(title);
    var from := if |c| > 0 && c[0] == '-' then 1 else 0;
    var to := if |c| > from && c[|c| - 1] == '-' then |c| - 1 else |c|;
    assert b == c[from..to];
    if b != [] {
      assert b[0] == c[from];
      assert b[|b| - 1] == c[to - 1];
      if from == 1 {
        assert c[1] != '-';
      }
      if to == |c| - 1 {
        assert c[|c| - 2] != '-';
      }
    }
  }

  /** Collapsing keeps the `[a-z0-9]` content of the text in order. */
  lemma {:induction false} CollapseKeepsAlnums(s: string)
    ensures Alnums(CollapseRuns(s)) == Alnums(s)
    decreases |s|
  {
    if s != [] {
      if IsSlugAlnum(s[0]) {
        assert ([s[0]] + CollapseRuns(s[1..]))[1..] == CollapseRuns(s[1..]);
        CollapseKeepsAlnums(s[1..]);
      } else {
        var k := SkipRun(s, 0);
        assert ("-" + CollapseRuns(s[k..]))[1..] == CollapseRuns(s[k..]);
        CollapseKeepsAlnums(s[k..]);
        RunHasNoAlnums(s, 0, k);
      }
    }
  }

  /** `SkipRun` finds the first `[a-z0-9]` character at or after `i`, and
      nothing else. */
  lemma {:induction false} SkipRunAt(s: string, i: nat, r: nat)
    requires i <= r <= |s|
    requires forall k :: i <= k < r ==> !IsSlugAlnum(s[k])
    requires r == |s| || IsSlugAlnum(s[r])
    ensures SkipRun(s, i) == r
    decreases r - i
  {
    if i < r {
      SkipRunAt(s, i + 1, r);
    }
  }

  /** Non-empty text outside `[a-z0-9]` between two parts that meet it with
      `[a-z0-9]` characters becomes exactly one hyphen, and the parts are
      collapsed on their own. */
  lemma {:induction false} CollapseSeparator(a: string, run: string, b: string)
    requires run != [] && forall k :: 0 <= k < |run| ==> !IsSlugAlnum(run[k])
    requires a == [] || IsSlugAlnum(a[|a| - 1])
    requires b == [] || IsSlugAlnum(b[0])
    ensures CollapseRuns(a + run + b) == CollapseRuns(a) + "-" + CollapseRuns(b)
    decreases |a|, 1
  {
    if a == [] {
      RunThenAlnum(run, b);
      assert a + run + b == run + b;
    } else {
      SeparatorAfterFirstStep(a, run, b);
    }
  }

  /** The separator lemma for a non-empty left part: collapse its first
      character or run, then the rest by recursion. */
  lemma {:induction false} SeparatorAfterFirstStep(a: string, run: string, b: string)
    requires run != [] && forall k :: 0 <= k < |run| ==> !IsSlugAlnum(run[k])
    requires a != [] && IsSlugAlnum(a[|a| - 1])
    requires b == [] || IsSlugAlnum(b[0])
    ensures CollapseRuns(a + run + b) == CollapseRuns(a) + "-" + CollapseRuns(b)
    decreases |a|, 0
  {
    var k := if IsSlugAlnum(a[0]) then 1 else SkipRun(a, 0);
    var head := if IsSlugAlnum(a[0]) then [a[0]] else "-";
    var rest := a[k..];
    CollapseStep(a, run + b, k, head);
    CollapseSeparator(rest, run, b);
    Regroup3(rest, run, b);
    Regroup3(a, run, b);
    Regroup4(head, CollapseRuns(rest), "-", CollapseRuns(b));
  }

  lemma Regroup3(x: string, y: string, z: string)
    ensures x + (y + z) == x + y + z
  {
  }

  lemma Regroup4(w: string, x: string, y: string, z: string)
    ensures w + (x + y + z) == w + x + y + z
  {
  }

  /** A leading run followed by `[a-z0-9]` text or nothing collapses to one
      hyphen. */
  lemma RunThenAlnum(run: string, b: string)
    requires run != [] && forall k :: 0 <= k < |run| ==> !IsSlugAlnum(run[k])
    requires b == [] || IsSlugAlnum(b[0])
    ensures CollapseRuns(run + b) == "-" + CollapseRuns(b)
  {
    var s := run + b;
    SkipRunAt(s, 0, |run|);
    assert s[|run|..] == b;
  }

  /** The first step of collapsing `a + t` stays inside `a` when `a` ends with
      a `[a-z0-9]` character, and is the same as the first step on `a`. */
  lemma CollapseStep(a: string, t: string, k: nat, head: string)
    requires a != [] && IsSlugAlnum(a[|a| - 1])
    requires k == (if IsSlugAlnum(a[0]) then 1 else SkipRun(a, 0))
    requires head == (if IsSlugAlnum(a[0]) then [a[0]] else "-")
    ensures 0 < k <= |a|
    ensures CollapseRuns(a) == head + CollapseRuns(a[k..])
    ensures CollapseRuns(a + t) == head + CollapseRuns(a[k..] + t)
  {
    var s := a + t;
    assert s[0] == a[0];
    if !IsSlugAlnum(a[0]) {
      SkipRunAt(s, 0, k);
    }
    assert s[k..] == a[k..] + t;
  }

  /** The slug base of an example title: the punctuation and spaces between
      words become single hyphens and the trailing one is stripped. */
  lemma ExampleSlugBase()
    ensures SlugBase("Big O, Explained!") == "big-o-explained"
  {
    ExampleLower();
    ExampleCollapse();
    ExampleStrip();
  }

  lemma ExampleLower()
    ensures ToLower("Big O, Explained!") == "big" + " " + ("o" + ", " + ("explained" + "!"))
  {
    ExampleTitleSplit();
    ToLowerAppend("B" + "ig O, ", "E" + "xplained!");
    ToLowerAppend("B", "ig O, ");
    ToLowerAppend("E", "xplained!");
    ExampleLowerPieces();
    ExampleLowerJoin();
  }

  lemma ExampleTitleSplit()
    ensures "Big O, Explained!" == ("B" + "ig O, ") + ("E" + "xplained!")
  {
  }

  lemma ExampleLowerPieces()
    ensures ToLower("B") == "b" && ToLower("E") == "e"
    ensures ToLower("ig O, ") == "ig o, " && ToLower("xplained!") == "xplained!"
  {
    ToLowerAppend("ig ", "O, ");
    ToLowerAppend("O", ", ");
    ExampleLowerSplit();
    NoUpperUnchanged("ig ");
    NoUpperUnchanged(", ");
    NoUpperUnchanged("xplained!");
  }

  lemma ExampleLowerSplit()
    ensures "ig O, " == "ig " + ("O" + ", ") && "ig o, " == "ig " + ("o" + ", ")
  {
  }

  lemma ExampleLowerJoin()
    ensures "b" + "ig o, " + ("e" + "xplained!") == "big" + " " + ("o" + ", " + ("explained" + "!"))
  {
  }

  lemma ExampleStrip()
    ensures StripEdgeHyphens("big-o-explained-") == "big-o-explained"
  {
  }

  lemma ExampleCollapse()
    ensures CollapseRuns("big" + " " + ("o" + ", " + ("explained" + "!"))) == "big-o-explained-"
  {
    ExampleWords();
    ExampleLastWord();
    CollapseSeparator("o", ", ", "explained" + "!");
    Regroup3("o", ", ", "explained" + "!");
    CollapseSeparator("big", " ", "o" + ", " + ("explained" + "!"));
    ExampleHyphenJoin();
  }

  lemma ExampleHyphenJoin()
    ensures "big" + "-" + ("o" + "-" + "explained-") == "big-o-explained-"
  {
  }

  lemma ExampleWords()
    ensures CollapseRuns("big") == "big" && CollapseRuns("o") == "o" && CollapseRuns("explained") == "explained"
  {
    AlnumWordUnchanged("big");
    AlnumWordUnchanged("o");
    AlnumWordUnchanged("explained");
  }

  lemma ExampleLastWord()
    ensures CollapseRuns("explained" + "!") == "explained-"
  {
    ExampleWords();
    CollapseSeparator("explained", "!", []);
    ExampleLastWordJoin();
  }

  lemma ExampleLastWordJoin()
    ensures "explained" + "!" + [] == "explained" + "!" && "explained" + "-" + [] == "explained-"
  {
  }

  /** Text made only of `[a-z0-9]` characters is left as it is. */
  lemma {:induction false} AlnumWordUnchanged(w: string)
    requires forall k :: 0 <= k < |w| ==> IsSlugAlnum(w[k])
    ensures CollapseRuns(w) == w
  {
    if w != [] {
      AlnumWordUnchanged(w[1..]);
      assert [w[0]] + w[1..] == w;
    }
  }

  /** Text without ASCII capitals is its own lower-case form. */
  lemma NoUpperUnchanged(s: string)
    requires forall k :: 0 <= k < |s| ==> !IsAsciiUpper(s[k])
    ensures ToLower(s) == s
  {
    PointwiseLower(s, s);
  }

  /** A run of non-`[a-z0-9]` characters contributes nothing. */
  lemma {:induction false} RunHasNoAlnums(s: string, i: nat, k: nat)
    requires i <= k <= |s|
    requires forall j :: i <= j < k ==> !IsSlugAlnum(s[j])
    ensures Alnums(s[i..]) == Alnums(s[k..])
    decreases k - i
  {
    if i < k {
      assert s[i..][1..] == s[i + 1..];
      RunHasNoAlnums(s, i + 1, k);
    }
  }

  /** Removing hyphens at the edges keeps the `[a-z0-9]` content. */
  lemma StripKeepsAlnums(s: string)
    ensures Alnums(StripEdgeHyphens(s)) == Alnums(s)
  {
    var from := if |s| > 0 && s[0] == '-' then 1 else 0;
    var to := if |s| > from && s[|s| - 1] == '-' then |s| - 1 else |s|;
    AlnumsOfDrop(s, from);
    if to == |s| - 1 {
      assert s[from..] == s[from..to] + [s[|s| - 1]];
      AlnumsAppendNonAlnum(s[from..to], '-');
    } else {
      assert s[from..to] == s[from..];
    }
  }

  /** Dropping a leading hyphen keeps the `[a-z0-9]` content. */
  lemma AlnumsOfDrop(s: string, from: nat)
    requires from <= 1 && from <= |s| && (from == 1 ==> s[0] == '-')
    ensures Alnums(s[from..]) == Alnums(s)
  {
  }

  /** Appending a non-`[a-z0-9]` character changes nothing. */
  lemma {:induction false} AlnumsAppendNonAlnum(s: string, c: char)
    requires !IsSlugAlnum(c)
    ensures Alnums(s + [c]) == Alnums(s)
  {
    if s != [] {
      assert (s + [c])[1..] == s[1..] + [c];
      AlnumsAppendNonAlnum(s[1..], c);
    }
  }

  /** The base keeps the lower-cased title's `[a-z0-9]` content, in order. */
  lemma BaseKeepsAlnums(title: string)
    ensures Alnums(SlugBase(title)) == Alnums(ToLower(title))
  {
    StripKeepsAlnums(CollapseRuns(ToLower(title)));
    CollapseKeepsAlnums(ToLower(title));
  }

  /** A string in the slug alphabet without `[a-z0-9]` characters is all
      hyphens. */
  lemma {:induction false} AlnumsEmptyOnlyIfHyphens(s: string)
    requires SlugAlphabet(s) && Alnums(s) == []
    ensures forall i :: 0 <= i < |s| ==> s[i] == '-'
  {
    if s != [] {
      AlnumsEmptyOnlyIfHyphens(s[1..]);
      forall i | 0 <= i < |s| ensures s[i] == '-' {
        if i > 0 {
          assert s[i] == s[1..][i - 1];
        }
      }
    }
  }

  /** A title without any `[a-z0-9]` character yields a slug of a hyphen
      followed by the timestamp digits; any other title a non-empty base. */
  lemma NoAlnumTitle(title: string, now: nat)
    ensures Alnums(ToLower(title)) == [] <==> SlugBase(title) == []
    ensures Alnums(ToLower(title)) == [] ==> Slug(title, now) == "-" + Base36(now)
  {
    BaseKeepsAlnums(title);
    BaseShape(title);
    var b := SlugBase(title);
    if Alnums(ToLower(title)) == [] && b != [] {
      AlnumsEmptyOnlyIfHyphens(b);
    }
  }

  /** The timestamp can be read back from the slug. */
  lemma SlugTimestamp(title: string, now: nat)
    ensures FromBase36(AfterLastHyphen(Slug(title, now))) == now
  {
    var d := Base36(now);
    forall i | 0 <= i < |d| ensures d[i] != '-' {
      assert IsSlugAlnum(d[i]);
    }
    AfterLastHyphenOf(SlugBase(title), d);
    Base36RoundTrip(now);
  }

  /** Equal slugs come from equal timestamps and equal bases, so slugs written
      at different milliseconds never collide. */
  lemma SlugDeterminesTimestamp(t1: string, n1: nat, t2: string, n2: nat)
    requires Slug(t1, n1) == Slug(t2, n2)
    ensures n1 == n2 && SlugBase(t1) == SlugBase(t2)
  {
    SlugTimestamp(t1, n1);
    SlugTimestamp(t2, n2);
    Base36RoundTrip(n1);
    var s := Slug(t1, n1);
    assert |SlugBase(t1)| == |s| - |Base36(n1)| - 1 == |SlugBase(t2)|;
    assert SlugBase(t1) == s[..|SlugBase(t1)|] == SlugBase(t2);
  }

  // ---------------------------------------------------------------------------
  // Schema constraints

  const MaxTitleLength := 200
  const TitleRequired := "Title is required"
  const TitleTooLong := "Title cannot exceed 200 characters"

  /** The title validators, applied to the trimmed value the setter stored:
      required first, then the length limit. */
  function TitleError(title: string): (r: Option<string>)
    ensures r.None? <==> title != [] && |title| <= MaxTitleLength
  {
    if title == [] then Some(TitleRequired)
    else if |title| > MaxTitleLength then Some(TitleTooLong)
    else None
  }

  /** The tag setter: trim, then lower-case. */
  function NormalizeTag(tag: string): string {
    ToLower(Trim(tag))
  }

  /** Normalizing a tag twice changes nothing more, and the order of the two
      setters does not matter. */
  lemma NormalizeTagStable(tag: string)
    ensures NormalizeTag(NormalizeTag(tag)) == NormalizeTag(tag)
    ensures NormalizeTag(tag) == Trim(ToLower(tag))
  {
    calc {
      NormalizeTag(NormalizeTag(tag));
      ToLower(Trim(ToLower(Trim(tag))));
      { TrimLowerCommute(Trim(tag)); }
      ToLower(ToLower(Trim(Trim(tag))));
      { TrimIdempotent(tag); }
      ToLower(ToLower(Trim(tag)));
      { ToLowerIdempotent(Trim(tag)); }
      NormalizeTag(tag);
    }
    TrimLowerCommute(tag);
  }

  /** Every tag of the list normalized. */
  function NormalizeTags(tags: seq<string>): (r: seq<string>)
    ensures |r| == |tags| && forall i :: 0 <= i < |r| ==> r[i] == NormalizeTag(tags[i])
  {
    seq(|tags|, i requires 0 <= i < |tags| => NormalizeTag(tags[i]))
  }

  /** A normalized tag is a fixed point of the setter. */
  predicate TagNormalized(tag: string) {
    NormalizeTag(tag) == tag
  }

  /** A stored blog. `slug` is empty only before the first save. */
  datatype Blog = Blog(author: UserId, title: string, slug: string, content: Json,
                       tags: seq<string>, published: bool, createdAt: int)

  /** What the schema guarantees of every saved blog. */
  predicate WellFormed(b: Blog) {
    && TitleError(b.title).None?
    && Trim(b.title) == b.title
    && forall i :: 0 <= i < |b.tags| ==> TagNormalized(b.tags[i])
  }

  // ---------------------------------------------------------------------------
  // A document being saved

  /** A blog document: assignments go through the schema's setters and mark
      the title modified only when its stored value changes; `PreSave` is
      the hook that refreshes the slug. */
  class BlogDocument {
    var author: UserId
    var title: string
    var slug: string
    var content: Json
    var tags: seq<string>
    var published: bool
    var createdAt: int
    var titleModified: bool

    /** The stored blog this document holds. */
    function Snapshot(): Blog
      reads this
    {
      Blog(author, title, slug, content, tags, published, createdAt)
    }

    /** `new Blog({...})`: every field goes through its setter and, the
        document being new, the title counts as modified. */
    constructor Create(author: UserId, title: string, content: Json, tags: seq<string>,
                       published: bool, createdAt: int)
      ensures Snapshot() == Blog(author, Trim(title), "", content, NormalizeTags(tags), published, createdAt)
      ensures titleModified
    {
      this.author := author;
      this.title := Trim(title);
      this.slug := "";
      this.content := content;
      this.tags := NormalizeTags(tags);
      this.published := published;
      this.createdAt := createdAt;
      this.titleModified := true;
    }

    /** `findById`: a document holding a stored blog, nothing modified. */
    constructor Load(b: Blog)
      ensures Snapshot() == b && !titleModified
    {
      author := b.author;
      title := b.title;
      slug := b.slug;
      content := b.content;
      tags := b.tags;
      published := b.published;
      createdAt := b.createdAt;
      titleModified := false;
    }

    /** `doc.title = t`: the setter trims, and the path is marked modified
        only when the stored value changes. */
    method SetTitle(t: string)
      modifies this
      ensures Snapshot() == old(Snapshot()).(title := Trim(t))
      ensures titleModified == (old(titleModified) || Trim(t) != old(title))
    {
      titleModified := titleModified || Trim(t) != title;
      title := Trim(t);
    }

    /** `doc.content = c`. */
    method SetContent(c: Json)
      modifies this
      ensures Snapshot() == old(Snapshot()).(content := c)
      ensures titleModified == old(titleModified)
    {
      content := c;
    }

    /** `doc.tags = ts`: each element goes through the tag setter. */
    method SetTags(ts: seq<string>)
      modifies this
      ensures Snapshot() == old(Snapshot()).(tags := NormalizeTags(ts))
      ensures titleModified == old(titleModified)
    {
      tags := NormalizeTags(ts);
    }

    /** `doc.published = p`. */
    method SetPublished(p: bool)
      modifies this
      ensures Snapshot() == old(Snapshot()).(published := p)
      ensures titleModified == old(titleModified)
    {
      published := p;
    }

    /** The pre-save hook: a new slug only when the title was modified, and
        nothing else changes. */
    method PreSave(now: nat)
      modifies this
      ensures old(titleModified) ==> Snapshot() == old(Snapshot()).(slug := Slug(title, now))
      ensures !old(titleModified) ==> Snapshot() == old(Snapshot())
    {
      if titleModified {
        slug := Slug(title, now);
      }
    }
  }

  /** A document that passed validation and went through the hook is a
      well-formed blog whose slug fits the slug alphabet. */
  lemma SavedDocumentWellFormed(b: Blog, now: nat)
    requires TitleError(b.title).None? && Trim(b.title) == b.title
    requires forall i :: 0 <= i < |b.tags| ==> TagNormalized(b.tags[i])
    ensures WellFormed(b.(slug := Slug(b.title, now)))
    ensures SlugAlphabet(b.(slug := Slug(b.title, now)).slug)
  {
    SlugCharacters(b.title, now);
  }

  /** Setter output is what the schema demands of stored tags. */
  lemma NormalizedTagsAreNormal(tags: seq<string>)
    ensures forall i :: 0 <= i < |NormalizeTags(tags)| ==> TagNormalized(NormalizeTags(tags)[i])
  {
    forall i | 0 <= i < |tags| ensures TagNormalized(NormalizeTags(tags)[i]) {
      NormalizeTagStable(tags[i]);
    }
  }
}
