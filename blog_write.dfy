/** The blog editor page: the tag list it builds, the publish toggle, and
    the checks made before the blog is sent. */
module BlogWrite {
  import opened Wrappers
  import opened Text
  import opened JsonValue
  import opened Sequences
  import opened BlogModel
  import BlogController

  const TitleIsRequired := "Title is required"
  const ContentIsRequired := "Content is required"
  const CreateFailed := "Failed to create blog"

  /** The number of top-level nodes in the editor's document, 0 when there
      is no editor or the document has no `content` array. */
  function TopLevelNodes(doc: Option<Json>): nat {
    if doc.Some? && !doc.value.JNull? && Member(doc.value, "content").Some?
       && Member(doc.value, "content").value.JArray?
    then |Member(doc.value, "content").value.items|
    else 0
  }

  /** The tags list: each tag once, already trimmed and lower-cased, none empty. */
  ghost predicate GoodTags(tags: seq<string>) {
    && (forall i, j :: 0 <= i < j < |tags| ==> tags[i] != tags[j])
    && (forall i :: 0 <= i < |tags| ==> tags[i] != "" && TagNormalized(tags[i]))
  }

  /** What `handleSubmit` decided. */
  datatype Submission = Refused(message: string) | Sent(body: BlogController.BlogBody)

  /** The editor state the handlers change. */
  class BlogWriteState {
    var title: string
    var tags: seq<string>
    var tagInput: string
    var published: bool
    var loading: bool
    var error: string

    ghost predicate Valid()
      reads this
    {
      GoodTags(tags)
    }

    /** A fresh editor: no tags, and `published` switched on. */
    constructor()
      ensures Valid()
      ensures title == "" && tags == [] && tagInput == "" && published && !loading && error == ""
    {
      title := "";
      tags := [];
      tagInput := "";
      published := true;
      loading := false;
      error := "";
    }

    /** `addTag`: the input, trimmed and lower-cased, is appended and the
        input cleared, unless it is empty or already listed. */
    method AddTag()
      requires Valid()
      modifies this
      ensures Valid()
      ensures var tag := NormalizeTag(old(tagInput));
              if tag != "" && tag !in old(tags)
              then tags == old(tags) + [tag] && tagInput == ""
              else tags == old(tags) && tagInput == old(tagInput)
      ensures title == old(title) && published == old(published)
      ensures loading == old(loading) && error == old(error)
    {
      var tag := NormalizeTag(tagInput);
      if tag != "" && tag !in tags {
        assert TagNormalized(tag) by { NormalizeTagStable(tagInput); }
        AppendKeepsGood(tags, tag);
        tags := tags + [tag];
        tagInput := "";
      }
    }

    /** `removeTag(t)`: every entry equal to `t` goes, the rest keep their order. */
    method RemoveTag(t: string)
      requires Valid()
      modifies this
      ensures Valid()
      ensures tags == Filter(old(tags), x => x != t)
      ensures t !in tags
      ensures t in old(tags) ==> |tags| == |old(tags)| - 1
      ensures t !in old(tags) ==> tags == old(tags)
      ensures title == old(title) && tagInput == old(tagInput) && published == old(published)
      ensures loading == old(loading) && error == old(error)
    {
      var before := tags;
      tags := Filter(tags, x => x != t);
      FilterIsSubsequence(before, x => x != t);
      SubsequenceKeepsDistinct(tags, before);
      if t in before {
        FilterDropsOne(before, x => x != t, t);
      } else {
        FilterKeepsAll(before, x => x != t);
      }
    }

    /** The publish switch. */
    method TogglePublished()
      requires Valid()
      modifies this
      ensures Valid()
      ensures published == !old(published)
      ensures title == old(title) && tags == old(tags) && tagInput == old(tagInput)
      ensures loading == old(loading) && error == old(error)
    {
      published := !published;
    }

    /** The synchronous part of `handleSubmit`: the title is checked first,
        then the content; on either error nothing is sent. Otherwise the
        error is cleared, loading starts and the body is sent. */
    method BeginSubmit(doc: Option<Json>) returns (s: Submission)
      requires Valid()
      modifies this
      ensures Valid()
      ensures Trim(old(title)) == "" ==> s == Refused(TitleIsRequired) && error == TitleIsRequired
                                         && loading == old(loading)
      ensures Trim(old(title)) != "" && TopLevelNodes(doc) == 0 ==>
                s == Refused(ContentIsRequired) && error == ContentIsRequired && loading == old(loading)
      ensures Trim(old(title)) != "" && TopLevelNodes(doc) > 0 ==>
                && s == Sent(BlogController.BlogBody(Some(old(title)), Some(doc.value), Some(old(tags)), Some(old(published))))
                && error == "" && loading
      ensures title == old(title) && tags == old(tags) && tagInput == old(tagInput) && published == old(published)
    {
      if Trim(title) == "" {
        error := TitleIsRequired;
        return Refused(TitleIsRequired);
      }
      if TopLevelNodes(doc) == 0 {
        error := ContentIsRequired;
        return Refused(ContentIsRequired);
      }
      error := "";
      loading := true;
      s := Sent(BlogController.BlogBody(Some(title), Some(doc.value), Some(tags), Some(published)));
    }

    /** The end of `handleSubmit`: loading stops; a failure shows the
        server's message, or a default when it sent none. On success the
        page navigates to the new blog's slug, returned here. */
    method CompleteSubmit(response: Result<string, string>) returns (navigateTo: Option<string>)
      requires Valid()
      modifies this
      ensures Valid()
      ensures !loading
      ensures response.Success? ==> navigateTo == Some("/blogs/" + response.value) && error == old(error)
      ensures response.Failure? ==> navigateTo.None?
                                    && error == (if response.error != "" then response.error else CreateFailed)
      ensures title == old(title) && tags == old(tags) && tagInput == old(tagInput) && published == old(published)
    {
      loading := false;
      match response
      case Success(slug) =>
        navigateTo := Some("/blogs/" + slug);
      case Failure(message) =>
        error := if message != "" then message else CreateFailed;
        navigateTo := None;
    }
  }

  /** Appending a new, normalized, non-empty tag keeps the list good. */
  lemma AppendKeepsGood(tags: seq<string>, tag: string)
    requires GoodTags(tags) && tag != "" && TagNormalized(tag) && tag !in tags
    ensures GoodTags(tags + [tag])
  {
    var r := tags + [tag];
    forall i, j | 0 <= i < j < |r| ensures r[i] != r[j] {
      if j == |tags| {
        assert r[i] in tags;
      }
    }
  }

  /** Deleting elements keeps a list free of duplicates. */
  lemma {:induction false} SubsequenceKeepsDistinct(a: seq<string>, b: seq<string>)
    requires Subsequence(a, b)
    requires forall i, j :: 0 <= i < j < |b| ==> b[i] != b[j]
    ensures forall i, j :: 0 <= i < j < |a| ==> a[i] != a[j]
    ensures forall i :: 0 <= i < |a| ==> a[i] in b
    decreases |b|
  {
    if a != [] && b != [] {
      if a[0] == b[0] {
        SubsequenceKeepsDistinct(a[1..], b[1..]);
        forall j | 0 < j < |a| ensures a[0] != a[j] {
          assert a[j] == a[1..][j - 1];
          assert a[j] in b[1..];
        }
        forall i | 0 <= i < |a| ensures a[i] in b {
          if i > 0 {
            assert a[i] == a[1..][i - 1];
          }
        }
      } else {
        SubsequenceKeepsDistinct(a, b[1..]);
      }
    }
  }

  /** A body the editor sends passes the server's presence check, and the
      server's trimmed title is not empty, so the only title error it can
      still meet is the length limit. */
  lemma SentBodyPassesServerChecks(title: string, doc: Json, tags: seq<string>, published: bool)
    requires Trim(title) != ""
    requires TopLevelNodes(Some(doc)) > 0
    ensures BlogController.HasTitleAndContent(BlogController.BlogBody(Some(title), Some(doc), Some(tags), Some(published)))
    ensures TitleError(Trim(title)).Some? ==> TitleError(Trim(title)) == Some(TitleTooLong)
  {
  }
}
