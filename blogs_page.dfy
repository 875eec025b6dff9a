/** The community blog list: a case-insensitive search over titles and
    tags, and the heading shown when nothing is left to list. */
module BlogsPage {
  import opened Wrappers
  import opened Text
  import opened Sequences

  /** What the list needs of a loaded blog; `tags` may be missing. */
  datatype BlogCard = BlogCard(title: string, tags: Option<seq<string>>)

  /** Some tag contains `needle` once lower-cased. */
  predicate SomeTagContains(tags: Option<seq<string>>, needle: string) {
    tags.Some? && exists i :: 0 <= i < |tags.value| && Contains(ToLower(tags.value[i]), needle)
  }

  /** The search predicate: the lower-cased title or some lower-cased tag
      contains the lower-cased term. */
  predicate MatchesSearch(b: BlogCard, term: string) {
    Contains(ToLower(b.title), ToLower(term)) || SomeTagContains(b.tags, ToLower(term))
  }

  /** `filteredBlogs`: the loaded blogs the search keeps, in loaded order;
      a kept blog appears as often as it was loaded, a dropped one not at all. */
  function FilterBlogs(blogs: seq<BlogCard>, term: string): (r: seq<BlogCard>)
    ensures forall i :: 0 <= i < |r| ==> r[i] in blogs && MatchesSearch(r[i], term)
    ensures forall i :: 0 <= i < |blogs| && MatchesSearch(blogs[i], term) ==> blogs[i] in r
    ensures forall b :: multiset(r)[b] == if MatchesSearch(b, term) then multiset(blogs)[b] else 0
  {
    assert forall b :: multiset(Filter(blogs, b => MatchesSearch(b, term)))[b]
                       == if MatchesSearch(b, term) then multiset(blogs)[b] else 0 by {
      forall b {
        FilterCount(blogs, b => MatchesSearch(b, term), b);
      }
    }
    Filter(blogs, b => MatchesSearch(b, term))
  }

  /** The heading of the empty state. */
  function EmptyStateHeading(term: string): string {
    if term != "" then "No blogs found" else "No blogs yet"
  }

  /** The search result is the loaded list with some blogs deleted, never
      reordered. */
  lemma FilterKeepsOrder(blogs: seq<BlogCard>, term: string)
    ensures Subsequence(FilterBlogs(blogs, term), blogs)
  {
    FilterIsSubsequence(blogs, b => MatchesSearch(b, term));
  }

  /** The empty term keeps every blog, so "No blogs yet" is shown exactly
      when nothing was loaded. */
  lemma EmptyTermKeepsAll(blogs: seq<BlogCard>)
    ensures FilterBlogs(blogs, "") == blogs
    ensures FilterBlogs(blogs, "") == [] <==> blogs == []
  {
    forall i | 0 <= i < |blogs| ensures MatchesSearch(blogs[i], "") {
      ContainsEmpty(ToLower(blogs[i].title));
    }
    FilterKeepsAll(blogs, b => MatchesSearch(b, ""));
  }

  /** A blog without tags, or with an empty tag list, matches on its title
      alone. */
  lemma TaglessMatchesTitleOnly(b: BlogCard, term: string)
    requires b.tags.None? || b.tags == Some([])
    ensures MatchesSearch(b, term) <==> Contains(ToLower(b.title), ToLower(term))
  {
  }

  /** The search ignores ASCII case in the term. */
  lemma SearchIgnoresTermCase(b: BlogCard, term: string)
    ensures MatchesSearch(b, term) == MatchesSearch(b, ToLower(term))
  {
    ToLowerIdempotent(term);
  }

  /** A non-empty term that heads the empty state names the search, not the
      absence of blogs. */
  lemma EmptyStateNamesSearch(term: string)
    ensures EmptyStateHeading(term) == "No blogs found" <==> term != ""
  {
  }
}
