/** String operations of the JavaScript runtime that the core relies on:
    ASCII case mapping, `String.prototype.trim`, `includes`, `indexOf`
    and `replace` with a plain (non-`$`) replacement string. */
module Text {
  import opened Wrappers

  /** `c` is an ASCII upper-case letter. */
  predicate IsAsciiUpper(c: char) { 'A' <= c <= 'Z' }

  /** ASCII case mapping of one character. */
  function LowerChar(c: char): (r: char)
    ensures !IsAsciiUpper(r)
    ensures IsAsciiUpper(c) ==> r as int == c as int + 32
    ensures !IsAsciiUpper(c) ==> r == c
  {
    if IsAsciiUpper(c) then (c as int + 32) as char else c
  }

  /** `s.toLowerCase()`, restricted to the ASCII letters. */
  function ToLower(s: string): (r: string)
    ensures |r| == |s|
    ensures forall i :: 0 <= i < |s| ==> r[i] == LowerChar(s[i])
  {
    if s == [] then [] else [LowerChar(s[0])] + ToLower(s[1..])
  }

  /** Lower-casing twice is lower-casing once. */
  lemma ToLowerIdempotent(s: string)
    ensures ToLower(ToLower(s)) == ToLower(s)
  {
  }

  /** The characters `trim` removes and `\s` matches: the ECMAScript
      WhiteSpace and LineTerminator code points. */
  predicate IsWhitespace(c: char) {
    c == '\t' || c == '\n' || c == '\U{B}' || c == '\U{C}' || c == '\r' || c == ' '
    || c == '\U{A0}' || c == '\U{1680}' || ('\U{2000}' <= c <= '\U{200A}')
    || c == '\U{2028}' || c == '\U{2029}' || c == '\U{202F}' || c == '\U{205F}'
    || c == '\U{3000}' || c == '\U{FEFF}'
  }

  predicate AllWhitespace(s: string) {
    forall i :: 0 <= i < |s| ==> IsWhitespace(s[i])
  }

  /** The index of the first non-whitespace character at or after `i`
      (`|s|` when there is none). */
  function SkipLeading(s: string, i: nat): (r: nat)
    requires i <= |s|
    ensures i <= r <= |s|
    ensures forall k :: i <= k < r ==> IsWhitespace(s[k])
    ensures r == |s| || !IsWhitespace(s[r])
    decreases |s| - i
  {
    if i < |s| && IsWhitespace(s[i]) then SkipLeading(s, i + 1) else i
  }

  /** The index just after the last non-whitespace character in `s[lo..j]`
      (`lo` when there is none). */
  function SkipTrailing(s: string, lo: nat, j: nat): (r: nat)
    requires lo <= j <= |s|
    ensures lo <= r <= j
    ensures forall k :: r <= k < j ==> IsWhitespace(s[k])
    ensures r == lo || !IsWhitespace(s[r - 1])
    decreases j
  {
    if lo < j && IsWhitespace(s[j - 1]) then SkipTrailing(s, lo, j - 1) else j
  }

  /** Where `trim` starts and ends its result. */
  function TrimStartIndex(s: string): nat { SkipLeading(s, 0) }
  function TrimEndIndex(s: string): (r: nat)
    ensures TrimStartIndex(s) <= r <= |s|
  {
    SkipTrailing(s, TrimStartIndex(s), |s|)
  }

  /** `s.trim()`. */
  function Trim(s: string): string {
    s[TrimStartIndex(s)..TrimEndIndex(s)]
  }

  /** `Trim(s)` is the slice of `s` left after dropping its leading and its
      trailing whitespace: everything dropped is whitespace, and what is left
      neither starts nor ends with whitespace. */
  lemma TrimSpec(s: string)
    ensures Trim(s) == s[TrimStartIndex(s)..TrimEndIndex(s)]
    ensures forall k :: 0 <= k < TrimStartIndex(s) ==> IsWhitespace(s[k])
    ensures forall k :: TrimEndIndex(s) <= k < |s| ==> IsWhitespace(s[k])
    ensures Trim(s) == [] || (!IsWhitespace(Trim(s)[0]) && !IsWhitespace(Trim(s)[|Trim(s)| - 1]))
  {
  }

  /** The trimmed string is empty exactly when the input is all whitespace. */
  lemma TrimEmptyIff(s: string)
    ensures Trim(s) == [] <==> AllWhitespace(s)
  {
    if Trim(s) == [] {
      assert TrimStartIndex(s) == |s| || TrimEndIndex(s) == TrimStartIndex(s);
    }
  }

  /** A string with no whitespace at either end is its own trim. */
  lemma TrimFixpoint(s: string)
    requires s == [] || (!IsWhitespace(s[0]) && !IsWhitespace(s[|s| - 1]))
    ensures Trim(s) == s
  {
  }

  /** Trimming is idempotent. */
  lemma TrimIdempotent(s: string)
    ensures Trim(Trim(s)) == Trim(s)
  {
    TrimSpec(s);
    TrimFixpoint(Trim(s));
  }

  /** Whitespace in front of a string does not change its trim (what a regular
      expression's `\s*` consumes before a captured group that is trimmed). */
  lemma TrimSkipsLeadingWhitespace(w: string, s: string)
    requires AllWhitespace(w)
    ensures Trim(w + s) == Trim(s)
  {
    TrimBoundsShift(w, s);
    SliceAfterPrefix(w, s, TrimStartIndex(s), TrimEndIndex(s));
  }

  /** A slice of `w + s` past `w` is a slice of `s`. */
  lemma SliceAfterPrefix(w: string, s: string, lo: nat, hi: nat)
    requires lo <= hi <= |s|
    ensures (w + s)[|w| + lo..|w| + hi] == s[lo..hi]
  {
    assert (w + s)[|w|..] == s;
  }

  /** Both ends of the trim move by the length of the leading whitespace. */
  lemma TrimBoundsShift(w: string, s: string)
    requires AllWhitespace(w)
    ensures TrimStartIndex(w + s) == |w| + TrimStartIndex(s)
    ensures TrimEndIndex(w + s) == |w| + TrimEndIndex(s)
  {
    SkipLeadingShift(w, s, 0);
    SkipTrailingShift(w, s, TrimStartIndex(s), |s|);
  }

  lemma {:induction false} SkipLeadingShift(w: string, s: string, i: nat)
    requires AllWhitespace(w) && i <= |w| + |s|
    ensures SkipLeading(w + s, i) == if i <= |w| then |w| + SkipLeading(s, 0) else |w| + SkipLeading(s, i - |w|)
    decreases |w| + |s| - i
  {
    var t := w + s;
    if i < |w| {
      assert t[i] == w[i];
      SkipLeadingShift(w, s, i + 1);
    } else if i < |t| {
      assert t[i] == s[i - |w|];
      if IsWhitespace(t[i]) {
        SkipLeadingShift(w, s, i + 1);
      }
    }
  }

  lemma {:induction false} SkipTrailingShift(w: string, s: string, lo: nat, j: nat)
    requires lo <= j <= |s|
    ensures SkipTrailing(w + s, |w| + lo, |w| + j) == |w| + SkipTrailing(s, lo, j)
    decreases j
  {
    var t := w + s;
    if lo < j {
      assert t[|w| + j - 1] == s[j - 1];
      if IsWhitespace(s[j - 1]) {
        SkipTrailingShift(w, s, lo, j - 1);
      }
    }
  }

  /** ASCII lower-casing keeps whitespace and non-whitespace apart. */
  lemma LowerCharWhitespace(c: char)
    ensures IsWhitespace(LowerChar(c)) == IsWhitespace(c)
  {
  }

  lemma {:induction false} SkipLeadingLower(s: string, i: nat)
    requires i <= |s|
    ensures SkipLeading(ToLower(s), i) == SkipLeading(s, i)
    decreases |s| - i
  {
    if i < |s| {
      LowerCharWhitespace(s[i]);
      SkipLeadingLower(s, i + 1);
    }
  }

  lemma {:induction false} SkipTrailingLower(s: string, lo: nat, j: nat)
    requires lo <= j <= |s|
    ensures SkipTrailing(ToLower(s), lo, j) == SkipTrailing(s, lo, j)
    decreases j
  {
    if lo < j {
      LowerCharWhitespace(s[j - 1]);
      SkipTrailingLower(s, lo, j - 1);
    }
  }

  /** Lower-casing and trimming commute, so a schema that trims and lower-cases
      gives the same value in either order. */
  lemma TrimLowerCommute(s: string)
    ensures Trim(ToLower(s)) == ToLower(Trim(s))
  {
    SkipLeadingLower(s, 0);
    SkipTrailingLower(s, TrimStartIndex(s), |s|);
    ToLowerSlice(s, TrimStartIndex(s), TrimEndIndex(s));
  }

  /** A string whose every character is the lower case of the matching
      character of `u` is `ToLower(u)`. */
  lemma PointwiseLower(u: string, t: string)
    requires |t| == |u|
    requires forall k :: 0 <= k < |u| ==> t[k] == LowerChar(u[k])
    ensures t == ToLower(u)
  {
  }

  /** Lower-casing a slice is slicing the lower-cased string. */
  /** Lower-casing distributes over concatenation. */
  lemma ToLowerAppend(x: string, y: string)
    ensures ToLower(x + y) == ToLower(x) + ToLower(y)
  {
    var u, t := x + y, ToLower(x) + ToLower(y);
    forall k | 0 <= k < |u| ensures t[k] == LowerChar(u[k]) {
      if k < |x| {
        assert t[k] == ToLower(x)[k] && u[k] == x[k];
      } else {
        assert t[k] == ToLower(y)[k - |x|] && u[k] == y[k - |x|];
      }
    }
    PointwiseLower(u, t);
  }

  lemma ToLowerSlice(s: string, i: nat, j: nat)
    requires i <= j <= |s|
    ensures ToLower(s)[i..j] == ToLower(s[i..j])
  {
    var u, t := s[i..j], ToLower(s)[i..j];
    forall k | 0 <= k < |u| ensures t[k] == LowerChar(u[k]) {
      assert t[k] == ToLower(s)[i + k] && u[k] == s[i + k];
    }
    PointwiseLower(u, t);
  }

  /** `pat` occurs in `s` starting at index `k`. */
  predicate OccursAt(s: string, pat: string, k: int) {
    0 <= k && k + |pat| <= |s| && s[k..k + |pat|] == pat
  }

  /** `k` is the first index at which `pat` occurs in `s`. */
  predicate FirstOccurrence(s: string, pat: string, k: int) {
    OccursAt(s, pat, k) && forall k' :: 0 <= k' < k ==> !OccursAt(s, pat, k')
  }

  /** `s.indexOf(pat, from)`, with -1 modelled as `None`. */
  function IndexOf(s: string, pat: string, from: nat): (r: Option<nat>)
    ensures r.Some? ==> from <= r.value && OccursAt(s, pat, r.value)
    ensures r.Some? ==> forall k :: from <= k < r.value ==> !OccursAt(s, pat, k)
    ensures r.None? ==> forall k :: from <= k ==> !OccursAt(s, pat, k)
    decreases |s| - from
  {
    if from + |pat| > |s| then None
    else if OccursAt(s, pat, from) then Some(from)
    else IndexOf(s, pat, from + 1)
  }

  /** `s.includes(sub)`. */
  function Contains(s: string, sub: string): (r: bool)
    ensures r <==> exists k :: OccursAt(s, sub, k)
  {
    IndexOf(s, sub, 0).Some?
  }

  /** The empty string is contained in every string. */
  lemma ContainsEmpty(s: string)
    ensures Contains(s, "")
  {
    assert OccursAt(s, "", 0);
  }

  /** `s.replace(pat, rep)` with a string pattern: only the first occurrence
      is replaced. */
  function ReplaceFirst(s: string, pat: string, rep: string): string {
    match IndexOf(s, pat, 0)
    case None => s
    case Some(k) => s[..k] + rep + s[k + |pat|..]
  }

  /** `s.replace(/pat/g, rep)` for a pattern without regular-expression
      operators: occurrences are replaced left to right, and the search
      resumes after each replaced occurrence. */
  function ReplaceAll(s: string, pat: string, rep: string): string
    requires |pat| > 0
    decreases |s|
  {
    match IndexOf(s, pat, 0)
    case None => s
    case Some(k) => s[..k] + rep + ReplaceAll(s[k + |pat|..], pat, rep)
  }

  /** Searching from `from` finds the first occurrence at or after `from`. */
  lemma IndexOfFrom(s: string, pat: string, from: nat, k: int)
    requires from <= k && OccursAt(s, pat, k)
    requires forall k' :: from <= k' < k ==> !OccursAt(s, pat, k')
    ensures IndexOf(s, pat, from) == Some(k)
  {
  }

  /** There is at most one first occurrence, and `indexOf` finds it. */
  lemma IndexOfFindsFirst(s: string, pat: string, k: int)
    requires FirstOccurrence(s, pat, k)
    ensures IndexOf(s, pat, 0) == Some(k)
  {
  }

  /** `ReplaceFirst` leaves a string without the pattern unchanged and
      otherwise splices `rep` over exactly the first occurrence. */
  lemma ReplaceFirstSpec(s: string, pat: string, rep: string)
    ensures (forall k :: !OccursAt(s, pat, k)) ==> ReplaceFirst(s, pat, rep) == s
    ensures forall k :: FirstOccurrence(s, pat, k) ==>
              ReplaceFirst(s, pat, rep) == s[..k] + rep + s[k + |pat|..]
  {
    forall k | FirstOccurrence(s, pat, k) ensures ReplaceFirst(s, pat, rep) == s[..k] + rep + s[k + |pat|..] {
      IndexOfFindsFirst(s, pat, k);
    }
  }

  /** `ReplaceAll` leaves a string without the pattern unchanged. */
  lemma ReplaceAllAbsent(s: string, pat: string, rep: string)
    requires |pat| > 0
    requires forall k :: !OccursAt(s, pat, k)
    ensures ReplaceAll(s, pat, rep) == s
  {
    assert IndexOf(s, pat, 0).None?;
  }

  /** Replacing the first occurrence, when it is known to sit right after `a`. */
  lemma ReplaceFirstAfter(a: string, pat: string, b: string, rep: string)
    requires forall k :: 0 <= k < |a| ==> !OccursAt(a + pat + b, pat, k)
    ensures ReplaceFirst(a + pat + b, pat, rep) == a + rep + b
  {
    var s := a + pat + b;
    assert s[|a|..|a| + |pat|] == pat;
    IndexOfFindsFirst(s, pat, |a|);
    assert s[..|a|] == a && s[|a| + |pat|..] == b;
  }

  /** Replacing all occurrences, when the first one is known to sit right
      after `a`: the rest is processed on its own. */
  lemma ReplaceAllAfter(a: string, pat: string, b: string, rep: string)
    requires |pat| > 0
    requires forall k :: 0 <= k < |a| ==> !OccursAt(a + pat + b, pat, k)
    ensures ReplaceAll(a + pat + b, pat, rep) == a + rep + ReplaceAll(b, pat, rep)
  {
    var s := a + pat + b;
    assert s[|a|..|a| + |pat|] == pat;
    IndexOfFindsFirst(s, pat, |a|);
    assert s[..|a|] == a && s[|a| + |pat|..] == b;
  }
}
