/** The store queries `find(filter).sort({createdAt: -1})`: select the records
    a filter keeps and list them newest first. Records with equal timestamps
    may come in either order, as in the database. */
module Listing {

  /** No key appears twice. */
  ghost predicate Distinct<K(!new)>(ks: seq<K>) {
    forall i, j :: 0 <= i < j < |ks| ==> ks[i] != ks[j]
  }

  /** Every key is in the store. */
  ghost predicate AllIn<K(!new), V>(m: map<K, V>, ks: seq<K>) {
    forall i :: 0 <= i < |ks| ==> ks[i] in m
  }

  /** The keys are ordered by descending timestamp. */
  ghost predicate NewestFirst<K(!new), V>(m: map<K, V>, at: V -> int, ks: seq<K>)
    requires AllIn(m, ks)
  {
    forall i, j :: 0 <= i < j < |ks| ==> at(m[ks[i]]) >= at(m[ks[j]])
  }

  /** A listing of exactly the kept records, each once, newest first. */
  ghost predicate IsListing<K(!new), V>(m: map<K, V>, keep: V -> bool, at: V -> int, ks: seq<K>) {
    && AllIn(m, ks)
    && Distinct(ks)
    && (forall k :: k in ks <==> k in m && keep(m[k]))
    && NewestFirst(m, at, ks)
  }

  /** Inserts `k` in front of the first key that is not newer than it. */
  function Insert<K(==,!new), V>(m: map<K, V>, at: V -> int, ks: seq<K>, k: K): (r: seq<K>)
    requires k in m && AllIn(m, ks)
    ensures |r| == |ks| + 1 && AllIn(m, r)
    ensures forall x :: x in r <==> x in ks || x == k
    ensures Distinct(ks) && k !in ks ==> Distinct(r)
    ensures NewestFirst(m, at, ks) ==> NewestFirst(m, at, r)
  {
    if ks == [] then [k]
    else if at(m[k]) >= at(m[ks[0]]) then [k] + ks
    else
      var rest := Insert(m, at, ks[1..], k);
      assert forall j :: 0 <= j < |rest| ==> rest[j] in ks[1..] || rest[j] == k;
      [ks[0]] + rest
  }

  /** Builds the listing one record at a time. */
  method SelectNewestFirst<K(==,!new), V>(m: map<K, V>, keep: V -> bool, at: V -> int) returns (ks: seq<K>)
    ensures IsListing(m, keep, at, ks)
  {
    ks := [];
    var pending := m.Keys;
    while pending != {}
      invariant pending <= m.Keys
      invariant AllIn(m, ks) && Distinct(ks) && NewestFirst(m, at, ks)
      invariant forall k :: k in ks <==> k in m && k !in pending && keep(m[k])
      decreases |pending|
    {
      var k :| k in pending;
      pending := pending - {k};
      if keep(m[k]) {
        ks := Insert(m, at, ks, k);
      }
    }
  }

  /** Two listings of the same records hold the same keys; they can differ
      only in the order of records with equal timestamps. */
  lemma ListingsAgree<K(!new), V>(m: map<K, V>, keep: V -> bool, at: V -> int, xs: seq<K>, ys: seq<K>)
    requires IsListing(m, keep, at, xs) && IsListing(m, keep, at, ys)
    ensures |xs| == |ys|
    ensures forall i :: 0 <= i < |xs| ==> at(m[xs[i]]) == at(m[ys[i]])
  {
    DistinctCard(xs, ys);
    forall i | 0 <= i < |xs| ensures at(m[xs[i]]) == at(m[ys[i]]) {
      SameRank(m, keep, at, xs, ys, i);
      SameRank(m, keep, at, ys, xs, i);
    }
  }

  /** Two duplicate-free sequences with the same elements have the same length. */
  lemma DistinctCard<K(!new)>(xs: seq<K>, ys: seq<K>)
    requires Distinct(xs) && Distinct(ys)
    requires forall k :: k in xs <==> k in ys
    ensures |xs| == |ys|
  {
    DistinctSetCard(xs);
    DistinctSetCard(ys);
    assert (set k | k in xs) == (set k | k in ys);
  }

  /** A duplicate-free sequence has as many elements as its set. */
  lemma {:induction false} DistinctSetCard<K(!new)>(xs: seq<K>)
    requires Distinct(xs)
    ensures |set k | k in xs| == |xs|
  {
    if xs != [] {
      var rest := xs[1..];
      assert Distinct(rest);
      DistinctSetCard(rest);
      assert (set k | k in xs) == (set k | k in rest) + {xs[0]};
      assert xs[0] !in rest;
    }
  }

  /** The timestamp at position `i` of one listing is at least that at
      position `i` of another: the `i + 1` newest records of `ys` all lie at
      positions up to `i` in `xs`, or one of them lies later in `xs` and is
      no newer than `xs[i]`. */
  lemma SameRank<K(!new), V>(m: map<K, V>, keep: V -> bool, at: V -> int, xs: seq<K>, ys: seq<K>, i: nat)
    requires IsListing(m, keep, at, xs) && IsListing(m, keep, at, ys)
    requires i < |xs| && i < |ys|
    ensures at(m[xs[i]]) >= at(m[ys[i]])
  {
    // The first i + 1 keys of ys cannot all sit among the first i keys of xs.
    var front := set j | 0 <= j < i + 1 :: ys[j];
    var early := set j | 0 <= j < i :: xs[j];
    if forall j :: 0 <= j < i + 1 ==> ys[j] in early {
      assert front <= early;
      PrefixSetCard(ys, i + 1);
      assert |early| <= i by { SetOfRangeCard(xs, i); }
      SubsetCard(front, early);
      assert false;
    } else {
      var j :| 0 <= j < i + 1 && ys[j] !in early;
      assert ys[j] in xs;
      var p :| 0 <= p < |xs| && xs[p] == ys[j];
      assert p >= i;
      assert at(m[xs[i]]) >= at(m[xs[p]]);
      assert at(m[ys[j]]) >= at(m[ys[i]]);
    }
  }

  /** The first `n` keys of a duplicate-free sequence form a set of `n` keys. */
  lemma {:induction false} PrefixSetCard<K(!new)>(xs: seq<K>, n: nat)
    requires Distinct(xs) && n <= |xs|
    ensures |set j | 0 <= j < n :: xs[j]| == n
  {
    if n > 0 {
      PrefixSetCard(xs, n - 1);
      assert (set j | 0 <= j < n :: xs[j]) == (set j | 0 <= j < n - 1 :: xs[j]) + {xs[n - 1]};
      assert xs[n - 1] !in (set j | 0 <= j < n - 1 :: xs[j]);
    }
  }

  /** The first `n` keys of any sequence form a set of at most `n` keys. */
  lemma {:induction false} SetOfRangeCard<K(!new)>(xs: seq<K>, n: nat)
    requires n <= |xs|
    ensures |set j | 0 <= j < n :: xs[j]| <= n
  {
    if n > 0 {
      SetOfRangeCard(xs, n - 1);
      assert (set j | 0 <= j < n :: xs[j]) == (set j | 0 <= j < n - 1 :: xs[j]) + {xs[n - 1]};
    }
  }

  /** A subset is no larger than its superset. */
  lemma {:induction false} SubsetCard<K(!new)>(a: set<K>, b: set<K>)
    requires a <= b
    ensures |a| <= |b|
  {
    if a != {} {
      var x :| x in a;
      SubsetCard(a - {x}, b - {x});
    }
  }
}
