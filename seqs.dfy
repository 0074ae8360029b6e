/** `Array.prototype.filter` and `Array.from(new Set(xs))`, with the facts the
    list derivations of the core rest on: a filter keeps exactly the elements
    its predicate accepts, in their order, and filtering twice is filtering once. */
module Seqs {
  import opened Wrappers

  /** `s.filter(p)`. */
  function Filter<T(!new)>(p: T -> bool, s: seq<T>): (r: seq<T>)
    ensures |r| <= |s|
    ensures forall x :: x in r <==> x in s && p(x)
  {
    if s == [] then []
    else (if p(s[0]) then [s[0]] else []) + Filter(p, s[1..])
  }

  /** `a` is `b` with some elements left out, the rest in their order. */
  predicate IsSubsequence<T(==)>(a: seq<T>, b: seq<T>)
    decreases |b|
  {
    a == [] || (b != [] && ((a[0] == b[0] && IsSubsequence(a[1..], b[1..])) || IsSubsequence(a, b[1..])))
  }

  /** Filtering keeps the order of what it keeps. */
  lemma {:induction false} FilterIsSubsequence<T(!new)>(p: T -> bool, s: seq<T>)
    ensures IsSubsequence(Filter(p, s), s)
  {
    if s != [] {
      FilterIsSubsequence(p, s[1..]);
      var r := Filter(p, s);
      if p(s[0]) {
        assert r[0] == s[0] && r[1..] == Filter(p, s[1..]);
      } else {
        assert r == Filter(p, s[1..]);
      }
    }
  }

  /** Every sequence is a subsequence of itself. */
  lemma {:induction false} SubsequenceReflexive<T>(s: seq<T>)
    ensures IsSubsequence(s, s)
  {
    if s != [] {
      SubsequenceReflexive(s[1..]);
    }
  }

  /** Subsequence is transitive, so a chain of filters keeps the input order. */
  lemma {:induction false} SubsequenceTransitive<T>(a: seq<T>, b: seq<T>, c: seq<T>)
    requires IsSubsequence(a, b) && IsSubsequence(b, c)
    ensures IsSubsequence(a, c)
    decreases |c|
  {
    if a != [] {
      assert b != [] && c != [];
      if b[0] == c[0] && IsSubsequence(b[1..], c[1..]) {
        if a[0] == b[0] && IsSubsequence(a[1..], b[1..]) {
          SubsequenceTransitive(a[1..], b[1..], c[1..]);
        } else {
          SubsequenceTransitive(a, b[1..], c[1..]);
        }
      } else {
        SubsequenceTransitive(a, b, c[1..]);
      }
    }
  }

  /** A filter that every element passes changes nothing. */
  lemma {:induction false} FilterKeepsAll<T(!new)>(p: T -> bool, s: seq<T>)
    requires forall x :: x in s ==> p(x)
    ensures Filter(p, s) == s
  {
    if s != [] {
      FilterKeepsAll(p, s[1..]);
      assert s == [s[0]] + s[1..];
    }
  }

  /** Filtering by the same predicate twice is filtering once. */
  lemma FilterIdempotent<T(!new)>(p: T -> bool, s: seq<T>)
    ensures Filter(p, Filter(p, s)) == Filter(p, s)
  {
    FilterKeepsAll(p, Filter(p, s));
  }

  /** No element occurs twice. */
  predicate NoDuplicates<T(==)>(s: seq<T>) {
    forall i, j :: 0 <= i < j < |s| ==> s[i] != s[j]
  }

  /** The position of the first occurrence of `x` in `s`, `|s|` when none. */
  function FirstOccurrence<T(==)>(s: seq<T>, x: T): (k: nat)
    ensures k <= |s|
    ensures k < |s| <==> x in s
    ensures k < |s| ==> s[k] == x
    ensures forall i :: 0 <= i < k ==> s[i] != x
  {
    if s == [] then 0 else if s[0] == x then 0 else 1 + FirstOccurrence(s[1..], x)
  }

  /** Appending never moves an element's first occurrence. */
  lemma FirstOccurrenceAppend<T>(a: seq<T>, b: seq<T>, x: T)
    requires x in a
    ensures FirstOccurrence(a + b, x) == FirstOccurrence(a, x)
  {
    var k, k' := FirstOccurrence(a, x), FirstOccurrence(a + b, x);
    assert (a + b)[k] == x;
    assert forall i :: 0 <= i < k ==> (a + b)[i] == a[i];
  }

  /** `Array.from(new Set(s))`: the distinct elements of `s`, each at its first
      occurrence, so in the order in which they first appear. */
  function Distinct<T(==,!new)>(s: seq<T>): (r: seq<T>)
    ensures NoDuplicates(r)
    ensures forall x :: x in r <==> x in s
    ensures forall i, j :: 0 <= i < j < |r| ==> FirstOccurrence(s, r[i]) < FirstOccurrence(s, r[j])
  {
    if s == [] then []
    else
      var front, last := s[..|s| - 1], s[|s| - 1];
      var rest := Distinct(front);
      assert s == front + [last];
      DistinctStep(front, last, rest);
      if last in rest then rest else rest + [last]
  }

  /** The step of `Distinct`: an element of the front keeps its first
      occurrence, and a new last element comes after all of them. */
  lemma DistinctStep<T>(front: seq<T>, last: T, rest: seq<T>)
    requires forall x :: x in rest <==> x in front
    requires forall i, j :: 0 <= i < j < |rest| ==> FirstOccurrence(front, rest[i]) < FirstOccurrence(front, rest[j])
    ensures var s := front + [last];
            forall i :: 0 <= i < |rest| ==> FirstOccurrence(s, rest[i]) == FirstOccurrence(front, rest[i]) < |front|
    ensures last !in rest ==> FirstOccurrence(front + [last], last) == |front|
  {
    forall i | 0 <= i < |rest|
      ensures FirstOccurrence(front + [last], rest[i]) == FirstOccurrence(front, rest[i]) < |front|
    {
      FirstOccurrenceAppend(front, [last], rest[i]);
    }
    if last !in rest {
      var s := front + [last];
      assert s[|front|] == last;
      assert forall i :: 0 <= i < |front| ==> s[i] == front[i];
    }
  }

  /** Filtering a concatenation filters each part. */
  lemma {:induction false} FilterAppend<T(!new)>(p: T -> bool, a: seq<T>, b: seq<T>)
    ensures Filter(p, a + b) == Filter(p, a) + Filter(p, b)
  {
    if a != [] {
      FilterAppend(p, a[1..], b);
      assert (a + b)[1..] == a[1..] + b;
    } else {
      assert a + b == b;
    }
  }

  /** `s.findIndex(p)`, with `|s|` standing for -1: the first index whose element passes. */
  function FirstIndex<T>(p: T -> bool, s: seq<T>): (k: nat)
    ensures k <= |s|
    ensures k < |s| ==> p(s[k])
    ensures forall i :: 0 <= i < k ==> !p(s[i])
  {
    if s == [] || p(s[0]) then 0 else 1 + FirstIndex(p, s[1..])
  }

  /** The values of the present entries, in order. */
  function Somes<T>(opts: seq<Option<T>>): (r: seq<T>)
    ensures |r| <= |opts|
  {
    if opts == [] then []
    else
      var earlier := Somes(opts[..|opts| - 1]);
      match opts[|opts| - 1]
      case Some(x) => earlier + [x]
      case None => earlier
  }

  /** Where the present entries sit. */
  ghost function SomeIndices<T>(opts: seq<Option<T>>): seq<nat> {
    if opts == [] then []
    else
      var earlier := SomeIndices(opts[..|opts| - 1]);
      if opts[|opts| - 1].Some? then earlier + [|opts| - 1] else earlier
  }

  predicate StrictlyIncreasing(s: seq<nat>) {
    forall i, j :: 0 <= i < j < |s| ==> s[i] < s[j]
  }

  /** `Somes` keeps every present entry, once, in its original order. */
  lemma {:induction false} SomesIndexed<T>(opts: seq<Option<T>>)
    ensures var r, idx := Somes(opts), SomeIndices(opts);
            && |idx| == |r|
            && StrictlyIncreasing(idx)
            && (forall j :: 0 <= j < |idx| ==> idx[j] < |opts| && opts[idx[j]] == Some(r[j]))
            && (forall i :: 0 <= i < |opts| && opts[i].Some? ==> i in idx)
  {
    if opts != [] {
      var front := opts[..|opts| - 1];
      SomesIndexed(front);
      assert forall i :: 0 <= i < |front| ==> opts[i] == front[i];
    }
  }

  /** One more entry adds its value, if present. */
  lemma SomesStep<T>(opts: seq<Option<T>>, k: nat)
    requires k < |opts|
    ensures Somes(opts[..k + 1]) == Somes(opts[..k]) + (if opts[k].Some? then [opts[k].value] else [])
  {
    assert opts[..k + 1][..k] == opts[..k];
  }

  /** Nothing is present exactly when there are no values. */
  lemma SomesEmpty<T>(opts: seq<Option<T>>)
    ensures Somes(opts) == [] <==> forall i :: 0 <= i < |opts| ==> opts[i].None?
  {
    SomesIndexed(opts);
    var r, idx := Somes(opts), SomeIndices(opts);
    if r != [] {
      assert opts[idx[0]].Some?;
    }
  }
}
