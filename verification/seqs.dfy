/**
 * Sequence operations the scripts get from pandas: boolean-mask row selection
 * (`frame[mask]`) and `drop_duplicates`, which keeps the first occurrence.
 */
module Seqs {

  /** No element occurs twice. */
  predicate NoDuplicates<T(==,!new)>(s: seq<T>) {
    forall i, j :: 0 <= i < j < |s| ==> s[i] != s[j]
  }

  /** `a` is obtained from `b` by deleting elements, keeping the order of the rest. */
  predicate IsSubsequence<T(==,!new)>(a: seq<T>, b: seq<T>)
    decreases |b|
  {
    if |a| == 0 then true
    else if |b| == 0 then false
    else (a[0] == b[0] && IsSubsequence(a[1..], b[1..])) || IsSubsequence(a, b[1..])
  }

  /** Selecting rows with a boolean mask: the rows that pass, in their original order. */
  function Filter<T(==,!new)>(s: seq<T>, keep: T -> bool): (r: seq<T>)
    ensures forall x :: x in r <==> x in s && keep(x)
    decreases |s|
  {
    if |s| == 0 then []
    else
      var rest := Filter(s[1..], keep);
      assert s == [s[0]] + s[1..];
      if keep(s[0]) then [s[0]] + rest else rest
  }

  /** A selection keeps every passing row as often as it occurs, and no other row. */
  lemma {:induction false} FilterCounts<T(!new)>(s: seq<T>, keep: T -> bool)
    ensures forall x :: multiset(Filter(s, keep))[x] == if keep(x) then multiset(s)[x] else 0
    decreases |s|
  {
    if |s| > 0 {
      FilterCounts(s[1..], keep);
      assert s == [s[0]] + s[1..];
    }
  }

  /** How many elements of `s` pass `keep`, counted with multiplicity. */
  function Count<T>(s: seq<T>, keep: T -> bool): (c: nat)
    ensures c <= |s|
    decreases |s|
  {
    if |s| == 0 then 0 else (if keep(s[0]) then 1 else 0) + Count(s[1..], keep)
  }

  /** A selection has one row per passing input row. */
  lemma {:induction false} FilterLength<T(!new)>(s: seq<T>, keep: T -> bool)
    ensures |Filter(s, keep)| == Count(s, keep)
    decreases |s|
  {
    if |s| > 0 {
      FilterLength(s[1..], keep);
    }
  }

  /** A selection keeps the order of the rows it keeps. */
  lemma {:induction false} FilterIsSubsequence<T(!new)>(s: seq<T>, keep: T -> bool)
    ensures IsSubsequence(Filter(s, keep), s)
    decreases |s|
  {
    if |s| > 0 {
      FilterIsSubsequence(s[1..], keep);
    }
  }

  /** The position of the first occurrence of `x` in `s`. */
  function IndexOf<T(==,!new)>(s: seq<T>, x: T): (i: nat)
    requires x in s
    ensures i < |s| && s[i] == x && x !in s[..i]
    decreases |s|
  {
    if s[0] == x then 0
    else
      var k := IndexOf(s[1..], x);
      assert s[..k + 1] == [s[0]] + s[1..][..k];
      k + 1
  }

  /** Removing duplicates, keeping the first occurrence and skipping the elements of `seen`. */
  function DedupFrom<T(==,!new)>(s: seq<T>, seen: set<T>): (r: seq<T>)
    ensures NoDuplicates(r)
    ensures forall x :: x in r <==> x in s && x !in seen
    ensures IsSubsequence(r, s)
    decreases |s|
  {
    if |s| == 0 then []
    else
      assert forall x :: x in s <==> x == s[0] || x in s[1..];
      if s[0] in seen then DedupFrom(s[1..], seen)
      else [s[0]] + DedupFrom(s[1..], seen + {s[0]})
  }

  /** `drop_duplicates`: every distinct element once, at the place it first occurs. */
  function Dedup<T(==,!new)>(s: seq<T>): (r: seq<T>)
    ensures NoDuplicates(r)
    ensures forall x :: x in r <==> x in s
    ensures IsSubsequence(r, s)
  {
    DedupFrom(s, {})
  }

  /** Past a different head, the first occurrence moves one place along. */
  lemma IndexOfTail<T(!new)>(s: seq<T>, x: T)
    requires |s| > 0 && x != s[0] && x in s[1..]
    ensures IndexOf(s, x) == IndexOf(s[1..], x) + 1
  {
  }

  /** The kept elements appear in the order of their first occurrences. */
  lemma {:induction false} DedupFromOrder<T(!new)>(s: seq<T>, seen: set<T>, r: seq<T>)
    requires r == DedupFrom(s, seen)
    ensures forall i, j :: 0 <= i < j < |r| ==> IndexOf(s, r[i]) < IndexOf(s, r[j])
    decreases |s|
  {
    if |s| > 0 {
      var seen' := if s[0] in seen then seen else seen + {s[0]};
      var rest := DedupFrom(s[1..], seen');
      DedupFromOrder(s[1..], seen', rest);
      if s[0] in seen {
        assert r == rest;
        forall i, j | 0 <= i < j < |r|
          ensures IndexOf(s, r[i]) < IndexOf(s, r[j])
        {
          assert r[i] in rest && r[j] in rest;
          IndexOfTail(s, r[i]);
          IndexOfTail(s, r[j]);
        }
      } else {
        assert r == [s[0]] + rest;
        forall i, j | 0 <= i < j < |r|
          ensures IndexOf(s, r[i]) < IndexOf(s, r[j])
        {
          assert r[j] == rest[j - 1] && r[j] in rest;
          IndexOfTail(s, r[j]);
          if i > 0 {
            assert r[i] == rest[i - 1] && r[i] in rest;
            IndexOfTail(s, r[i]);
          }
        }
      }
    }
  }

  /** Deduplication keeps, for every distinct element, its first occurrence, in order. */
  lemma DedupKeepsFirstOccurrences<T(!new)>(s: seq<T>)
    ensures var r := Dedup(s);
            forall i, j :: 0 <= i < j < |r| ==> IndexOf(s, r[i]) < IndexOf(s, r[j])
  {
    assert Dedup(s) == DedupFrom(s, {});
    DedupFromOrder(s, {}, Dedup(s));
  }

  /** An element of a duplicate-free sequence is counted at most once. */
  lemma {:induction false} NoDuplicatesCountsOnce<T(!new)>(s: seq<T>, x: T)
    requires NoDuplicates(s)
    ensures multiset(s)[x] <= 1
    decreases |s|
  {
    if |s| > 0 {
      assert s == [s[0]] + s[1..];
      assert NoDuplicates(s[1..]);
      NoDuplicatesCountsOnce(s[1..], x);
      if x == s[0] {
        assert x !in s[1..];
      }
    }
  }

  /** A selection from a duplicate-free sequence is duplicate-free. */
  lemma FilterKeepsNoDuplicates<T(!new)>(s: seq<T>, keep: T -> bool, x: T)
    requires NoDuplicates(s)
    ensures multiset(Filter(s, keep))[x] <= 1
  {
    NoDuplicatesCountsOnce(s, x);
    FilterCounts(s, keep);
  }

  /** The blocks `f(x)` of the elements of `xs`, laid end to end in order. */
  function Flatten<A, T>(xs: seq<A>, f: A -> seq<T>): seq<T>
    decreases |xs|
  {
    if |xs| == 0 then [] else f(xs[0]) + Flatten(xs[1..], f)
  }

  /** Flattening distributes over concatenation. */
  lemma {:induction false} FlattenAppend<A, T>(a: seq<A>, b: seq<A>, f: A -> seq<T>)
    ensures Flatten(a + b, f) == Flatten(a, f) + Flatten(b, f)
    decreases |a|
  {
    if |a| == 0 {
      assert a + b == b;
    } else {
      assert (a + b)[0] == a[0] && (a + b)[1..] == a[1..] + b;
      FlattenAppend(a[1..], b, f);
    }
  }

  /** Flattening a sequence with a first element starts with that element's block. */
  lemma FlattenCons<A, T>(x: A, rest: seq<A>, f: A -> seq<T>)
    ensures Flatten([x] + rest, f) == f(x) + Flatten(rest, f)
  {
    assert ([x] + rest)[1..] == rest;
  }

  /** An element's block sits between the blocks of the elements around it. */
  lemma FlattenMiddle<A, T>(before: seq<A>, x: A, after: seq<A>, f: A -> seq<T>)
    ensures Flatten(before + [x] + after, f) == Flatten(before, f) + f(x) + Flatten(after, f)
  {
    assert before + [x] + after == before + ([x] + after);
    FlattenAppend(before, [x] + after, f);
    FlattenCons(x, after, f);
    var p, q, r := Flatten(before, f), f(x), Flatten(after, f);
    assert p + (q + r) == p + q + r;
  }

  /** The block of element k sits between the blocks of the elements before and after it. */
  lemma FlattenSplit<A, T>(xs: seq<A>, f: A -> seq<T>, k: nat)
    requires k < |xs|
    ensures Flatten(xs, f) == Flatten(xs[..k], f) + f(xs[k]) + Flatten(xs[k + 1..], f)
  {
    assert xs == xs[..k] + [xs[k]] + xs[k + 1..];
    FlattenMiddle(xs[..k], xs[k], xs[k + 1..], f);
  }

  /** Every sequence is a subsequence of itself. */
  lemma {:induction false} SubsequenceOfItself<T(!new)>(s: seq<T>)
    ensures IsSubsequence(s, s)
    decreases |s|
  {
    if |s| > 0 {
      SubsequenceOfItself(s[1..]);
    }
  }

  /** Putting elements in front of the larger sequence keeps a subsequence one. */
  lemma {:induction false} SubsequenceUnderPrefix<T(!new)>(a: seq<T>, b: seq<T>, c: seq<T>)
    requires IsSubsequence(a, b)
    ensures IsSubsequence(a, c + b)
    decreases |c|
  {
    if |c| > 0 {
      assert (c + b)[1..] == c[1..] + b;
      SubsequenceUnderPrefix(a, b, c[1..]);
    } else {
      assert c + b == b;
    }
  }
}
