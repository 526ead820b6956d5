/**
 * Facts about sequences that hold for any element type, stated once so
 * that proofs about statements, events and queries can use them without
 * unfolding what those elements are.
 */
module Sequences {

  lemma AppendAssoc<T>(a: seq<T>, b: seq<T>, c: seq<T>)
    ensures (a + b) + c == a + (b + c)
  {
  }

  lemma PrefixOfAppend<T>(a: seq<T>, b: seq<T>)
    ensures a <= a + b
  {
    assert (a + b)[..|a|] == a;
  }

  lemma PrefixTrans<T>(a: seq<T>, b: seq<T>, c: seq<T>)
    requires a <= b && b <= c
    ensures a <= c
  {
  }

  lemma TakeOneMore<T>(s: seq<T>, k: nat)
    requires k < |s|
    ensures s[..k] + [s[k]] <= s
  {
    assert s[..k] + [s[k]] == s[..k + 1];
  }

  /** A text built piece by piece is the same text grouped the way a parser reads it. */
  lemma Regroup<T>(a: seq<T>, b: seq<T>, c: seq<T>, d: seq<T>, e: seq<T>, f: seq<T>, g: seq<T>)
    ensures a + b + c + d + e + f + g == a + ((b + c) + ((d + e) + (f + g)))
  {
  }

  /** The keys f gives the elements of s strictly increase along s. */
  predicate Ascending<T>(s: seq<T>, f: T -> nat) {
    forall i, j | 0 <= i < j < |s| :: f(s[i]) < f(s[j])
  }

  /** Every element's key lies in [lo, hi). */
  predicate Bounded<T>(s: seq<T>, f: T -> nat, lo: int, hi: int) {
    forall i | 0 <= i < |s| :: lo <= f(s[i]) < hi
  }

  /** Two ascending runs, the second wholly above the first, make one ascending run. */
  lemma AscendingConcat<T>(a: seq<T>, b: seq<T>, f: T -> nat, lo: int, mid: int, hi: int)
    requires lo <= mid <= hi
    requires Ascending(a, f) && Ascending(b, f) && Bounded(a, f, lo, mid) && Bounded(b, f, mid, hi)
    ensures Ascending(a + b, f) && Bounded(a + b, f, lo, hi)
  {
    var s := a + b;
    forall i | 0 <= i < |s| ensures lo <= f(s[i]) < hi {
      if i < |a| {
        assert s[i] == a[i];
      } else {
        assert s[i] == b[i - |a|];
      }
    }
    forall i, j | 0 <= i < j < |s| ensures f(s[i]) < f(s[j]) {
      if j < |a| {
        assert s[i] == a[i] && s[j] == a[j];
      } else if |a| <= i {
        assert s[i] == b[i - |a|] && s[j] == b[j - |a|];
      } else {
        assert s[i] == a[i] && s[j] == b[j - |a|];
      }
    }
  }

  /** No element occurs twice. */
  predicate Distinct<T(==)>(s: seq<T>) {
    forall i, j | 0 <= i < j < |s| :: s[i] != s[j]
  }

  lemma TakeAll<T>(s: seq<T>)
    ensures s[..|s|] == s
  {
  }

  /** The elements at positions below n are those below n - 1 and the one at n - 1. */
  lemma ImageSnoc<T>(s: seq<T>, n: nat)
    requires 0 < n <= |s|
    ensures (set i | 0 <= i < n :: s[i]) == (set i | 0 <= i < n - 1 :: s[i]) + {s[n - 1]}
  {
  }
}
