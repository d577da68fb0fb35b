/** Order-preserving filtering of a sequence (`Array.prototype.filter`) and the
    facts about it that the list filters of the app rely on. */
module Seqs {

  /** The elements of `s` that satisfy `p`, in their original order. */
  function Keep<T>(s: seq<T>, p: T -> bool): (r: seq<T>)
    ensures |r| <= |s|
    ensures forall i :: 0 <= i < |r| ==> p(r[i])
  {
    if s == [] then []
    else if p(s[0]) then [s[0]] + Keep(s[1..], p)
    else Keep(s[1..], p)
  }

  /** `a` is obtained from `b` by deleting elements, without reordering. */
  ghost predicate IsSubsequence<T>(a: seq<T>, b: seq<T>)
    decreases |b|
  {
    a == [] ||
    (b != [] && ((a[0] == b[0] && IsSubsequence(a[1..], b[1..])) || IsSubsequence(a, b[1..])))
  }

  /** Filtering keeps every element it keeps as often as the input holds it,
      and drops every element that fails the predicate: nothing else is lost. */
  lemma {:induction false} KeepCount<T>(s: seq<T>, p: T -> bool, x: T)
    ensures multiset(Keep(s, p))[x] == if p(x) then multiset(s)[x] else 0
  {
    if s != [] {
      KeepCount(s[1..], p, x);
      assert s == [s[0]] + s[1..];
    }
  }

  /** Membership in the filtered sequence is membership in the input plus the predicate. */
  lemma KeepMember<T>(s: seq<T>, p: T -> bool, x: T)
    ensures x in Keep(s, p) <==> x in s && p(x)
  {
    KeepCount(s, p, x);
    assert x in Keep(s, p) <==> multiset(Keep(s, p))[x] > 0;
    assert x in s <==> multiset(s)[x] > 0;
  }

  /** Filtering never reorders. */
  lemma {:induction false} KeepIsSubsequence<T>(s: seq<T>, p: T -> bool)
    ensures IsSubsequence(Keep(s, p), s)
  {
    if s != [] {
      KeepIsSubsequence(s[1..], p);
      if p(s[0]) {
        assert Keep(s, p)[1..] == Keep(s[1..], p);
      }
    }
  }

  /** Filtering distributes over concatenation. */
  lemma {:induction false} KeepAppend<T>(a: seq<T>, b: seq<T>, p: T -> bool)
    ensures Keep(a + b, p) == Keep(a, p) + Keep(b, p)
  {
    if a == [] {
      assert a + b == b;
    } else {
      KeepAppend(a[1..], b, p);
      assert (a + b)[1..] == a[1..] + b;
    }
  }

  /** Exchanging two neighbours of which at most one passes the filter does
      not change what the filter keeps. */
  lemma KeepSwapNeighbours<T>(s: seq<T>, j: int, p: T -> bool)
    requires 0 < j < |s| && !(p(s[j - 1]) && p(s[j]))
    ensures Keep(s[j - 1 := s[j]][j := s[j - 1]], p) == Keep(s, p)
  {
    var t := s[j - 1 := s[j]][j := s[j - 1]];
    var before, after := s[..j - 1], s[j + 1..];
    assert s == before + [s[j - 1], s[j]] + after;
    assert t == before + [s[j], s[j - 1]] + after;
    KeepAppend(before + [s[j - 1], s[j]], after, p);
    KeepAppend(before, [s[j - 1], s[j]], p);
    KeepAppend(before + [s[j], s[j - 1]], after, p);
    KeepAppend(before, [s[j], s[j - 1]], p);
    assert Keep([s[j - 1], s[j]], p) == Keep([s[j], s[j - 1]], p);
  }
}
