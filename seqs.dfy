/** `Array.prototype.filter` and the order-preservation it guarantees. */
module Seqs {

  /** `idx` picks the elements of `a` out of `b` at strictly increasing
      positions. */
  ghost predicate Embeds<T>(idx: seq<nat>, a: seq<T>, b: seq<T>) {
    |idx| == |a|
    && (forall k :: 0 <= k < |idx| ==> idx[k] < |b| && a[k] == b[idx[k]])
    && (forall k, l :: 0 <= k < l < |idx| ==> idx[k] < idx[l])
  }

  /** `a` is `b` with some elements dropped and the rest in their order. */
  ghost predicate IsSubsequence<T>(a: seq<T>, b: seq<T>) {
    exists idx :: Embeds(idx, a, b)
  }

  /** The elements of `s` that satisfy `p`, in their order in `s`. */
  function Filter<T>(s: seq<T>, p: T -> bool): (r: seq<T>)
    ensures |r| <= |s|
    ensures forall x :: x in r ==> p(x)
  {
    if s == [] then []
    else
      var last := s[|s| - 1];
      Filter(s[..|s| - 1], p) + (if p(last) then [last] else [])
  }

  /** Each element is kept as often as it occurs in `s` if it satisfies
      `p`, and dropped entirely otherwise. */
  lemma {:induction false} FilterCount<T>(s: seq<T>, p: T -> bool, x: T)
    ensures multiset(Filter(s, p))[x] == if p(x) then multiset(s)[x] else 0
  {
    if s != [] {
      var init, last := s[..|s| - 1], s[|s| - 1];
      assert s == init + [last];
      FilterCount(init, p, x);
    }
  }

  lemma FilterMembers<T>(s: seq<T>, p: T -> bool, x: T)
    ensures x in Filter(s, p) <==> x in s && p(x)
  {
    FilterCount(s, p, x);
    assert x in Filter(s, p) <==> multiset(Filter(s, p))[x] > 0;
    assert x in s <==> multiset(s)[x] > 0;
  }

  lemma {:induction false} FilterIsSubsequence<T>(s: seq<T>, p: T -> bool)
    ensures IsSubsequence(Filter(s, p), s)
  {
    if s == [] {
      assert Embeds([], Filter(s, p), s);
    } else {
      var init, last := s[..|s| - 1], s[|s| - 1];
      assert s == init + [last];
      FilterIsSubsequence(init, p);
      var idx: seq<nat> :| Embeds(idx, Filter(init, p), init);
      if p(last) {
        assert Filter(s, p) == Filter(init, p) + [last];
        EmbedsExtend(idx, Filter(init, p), init, last);
        assert Embeds(idx + [|init|], Filter(s, p), s);
      } else {
        assert Filter(s, p) == Filter(init, p);
        EmbedsInPrefix(idx, Filter(init, p), init, last);
        assert Embeds(idx, Filter(s, p), s);
      }
    }
  }

  lemma EmbedsInPrefix<T>(idx: seq<nat>, a: seq<T>, b: seq<T>, y: T)
    requires Embeds(idx, a, b)
    ensures Embeds(idx, a, b + [y])
  {
  }

  lemma EmbedsExtend<T>(idx: seq<nat>, a: seq<T>, b: seq<T>, y: T)
    requires Embeds(idx, a, b)
    ensures Embeds(idx + [|b|], a + [y], b + [y])
  {
    var idx', a', b' := idx + [|b|], a + [y], b + [y];
    forall k | 0 <= k < |idx'|
      ensures idx'[k] < |b'| && a'[k] == b'[idx'[k]]
    {
      if k < |idx| {
        assert idx'[k] == idx[k] && a'[k] == a[k];
      }
    }
    forall k, l | 0 <= k < l < |idx'|
      ensures idx'[k] < idx'[l]
    {
      assert idx'[k] == idx[k];
      if l < |idx| {
        assert idx'[l] == idx[l];
      }
    }
  }

  lemma {:induction false} FilterAppend<T>(s: seq<T>, x: T, p: T -> bool)
    ensures Filter(s + [x], p) == Filter(s, p) + (if p(x) then [x] else [])
  {
    assert (s + [x])[..|s + [x]| - 1] == s;
  }

  /** A member of a non-empty sequence is its last element or lies in the
      part before it. */
  lemma InFrontOrLast<T>(s: seq<T>, x: T)
    requires x in s
    ensures x == s[|s| - 1] || x in s[..|s| - 1]
  {
    assert s == s[..|s| - 1] + [s[|s| - 1]];
  }

  /** The prefix of length `i + 1` is the prefix of length `i` followed
      by element `i`. */
  lemma PrefixPush<T>(s: seq<T>, i: nat)
    requires i < |s|
    ensures s[..i] + [s[i]] == s[..i + 1]
  {
  }
}
