/**
 * The k-th largest element of a vector, specified by what `torch.topk(v, k)`
 * returns at position k - 1 and not by how it is found: the element t of v
 * with fewer than k entries strictly above it and at least k entries at or
 * above it.  This is the k-th entry of v sorted in descending order
 * (DescendingSortPositionIsKth), it exists whenever 1 <= k <= |v|
 * (KthLargestExists) and it is unique (KthLargestUnique).
 */
module OrderStatistic {

  /** Number of entries of v that satisfy p. */
  function Count(v: seq<real>, p: real -> bool): (c: nat)
    ensures c <= |v|
  {
    if |v| == 0 then 0 else Count(v[..|v| - 1], p) + (if p(v[|v| - 1]) then 1 else 0)
  }

  function CountAtLeast(v: seq<real>, t: real): nat
  {
    Count(v, x => x >= t)
  }

  function CountAbove(v: seq<real>, t: real): nat
  {
    Count(v, x => x > t)
  }

  /** t is the k-th largest entry of v (k counted from 1). */
  predicate IsKthLargest(v: seq<real>, k: nat, t: real)
  {
    t in v && CountAbove(v, t) < k <= CountAtLeast(v, t)
  }

  predicate IsDescending(s: seq<real>)
  {
    forall i, j :: 0 <= i < j < |s| ==> s[i] >= s[j]
  }

  // ---------------------------------------------------------------------
  // Facts about Count

  lemma {:induction false} CountConcat(a: seq<real>, b: seq<real>, p: real -> bool)
    ensures Count(a + b, p) == Count(a, p) + Count(b, p)
    decreases |b|
  {
    if |b| == 0 {
      assert a + b == a;
    } else {
      var b' := b[..|b| - 1];
      assert (a + b)[..|a + b| - 1] == a + b';
      CountConcat(a, b', p);
    }
  }

  lemma {:induction false} CountAll(v: seq<real>, p: real -> bool)
    requires forall i :: 0 <= i < |v| ==> p(v[i])
    ensures Count(v, p) == |v|
    decreases |v|
  {
    if |v| > 0 {
      CountAll(v[..|v| - 1], p);
    }
  }

  lemma {:induction false} CountNone(v: seq<real>, p: real -> bool)
    requires forall i :: 0 <= i < |v| ==> !p(v[i])
    ensures Count(v, p) == 0
    decreases |v|
  {
    if |v| > 0 {
      CountNone(v[..|v| - 1], p);
    }
  }

  /** Some entry satisfies p exactly when the count is positive. */
  lemma {:induction false} CountPositive(v: seq<real>, p: real -> bool)
    ensures 0 < Count(v, p) <==> exists i :: 0 <= i < |v| && p(v[i])
    decreases |v|
  {
    if |v| > 0 {
      var v' := v[..|v| - 1];
      CountPositive(v', p);
      if exists i :: 0 <= i < |v'| && p(v'[i]) {
        var i :| 0 <= i < |v'| && p(v'[i]);
        assert v[i] == v'[i];
      }
      if exists i :: 0 <= i < |v| && p(v[i]) {
        var i :| 0 <= i < |v| && p(v[i]);
        if i < |v'| {
          assert v'[i] == v[i];
        }
      }
    }
  }

  /** A weaker filter counts no more entries; strictly fewer when it drops a witness. */
  lemma {:induction false} CountMono(v: seq<real>, p: real -> bool, q: real -> bool)
    requires forall i :: 0 <= i < |v| && p(v[i]) ==> q(v[i])
    ensures Count(v, p) <= Count(v, q)
    ensures (exists i :: 0 <= i < |v| && q(v[i]) && !p(v[i])) ==> Count(v, p) < Count(v, q)
    decreases |v|
  {
    if |v| > 0 {
      var v' := v[..|v| - 1];
      CountMono(v', p, q);
      if exists i :: 0 <= i < |v| && q(v[i]) && !p(v[i]) {
        var i :| 0 <= i < |v| && q(v[i]) && !p(v[i]);
        if i < |v'| {
          assert v'[i] == v[i];
        }
      }
    }
  }

  lemma {:induction false} CountSame(v: seq<real>, p: real -> bool, q: real -> bool)
    requires forall i :: 0 <= i < |v| ==> (p(v[i]) <==> q(v[i]))
    ensures Count(v, p) == Count(v, q)
  {
    CountMono(v, p, q);
    CountMono(v, q, p);
  }

  lemma {:induction false} CountSingleton(x: real, p: real -> bool)
    ensures Count([x], p) == if p(x) then 1 else 0
  {
    assert [x][..0] == [];
  }

  lemma {:induction false} CountInsert(pre: seq<real>, x: real, post: seq<real>, p: real -> bool)
    ensures Count(pre + [x] + post, p) == Count(pre + post, p) + (if p(x) then 1 else 0)
  {
    CountConcat(pre + [x], post, p);
    CountConcat(pre, [x], p);
    CountSingleton(x, p);
    CountConcat(pre, post, p);
  }

  /** Removing the entry at position i removes its contribution to the count. */
  lemma {:induction false} CountRemoveAt(b: seq<real>, i: nat, p: real -> bool)
    requires i < |b|
    ensures Count(b, p) == Count(b[..i] + b[i + 1..], p) + (if p(b[i]) then 1 else 0)
  {
    assert b == b[..i] + [b[i]] + b[i + 1..];
    CountInsert(b[..i], b[i], b[i + 1..], p);
  }

  /** Counts do not depend on the order of the entries. */
  lemma {:induction false} CountPermutation(a: seq<real>, b: seq<real>, p: real -> bool)
    requires multiset(a) == multiset(b)
    ensures Count(a, p) == Count(b, p)
    decreases |a|
  {
    assert |a| == |multiset(a)| == |multiset(b)| == |b|;
    if |a| > 0 {
      var x := a[|a| - 1];
      var a' := a[..|a| - 1];
      assert a == a' + [x];
      assert x in multiset(b);
      var i :| 0 <= i < |b| && b[i] == x;
      var b' := b[..i] + b[i + 1..];
      assert b == b[..i] + [x] + b[i + 1..];
      assert multiset(b') == multiset(b) - multiset{x};
      assert multiset(a') == multiset(a) - multiset{x};
      CountPermutation(a', b', p);
      CountRemoveAt(b, i, p);
    }
  }

  /** The smallest entry of v that satisfies p, if there is one. */
  lemma {:induction false} LeastWhere(v: seq<real>, p: real -> bool, w: nat) returns (m: real)
    requires w < |v| && p(v[w])
    ensures m in v && p(m)
    ensures forall i :: 0 <= i < |v| && p(v[i]) ==> m <= v[i]
    decreases |v|
  {
    var last := v[|v| - 1];
    if w == |v| - 1 && forall i :: 0 <= i < |v| - 1 ==> !p(v[i]) {
      m := last;
    } else {
      var v' := v[..|v| - 1];
      var w' := w;
      if w == |v| - 1 {
        w' :| 0 <= w' < |v'| && p(v[w']);
      }
      assert v'[w'] == v[w'];
      m := LeastWhere(v', p, w');
      assert forall i :: 0 <= i < |v'| ==> v'[i] == v[i];
      if p(last) && last < m {
        m := last;
      }
    }
  }

  // ---------------------------------------------------------------------
  // The k-th largest entry

  /** From any entry with at least k entries at or above it, move up to the k-th largest. */
  lemma {:induction false} ClimbToKthLargest(v: seq<real>, k: nat, c: real) returns (t: real)
    requires 1 <= k
    requires c in v && k <= CountAtLeast(v, c)
    ensures IsKthLargest(v, k, t)
    decreases CountAbove(v, c)
  {
    if CountAbove(v, c) < k {
      t := c;
    } else {
      CountPositive(v, x => x > c);
      var w :| 0 <= w < |v| && v[w] > c;
      var y := LeastWhere(v, x => x > c, w);
      // no entry lies strictly between c and y
      CountSame(v, x => x >= y, x => x > c);
      var iy :| 0 <= iy < |v| && v[iy] == y;
      CountMono(v, x => x > y, x => x > c);
      assert v[iy] > c && !(v[iy] > y);
      t := ClimbToKthLargest(v, k, y);
    }
  }

  lemma {:induction false} KthLargestExists(v: seq<real>, k: nat) returns (t: real)
    requires 1 <= k <= |v|
    ensures IsKthLargest(v, k, t)
  {
    var m := LeastWhere(v, x => true, 0);
    CountAll(v, x => x >= m);
    t := ClimbToKthLargest(v, k, m);
  }

  /** A k-th largest entry exists only for 1 <= k <= |v|: topk with any other k has no answer. */
  lemma {:induction false} KthLargestInRange(v: seq<real>, k: nat, t: real)
    requires IsKthLargest(v, k, t)
    ensures 1 <= k <= |v|
  {
  }

  lemma {:induction false} KthLargestUnique(v: seq<real>, k: nat, t1: real, t2: real)
    requires IsKthLargest(v, k, t1) && IsKthLargest(v, k, t2)
    ensures t1 == t2
  {
    if t1 < t2 {
      CountMono(v, x => x >= t2, x => x > t1);
      assert false;
    } else if t2 < t1 {
      CountMono(v, x => x >= t1, x => x > t2);
      assert false;
    }
  }

  /** With k = 1 the threshold is the largest entry. */
  lemma {:induction false} FirstLargestIsMaximum(v: seq<real>, i: nat, t: real)
    requires i < |v| && forall j :: 0 <= j < |v| ==> v[j] <= v[i]
    ensures IsKthLargest(v, 1, t) <==> t == v[i]
  {
    CountNone(v, x => x > v[i]);
    CountPositive(v, x => x >= v[i]);
    if IsKthLargest(v, 1, t) {
      KthLargestUnique(v, 1, t, v[i]);
    }
  }

  /** In a descending sequence, the first k entries are at or above entry k - 1. */
  lemma {:induction false} DescendingFrontAtLeast(s: seq<real>, k: nat)
    requires IsDescending(s) && 1 <= k <= |s|
    ensures CountAtLeast(s, s[k - 1]) >= k
  {
    var t := s[k - 1];
    var front, back := s[..k], s[k..];
    assert s == front + back;
    assert forall i :: 0 <= i < |front| ==> front[i] == s[i] >= t;
    CountConcat(front, back, x => x >= t);
    CountAll(front, x => x >= t);
  }

  /** If no entry from position m on exceeds t, at most m entries exceed t. */
  lemma {:induction false} NoneAboveFrom(s: seq<real>, m: nat, t: real)
    requires m <= |s| && forall i :: m <= i < |s| ==> s[i] <= t
    ensures CountAbove(s, t) <= m
  {
    var above, rest := s[..m], s[m..];
    assert s == above + rest;
    forall i | 0 <= i < |rest|
      ensures !(rest[i] > t)
    {
      assert rest[i] == s[m + i];
    }
    CountConcat(above, rest, x => x > t);
    CountNone(rest, x => x > t);
  }

  /** In a descending sequence, no entry from position k - 1 on is above entry k - 1. */
  lemma {:induction false} DescendingBackNotAbove(s: seq<real>, k: nat)
    requires IsDescending(s) && 1 <= k <= |s|
    ensures CountAbove(s, s[k - 1]) < k
  {
    NoneAboveFrom(s, k - 1, s[k - 1]);
  }

  /** The k-th largest entry is the entry at position k - 1 of any descending rearrangement of v. */
  lemma {:induction false} DescendingSortPositionIsKth(v: seq<real>, s: seq<real>, k: nat)
    requires |s| == |v| && multiset(s) == multiset(v) && IsDescending(s)
    requires 1 <= k <= |v|
    ensures IsKthLargest(v, k, s[k - 1])
  {
    var t := s[k - 1];
    assert t in multiset(v);
    CountPermutation(s, v, x => x >= t);
    CountPermutation(s, v, x => x > t);
    DescendingFrontAtLeast(s, k);
    DescendingBackNotAbove(s, k);
  }
}
