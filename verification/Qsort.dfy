/**
 * qsort of usr/src/cmd/sort.c: an in-place quicksort that splits a range
 * into smaller, equal and greater elements around its middle one, and
 * recurs only into the smaller side.
 */
module Qsort {

  /** compare on lines that are numbered: negative, zero or positive. */
  type Compare = (int, int) -> int

  function Cmp(cmp: Compare, x: int, y: int): int { cmp(x, y) }

  ghost predicate Preorder(cmp: Compare) {
    && (forall x, y :: Cmp(cmp, x, y) <= 0 <==> Cmp(cmp, y, x) >= 0)
    && (forall x, y, z :: Cmp(cmp, x, y) <= 0 && Cmp(cmp, y, z) <= 0 ==> Cmp(cmp, x, z) <= 0)
  }

  ghost predicate Sorted(cmp: Compare, s: seq<int>, lo: int, hi: int) {
    0 <= lo <= hi <= |s| && forall x, y :: lo <= x < y < hi ==> Cmp(cmp, s[x], s[y]) <= 0
  }

  // ---- rearrangement ----

  /** t is s with the elements of [lo, hi) rearranged. */
  ghost predicate Perm(s: seq<int>, t: seq<int>, lo: int, hi: int) {
    && |s| == |t| && 0 <= lo <= hi <= |s|
    && multiset(s[lo..hi]) == multiset(t[lo..hi])
    && forall k :: 0 <= k < |s| && !(lo <= k < hi) ==> s[k] == t[k]
  }

  lemma PermTrans(s: seq<int>, t: seq<int>, u: seq<int>, lo: int, hi: int)
    requires Perm(s, t, lo, hi) && Perm(t, u, lo, hi)
    ensures Perm(s, u, lo, hi)
  {
  }

  lemma PermSwap(s: seq<int>, lo: int, hi: int, i: int, j: int)
    requires 0 <= lo <= i < hi <= |s| && lo <= j < hi
    ensures Perm(s, s[i := s[j]][j := s[i]], lo, hi)
  {
    var t := s[i := s[j]][j := s[i]];
    var a, b := s[lo..hi], t[lo..hi];
    assert b == a[i - lo := a[j - lo]][j - lo := a[i - lo]];
  }

  /** Rearranging part of a range rearranges the range. */
  lemma PermWider(s: seq<int>, t: seq<int>, lo: int, lo': int, hi': int, hi: int)
    requires Perm(s, t, lo', hi') && 0 <= lo <= lo' && hi' <= hi <= |s|
    ensures Perm(s, t, lo, hi)
  {
    assert s[lo..hi] == s[lo..lo'] + s[lo'..hi'] + s[hi'..hi];
    assert t[lo..hi] == t[lo..lo'] + t[lo'..hi'] + t[hi'..hi];
    assert s[lo..lo'] == t[lo..lo'] && s[hi'..hi] == t[hi'..hi];
  }

  /** Every element of a rearranged range was in the range. */
  lemma PermFrom(s: seq<int>, t: seq<int>, lo: int, hi: int, k: int) returns (j: int)
    requires Perm(s, t, lo, hi) && lo <= k < hi
    ensures lo <= j < hi && s[j] == t[k]
  {
    assert t[lo..hi][k - lo] == t[k];
    assert t[k] in multiset(t[lo..hi]);
    assert t[k] in s[lo..hi];
    var i :| 0 <= i < hi - lo && s[lo..hi][i] == t[k];
    j := lo + i;
  }

  // ---- one split ----

  /** The loop of qsort: smaller than p up to i, equal from lp to hp, greater after j, and the rest unseen. */
  ghost predicate Splitting(cmp: Compare, s: seq<int>, p: int, lo: int, m: Marks, hi: int) {
    && 0 <= lo <= m.i <= m.lp <= m.hp <= m.j < hi <= |s|
    && (forall k :: lo <= k < m.i ==> Cmp(cmp, s[k], p) < 0)
    && (forall k :: m.lp <= k <= m.hp ==> Cmp(cmp, s[k], p) == 0)
    && (forall k :: m.j < k < hi ==> Cmp(cmp, s[k], p) > 0)
    && (!m.top && m.i < m.lp ==> Cmp(cmp, s[m.i], p) > 0)
  }

  /** Where the loop of qsort stands; top tells whether it is at its start or at the label loop. */
  datatype Marks = Marks(i: int, lp: int, hp: int, j: int, top: bool)

  ghost function Unseen(m: Marks): int { m.lp - m.i + m.j - m.hp }

  ghost predicate Parted(cmp: Compare, s: seq<int>, p: int, lo: int, lp: int, hp: int, hi: int) {
    Splitting(cmp, s, p, lo, Marks(lp, lp, hp, hp, false), hi)
  }

  function Swapped(s: seq<int>, i: int, j: int): seq<int>
    requires 0 <= i < |s| && 0 <= j < |s|
  {
    s[i := s[j]][j := s[i]]
  }

  /** qstexc: p gets what was at r, r what was at q, and q what was at p. */
  function Rotated(s: seq<int>, p: int, q: int, r: int): seq<int>
    requires 0 <= p < |s| && 0 <= q < |s| && 0 <= r < |s|
  {
    s[p := s[r]][r := s[q]][q := s[p]]
  }

  method Exchange(a: array<int>, i: int, j: int, ghost lo: int, ghost hi: int)
    requires 0 <= lo <= i < hi <= a.Length && lo <= j < hi
    modifies a
    ensures a[..] == Swapped(old(a[..]), i, j)
    ensures Perm(old(a[..]), a[..], lo, hi)
  {
    PermSwap(a[..], lo, hi, i, j);
    ghost var s := a[..];
    a[i], a[j] := a[j], a[i];
    assert a[..] == s[i := s[j]][j := s[i]];
  }

  method Rotate(a: array<int>, p: int, q: int, r: int, ghost lo: int, ghost hi: int)
    requires 0 <= lo <= p < hi <= a.Length && lo <= q < hi && lo <= r < hi && p != q && p != r
    modifies a
    ensures a[..] == Rotated(old(a[..]), p, q, r)
    ensures Perm(old(a[..]), a[..], lo, hi)
  {
    ghost var s := a[..];
    PermSwap(s, lo, hi, p, r);
    ghost var s1 := s[p := s[r]][r := s[p]];
    PermSwap(s1, lo, hi, r, q);
    ghost var s2 := s1[r := s1[q]][q := s1[r]];
    PermTrans(s, s1, s2, lo, hi);
    var t := a[p];
    a[p] := a[r];
    a[r] := a[q];
    a[q] := t;
    assert a[..] == s2;
  }

  /** Comparing with an equal of the pivot is comparing with the pivot. */
  lemma Judge(cmp: Compare, q: int, p: int, x: int)
    requires Preorder(cmp) && Cmp(cmp, q, p) == 0
    ensures Cmp(cmp, x, q) < 0 <==> Cmp(cmp, x, p) < 0
    ensures Cmp(cmp, x, q) == 0 <==> Cmp(cmp, x, p) == 0
    ensures Cmp(cmp, q, x) > 0 <==> Cmp(cmp, x, p) < 0
    ensures Cmp(cmp, q, x) == 0 <==> Cmp(cmp, x, p) == 0
  {
    hide Cmp;
    assert Cmp(cmp, p, q) == 0;
    assert Cmp(cmp, x, q) <= 0 <==> Cmp(cmp, q, x) >= 0;
    assert Cmp(cmp, x, q) >= 0 <==> Cmp(cmp, q, x) <= 0;
    assert Cmp(cmp, x, p) <= 0 <==> Cmp(cmp, p, x) >= 0;
    assert Cmp(cmp, x, p) >= 0 <==> Cmp(cmp, p, x) <= 0;
  }

  // What each turn of the loop does to the split.

  lemma TurnLeftEqual(cmp: Compare, s: seq<int>, p: int, lo: int, m: Marks, hi: int)
    requires Splitting(cmp, s, p, lo, m, hi) && m.top && m.i < m.lp && Cmp(cmp, s[m.i], p) == 0
    ensures Splitting(cmp, Swapped(s, m.i, m.lp - 1), p, lo, m.(lp := m.lp - 1), hi)
  {
    hide Cmp;
  }

  lemma TurnRightLess(cmp: Compare, s: seq<int>, p: int, lo: int, m: Marks, hi: int)
    requires Splitting(cmp, s, p, lo, m, hi) && m.i == m.lp && m.hp < m.j && Cmp(cmp, s[m.j], p) < 0
    ensures Splitting(cmp, Rotated(s, m.i, m.hp + 1, m.j), p, lo,
                      Marks(m.lp + 1, m.lp + 1, m.hp + 1, m.j, false), hi)
  {
    hide Cmp;
  }

  lemma TurnBoth(cmp: Compare, s: seq<int>, p: int, lo: int, m: Marks, hi: int)
    requires Splitting(cmp, s, p, lo, m, hi) && !m.top && m.i < m.lp && m.hp < m.j && Cmp(cmp, s[m.j], p) < 0
    ensures Splitting(cmp, Swapped(s, m.i, m.j), p, lo, Marks(m.i + 1, m.lp, m.hp, m.j - 1, true), hi)
  {
    hide Cmp;
  }

  lemma TurnRightEqual(cmp: Compare, s: seq<int>, p: int, lo: int, m: Marks, hi: int)
    requires Splitting(cmp, s, p, lo, m, hi) && m.hp < m.j && Cmp(cmp, s[m.j], p) == 0
    ensures Splitting(cmp, Swapped(s, m.hp + 1, m.j), p, lo, m.(hp := m.hp + 1), hi)
  {
    hide Cmp;
  }

  lemma TurnLeftGreater(cmp: Compare, s: seq<int>, p: int, lo: int, m: Marks, hi: int)
    requires Splitting(cmp, s, p, lo, m, hi) && !m.top && m.i < m.lp && m.hp == m.j
    ensures Splitting(cmp, Rotated(s, m.j, m.lp - 1, m.i), p, lo,
                      Marks(m.i, m.lp - 1, m.hp - 1, m.hp - 1, true), hi)
  {
    hide Cmp;
  }

  lemma SplitFacts(cmp: Compare, s: seq<int>, p: int, lo: int, m: Marks, hi: int)
    requires Splitting(cmp, s, p, lo, m, hi)
    ensures 0 <= lo <= m.i <= m.lp <= m.hp <= m.j < hi <= |s|
    ensures Cmp(cmp, s[m.lp], p) == 0 && Cmp(cmp, s[m.hp], p) == 0
  {
    hide Cmp;
  }

  /** The part of the loop that looks at the left side: true if it has moved something. */
  method TurnLeft(cmp: Compare, a: array<int>, ghost p: int, lo: int, m: Marks, hi: int) returns (moved: bool, m': Marks)
    requires Preorder(cmp) && hi <= a.Length && Splitting(cmp, a[..], p, lo, m, hi)
    modifies a
    ensures Splitting(cmp, a[..], p, lo, m', hi) && Perm(old(a[..]), a[..], lo, hi)
    ensures if moved then Unseen(m') < Unseen(m) else Unseen(m') == Unseen(m) && !m'.top
  {
    hide Cmp, Preorder, Perm, Splitting, Swapped, Rotated;
    ghost var s := a[..];
    SplitFacts(cmp, s, p, lo, m, hi);
    PermSelf(s, lo, hi);
    if m.top && m.i < m.lp {
      var c := Cmp(cmp, a[m.i], a[m.lp]);
      Judge(cmp, a[m.lp], p, a[m.i]);
      if c == 0 {
        TurnLeftEqual(cmp, s, p, lo, m, hi);
        Exchange(a, m.i, m.lp - 1, lo, hi);
        return true, m.(lp := m.lp - 1);
      }
      if c < 0 {
        StepLeft(cmp, s, p, lo, m, hi);
        return true, m.(i := m.i + 1);
      }
    }
    StayLeft(cmp, s, p, lo, m, hi);
    return false, m.(top := false);
  }

  lemma StepLeft(cmp: Compare, s: seq<int>, p: int, lo: int, m: Marks, hi: int)
    requires Splitting(cmp, s, p, lo, m, hi) && m.top && m.i < m.lp && Cmp(cmp, s[m.i], p) < 0
    ensures Splitting(cmp, s, p, lo, m.(i := m.i + 1), hi)
  {
    hide Cmp;
  }

  lemma StayLeft(cmp: Compare, s: seq<int>, p: int, lo: int, m: Marks, hi: int)
    requires Splitting(cmp, s, p, lo, m, hi) && (m.top && m.i < m.lp ==> Cmp(cmp, s[m.i], p) > 0)
    ensures Splitting(cmp, s, p, lo, m.(top := false), hi)
  {
    hide Cmp;
  }

  lemma StepRight(cmp: Compare, s: seq<int>, p: int, lo: int, m: Marks, hi: int)
    requires Splitting(cmp, s, p, lo, m, hi) && m.hp < m.j && Cmp(cmp, s[m.j], p) > 0
    ensures Splitting(cmp, s, p, lo, m.(j := m.j - 1), hi)
  {
    hide Cmp;
  }

  /** The part of the loop at the label loop, while the right side is not empty. */
  method TurnRight(cmp: Compare, a: array<int>, ghost p: int, lo: int, m: Marks, hi: int) returns (m': Marks)
    requires Preorder(cmp) && hi <= a.Length && Splitting(cmp, a[..], p, lo, m, hi) && !m.top && m.hp < m.j
    modifies a
    ensures Splitting(cmp, a[..], p, lo, m', hi) && Perm(old(a[..]), a[..], lo, hi) && Unseen(m') < Unseen(m)
  {
    hide Cmp, Preorder, Perm, Splitting, Swapped, Rotated;
    ghost var s := a[..];
    SplitFacts(cmp, s, p, lo, m, hi);
    PermSelf(s, lo, hi);
    var c := Cmp(cmp, a[m.hp], a[m.j]);
    Judge(cmp, a[m.hp], p, a[m.j]);
    if c == 0 {
      TurnRightEqual(cmp, s, p, lo, m, hi);
      Exchange(a, m.hp + 1, m.j, lo, hi);
      m' := m.(hp := m.hp + 1);
    } else if c < 0 {
      StepRight(cmp, s, p, lo, m, hi);
      m' := m.(j := m.j - 1);
    } else if m.i == m.lp {
      TurnRightLess(cmp, s, p, lo, m, hi);
      Rotate(a, m.i, m.hp + 1, m.j, lo, hi);
      m' := Marks(m.lp + 1, m.lp + 1, m.hp + 1, m.j, false);
    } else {
      TurnBoth(cmp, s, p, lo, m, hi);
      Exchange(a, m.i, m.j, lo, hi);
      m' := Marks(m.i + 1, m.lp, m.hp, m.j - 1, true);
    }
  }

  lemma PermSelf(s: seq<int>, lo: int, hi: int)
    requires 0 <= lo <= hi <= |s|
    ensures Perm(s, s, lo, hi)
  {
  }

  /** The loop of qsort around the middle of [lo, hi). */
  method Split(cmp: Compare, a: array<int>, lo: int, hi: int) returns (lp: int, hp: int, ghost p: int)
    requires Preorder(cmp) && 0 <= lo && lo + 1 < hi <= a.Length
    modifies a
    ensures Parted(cmp, a[..], p, lo, lp, hp, hi) && Perm(old(a[..]), a[..], lo, hi)
  {
    hide Cmp, Preorder, Perm, Splitting, Swapped, Rotated;
    var n := (hi - lo) / 2;
    var m := Marks(lo, lo + n, lo + n, hi - 1, true);
    p := a[lo + n];
    ghost var s0 := a[..];
    SplitStart(cmp, s0, lo, lo + n, hi);
    while true
      invariant Splitting(cmp, a[..], p, lo, m, hi) && Perm(s0, a[..], lo, hi) && Unseen(m) >= 0
      decreases Unseen(m)
    {
      ghost var s := a[..];
      var moved;
      moved, m := TurnLeft(cmp, a, p, lo, m, hi);
      PermTrans(s0, s, a[..], lo, hi);
      ghost var s1 := a[..];
      SplitFacts(cmp, s1, p, lo, m, hi);
      if !moved {
        if m.j > m.hp {
          m := TurnRight(cmp, a, p, lo, m, hi);
        } else if m.i == m.lp {
          return m.lp, m.hp, p;
        } else {
          TurnLeftGreater(cmp, s1, p, lo, m, hi);
          Rotate(a, m.j, m.lp - 1, m.i, lo, hi);
          m := Marks(m.i, m.lp - 1, m.hp - 1, m.hp - 1, true);
        }
        PermTrans(s0, s1, a[..], lo, hi);
        SplitFacts(cmp, a[..], p, lo, m, hi);
      }
    }
  }

  lemma SplitStart(cmp: Compare, s: seq<int>, lo: int, c: int, hi: int)
    requires Preorder(cmp) && 0 <= lo <= c < hi <= |s|
    ensures Splitting(cmp, s, s[c], lo, Marks(lo, c, c, hi - 1, true), hi) && Perm(s, s, lo, hi)
  {
    hide Cmp;
    assert Cmp(cmp, s[c], s[c]) <= 0 <==> Cmp(cmp, s[c], s[c]) >= 0;
  }

  // ---- the sort ----

  /** All pairs in [lo0, hi0) are in order but those within [lo, hi). */
  ghost predicate Settled(cmp: Compare, s: seq<int>, lo0: int, lo: int, hi: int, hi0: int) {
    && 0 <= lo0 <= lo <= hi <= hi0 <= |s|
    && forall x, y :: lo0 <= x < y < hi0 && !(lo <= x && y < hi) ==> Cmp(cmp, s[x], s[y]) <= 0
  }

  lemma SettledPerm(cmp: Compare, s: seq<int>, t: seq<int>, lo0: int, lo: int, hi: int, hi0: int)
    requires Settled(cmp, s, lo0, lo, hi, hi0) && Perm(s, t, lo, hi)
    ensures Settled(cmp, t, lo0, lo, hi, hi0)
  {
    forall x, y | lo0 <= x < y < hi0 && !(lo <= x && y < hi)
      ensures Cmp(cmp, t[x], t[y]) <= 0
    {
      var x' := x;
      var y' := y;
      if lo <= x < hi {
        x' := PermFrom(s, t, lo, hi, x);
      }
      if lo <= y < hi {
        y' := PermFrom(s, t, lo, hi, y);
      }
      assert Cmp(cmp, s[x'], s[y']) <= 0;
    }
  }

  /** Elements either side of the pivot are in order with it and with each other. */
  lemma PartedOrder(cmp: Compare, s: seq<int>, p: int, lo: int, lp: int, hp: int, hi: int, x: int, y: int)
    requires Preorder(cmp) && Parted(cmp, s, p, lo, lp, hp, hi) && lo <= x <= hp && lp <= y < hi && x < y
    ensures Cmp(cmp, s[x], s[y]) <= 0
  {
    hide Cmp;
    assert Cmp(cmp, s[x], p) <= 0;
    assert Cmp(cmp, s[y], p) >= 0;
    assert Cmp(cmp, p, s[y]) <= 0;
  }

  lemma PartedPerm(cmp: Compare, s: seq<int>, t: seq<int>, p: int, lo: int, lp: int, hp: int, hi: int)
    requires Parted(cmp, s, p, lo, lp, hp, hi) && (Perm(s, t, lo, lp) || Perm(s, t, hp + 1, hi))
    ensures Parted(cmp, t, p, lo, lp, hp, hi)
  {
    forall k | lo <= k < lp
      ensures Cmp(cmp, t[k], p) < 0
    {
      if Perm(s, t, lo, lp) {
        var j := PermFrom(s, t, lo, lp, k);
      }
    }
    forall k | hp < k < hi
      ensures Cmp(cmp, t[k], p) > 0
    {
      if !Perm(s, t, lo, lp) {
        var j := PermFrom(s, t, hp + 1, hi, k);
      }
    }
  }

  lemma SettleRight(cmp: Compare, s: seq<int>, p: int, lo0: int, lo: int, lp: int, hp: int, hi: int, hi0: int)
    requires Preorder(cmp) && Settled(cmp, s, lo0, lo, hi, hi0) && Parted(cmp, s, p, lo, lp, hp, hi)
    requires Sorted(cmp, s, hp + 1, hi)
    ensures Settled(cmp, s, lo0, lo, lp, hi0)
  {
    forall x, y | lo0 <= x < y < hi0 && !(lo <= x && y < lp)
      ensures Cmp(cmp, s[x], s[y]) <= 0
    {
      if lo <= x && y < hi && x <= hp {
        PartedOrder(cmp, s, p, lo, lp, hp, hi, x, y);
      }
    }
  }

  lemma SettleLeft(cmp: Compare, s: seq<int>, p: int, lo0: int, lo: int, lp: int, hp: int, hi: int, hi0: int)
    requires Preorder(cmp) && Settled(cmp, s, lo0, lo, hi, hi0) && Parted(cmp, s, p, lo, lp, hp, hi)
    requires Sorted(cmp, s, lo, lp)
    ensures Settled(cmp, s, lo0, hp + 1, hi, hi0)
  {
    forall x, y | lo0 <= x < y < hi0 && !(hp + 1 <= x && y < hi)
      ensures Cmp(cmp, s[x], s[y]) <= 0
    {
      if lo <= x && y < hi && y >= lp {
        PartedOrder(cmp, s, p, lo, lp, hp, hi, x, y);
      }
    }
  }

  ghost function Pow2(k: nat): nat { if k == 0 then 1 else 2 * Pow2(k - 1) }

  /**
   * qsort: a sorted rearrangement of [lo0, hi0). depth is how deep the
   * recursion went; it is at most the binary logarithm of the length.
   */
  method Sort(cmp: Compare, a: array<int>, lo0: int, hi0: int) returns (ghost depth: nat)
    requires Preorder(cmp) && 0 <= lo0 <= hi0 <= a.Length
    modifies a
    ensures Sorted(cmp, a[..], lo0, hi0) && Perm(old(a[..]), a[..], lo0, hi0)
    ensures depth == 0 || Pow2(depth) <= hi0 - lo0
    decreases hi0 - lo0
  {
    hide Cmp, Preorder, Perm, Parted, Settled, Sorted, Pow2;
    var lo, hi := lo0, hi0;
    ghost var s0 := a[..];
    PermSelf(s0, lo, hi);
    SettledStart(cmp, s0, lo, hi);
    depth := 0;
    while hi - lo > 1
      invariant lo0 <= lo <= hi <= hi0
      invariant Settled(cmp, a[..], lo0, lo, hi, hi0) && Perm(s0, a[..], lo0, hi0)
      invariant depth == 0 || Pow2(depth) <= hi0 - lo0
      decreases hi - lo
    {
      ghost var s1 := a[..];
      var lp, hp, p := Split(cmp, a, lo, hi);
      ghost var s2 := a[..];
      PartedFacts(cmp, s2, p, lo, lp, hp, hi);
      ghost var d;
      if lp - lo >= hi - hp {
        d := Sort(cmp, a, hp + 1, hi);
        Deeper(d, hi - hp - 1, hi0 - lo0);
        RightDone(cmp, s1, s2, a[..], p, lo0, lo, lp, hp, hi, hi0);
        hi := lp;
      } else {
        d := Sort(cmp, a, lo, lp);
        Deeper(d, lp - lo, hi0 - lo0);
        LeftDone(cmp, s1, s2, a[..], p, lo0, lo, lp, hp, hi, hi0);
        lo := hp + 1;
      }
      PermTrans(s0, s1, a[..], lo0, hi0);
      depth := if d + 1 > depth then d + 1 else depth;
    }
    SettledDone(cmp, a[..], lo0, lo, hi, hi0);
  }

  /** A split of what is not settled, and a sort of its right side. */
  lemma RightDone(cmp: Compare, s1: seq<int>, s2: seq<int>, s3: seq<int>, p: int,
                  lo0: int, lo: int, lp: int, hp: int, hi: int, hi0: int)
    requires Preorder(cmp) && Settled(cmp, s1, lo0, lo, hi, hi0) && Perm(s1, s2, lo, hi) && 0 <= lo0 && hi0 <= |s1|
    requires Parted(cmp, s2, p, lo, lp, hp, hi) && Perm(s2, s3, hp + 1, hi) && Sorted(cmp, s3, hp + 1, hi)
    ensures Settled(cmp, s3, lo0, lo, lp, hi0) && Perm(s1, s3, lo0, hi0)
  {
    hide Cmp, Preorder, Sorted;
    SettledPerm(cmp, s1, s2, lo0, lo, hi, hi0);
    After(cmp, s2, s3, p, lo0, lo, lp, hp, hi, hi0);
    SettleRight(cmp, s3, p, lo0, lo, lp, hp, hi, hi0);
    PermWider(s1, s2, lo0, lo, hi, hi0);
    PermWider(s2, s3, lo0, hp + 1, hi, hi0);
    PermTrans(s1, s2, s3, lo0, hi0);
  }

  /** A split of what is not settled, and a sort of its left side. */
  lemma LeftDone(cmp: Compare, s1: seq<int>, s2: seq<int>, s3: seq<int>, p: int,
                 lo0: int, lo: int, lp: int, hp: int, hi: int, hi0: int)
    requires Preorder(cmp) && Settled(cmp, s1, lo0, lo, hi, hi0) && Perm(s1, s2, lo, hi) && 0 <= lo0 && hi0 <= |s1|
    requires Parted(cmp, s2, p, lo, lp, hp, hi) && Perm(s2, s3, lo, lp) && Sorted(cmp, s3, lo, lp)
    ensures Settled(cmp, s3, lo0, hp + 1, hi, hi0) && Perm(s1, s3, lo0, hi0)
  {
    hide Cmp, Preorder, Sorted;
    SettledPerm(cmp, s1, s2, lo0, lo, hi, hi0);
    After(cmp, s2, s3, p, lo0, lo, lp, hp, hi, hi0);
    SettleLeft(cmp, s3, p, lo0, lo, lp, hp, hi, hi0);
    PermWider(s1, s2, lo0, lo, hi, hi0);
    PermWider(s2, s3, lo0, lo, lp, hi0);
    PermTrans(s1, s2, s3, lo0, hi0);
  }

  /** The split and what is settled outlast the sort of one side. */
  lemma After(cmp: Compare, s: seq<int>, t: seq<int>, p: int, lo0: int, lo: int, lp: int, hp: int, hi: int, hi0: int)
    requires Parted(cmp, s, p, lo, lp, hp, hi) && Settled(cmp, s, lo0, lo, hi, hi0)
    requires Perm(s, t, lo, lp) || Perm(s, t, hp + 1, hi)
    ensures Parted(cmp, t, p, lo, lp, hp, hi) && Settled(cmp, t, lo0, lo, hi, hi0)
  {
    hide Perm, Settled;
    PartedPerm(cmp, s, t, p, lo, lp, hp, hi);
    if Perm(s, t, lo, lp) {
      PermWider(s, t, lo, lo, lp, hi);
    } else {
      PermWider(s, t, lo, hp + 1, hi, hi);
    }
    SettledPerm(cmp, s, t, lo0, lo, hi, hi0);
  }

  lemma PartedFacts(cmp: Compare, s: seq<int>, p: int, lo: int, lp: int, hp: int, hi: int)
    requires Parted(cmp, s, p, lo, lp, hp, hi)
    ensures 0 <= lo <= lp <= hp < hi <= |s|
  {
  }

  /** The side taken is less than half. */
  lemma Deeper(d: nat, n: int, whole: int)
    requires (d == 0 || Pow2(d) <= n) && 0 <= 2 * n < whole && whole >= 2
    ensures Pow2(d + 1) <= whole
  {
  }

  lemma SettledStart(cmp: Compare, s: seq<int>, lo: int, hi: int)
    requires 0 <= lo <= hi <= |s|
    ensures Settled(cmp, s, lo, lo, hi, hi)
  {
  }

  lemma SettledDone(cmp: Compare, s: seq<int>, lo0: int, lo: int, hi: int, hi0: int)
    requires Settled(cmp, s, lo0, lo, hi, hi0) && hi - lo <= 1
    ensures Sorted(cmp, s, lo0, hi0)
  {
  }
}
