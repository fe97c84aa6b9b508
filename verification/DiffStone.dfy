/**
 * The search for a longest common subsequence in usr/src/cmd/diff.c:
 * stone, search and newcand, over k-candidates.
 *
 * cls[i - 1] lists, in increasing order, the lines of file 1 that have the
 * value of line i of file 0. `inf` is any number above all of them.
 */
module DiffStone {
  import opened DiffSpec

  /** struct cand: line x mated with line y after the candidate at index pred. */
  datatype Cand = Cand(x: int, y: int, pred: int)

  ghost predicate Ascending(ys: seq<int>, inf: int) {
    && (forall i, j :: 0 <= i < j < |ys| ==> ys[i] < ys[j])
    && (forall i :: 0 <= i < |ys| ==> 1 <= ys[i] < inf)
  }

  ghost predicate AllAscending(cls: seq<seq<int>>, inf: int) {
    inf > 0 && forall i :: 0 <= i < |cls| ==> Ascending(cls[i], inf)
  }

  /** ps is a common subsequence that uses only the first i lines of file 0. */
  ghost predicate Sub(cls: seq<seq<int>>, i: int, ps: seq<Pair>) {
    && Increasing(ps)
    && forall k :: 0 <= k < |ps| ==> 1 <= ps[k].x <= i && ps[k].x <= |cls| && ps[k].y in cls[ps[k].x - 1]
  }

  ghost function Min(a: int, b: int): int { if a <= b then a else b }

  /** The first of the increasing numbers ys above x, or inf. */
  ghost function Least(ys: seq<int>, x: int, inf: int): int {
    if ys == [] then inf else
    var k := |ys| - 1;
    var p := Least(ys[..k], x, inf);
    if p < inf then p else if ys[k] > x then ys[k] else inf
  }

  /** The least line of file 1 at which a common subsequence of r lines within the first i lines of file 0 can end, or inf. */
  ghost function Best(cls: seq<seq<int>>, inf: int, i: nat, r: nat): int
    requires i <= |cls|
  {
    if r == 0 then 0
    else if i == 0 then inf
    else Min(Best(cls, inf, i - 1, r), Least(cls[i - 1], Best(cls, inf, i - 1, r - 1), inf))
  }

  // ---- Least ----

  lemma {:induction false} LeastRange(ys: seq<int>, x: int, inf: int)
    requires Ascending(ys, inf)
    ensures Least(ys, x, inf) == inf || (Least(ys, x, inf) in ys && x < Least(ys, x, inf) < inf)
  {
    if ys != [] {
      LeastRange(ys[..|ys| - 1], x, inf);
    }
  }

  lemma {:induction false} LeastBound(ys: seq<int>, x: int, inf: int, k: int)
    requires Ascending(ys, inf) && 0 <= k < |ys| && ys[k] > x
    ensures Least(ys, x, inf) <= ys[k]
  {
    var n := |ys| - 1;
    LeastRange(ys[..n], x, inf);
    if k < n {
      LeastBound(ys[..n], x, inf, k);
    }
  }

  lemma LeastAppend(ps: seq<int>, y: int, x: int, inf: int)
    ensures Least(ps + [y], x, inf) ==
            (var p := Least(ps, x, inf); if p < inf then p else if y > x then y else inf)
  {
    assert (ps + [y])[..|ps|] == ps;
  }

  lemma {:induction false} LeastPrefix(ys: seq<int>, k: int, x: int, inf: int)
    requires 0 <= k <= |ys| && Least(ys[..k], x, inf) < inf
    ensures Least(ys, x, inf) == Least(ys[..k], x, inf)
    decreases |ys|
  {
    if k == |ys| {
      assert ys[..k] == ys;
    } else {
      var zs := ys[..|ys| - 1];
      assert zs[..k] == ys[..k];
      LeastPrefix(zs, k, x, inf);
    }
  }

  // ---- Best is a lower bound on every common subsequence ----

  lemma {:induction false} BestIsLeast(cls: seq<seq<int>>, inf: int, i: nat, qs: seq<Pair>)
    requires AllAscending(cls, inf) && i <= |cls| && Sub(cls, i, qs) && qs != []
    ensures Best(cls, inf, i, |qs|) <= qs[|qs| - 1].y < inf
    decreases i
  {
    var r := |qs| - 1;
    var last := qs[r];
    if last.x < i {
      assert Sub(cls, i - 1, qs);
      BestIsLeast(cls, inf, i - 1, qs);
    } else {
      var ps := qs[..r];
      assert Sub(cls, i - 1, ps);
      if r > 0 {
        BestIsLeast(cls, inf, i - 1, ps);
        assert ps[r - 1].y < last.y;
      }
      var k :| 0 <= k < |cls[i - 1]| && cls[i - 1][k] == last.y;
      assert Best(cls, inf, i - 1, r) < last.y;
      LeastBound(cls[i - 1], Best(cls, inf, i - 1, r), inf, k);
    }
  }

  /** Once no common subsequence of r lines exists, none of r + 1 lines does. */
  lemma {:induction false} BestInf(cls: seq<seq<int>>, inf: int, i: nat, r: nat)
    requires AllAscending(cls, inf) && i <= |cls|
    ensures r > 0 ==> 0 < Best(cls, inf, i, r) <= inf
    ensures Best(cls, inf, i, r) == inf ==> Best(cls, inf, i, r + 1) == inf
    decreases i, r
  {
    if i > 0 && r > 0 {
      BestInf(cls, inf, i - 1, r);
      BestInf(cls, inf, i - 1, r - 1);
      LeastRange(cls[i - 1], Best(cls, inf, i - 1, r - 1), inf);
      LeastRange(cls[i - 1], Best(cls, inf, i - 1, r), inf);
    }
  }

  // ---- one line of file 0 against the candidates, as a function ----

  ghost predicate Rising(o: seq<int>, inf: int) {
    && o != [] && o[0] == 0
    && (forall i, j :: 0 <= i < j < |o| ==> o[i] < o[j])
    && (forall i :: 0 <= i < |o| ==> 0 <= o[i] < inf)
  }

  /** Where the candidate of length r ends after the mates ps of a line were tried against ends o. */
  ghost function After(o: seq<int>, ps: seq<int>, r: int, inf: int): int
    requires 0 <= r < |o|
  {
    if r == 0 then 0 else Min(o[r], Least(ps, o[r - 1], inf))
  }

  lemma AfterRising(o: seq<int>, ps: seq<int>, i: int, j: int, inf: int)
    requires Rising(o, inf) && Ascending(ps, inf) && 0 <= i < j < |o|
    ensures 0 <= After(o, ps, i, inf) <= o[i] < After(o, ps, j, inf) < inf
  {
    LeastRange(ps, o[j - 1], inf);
    if i > 0 {
      LeastRange(ps, o[i - 1], inf);
    }
    assert o[i] <= o[j - 1] < o[j];
  }

  /** A mate at or below the old end of the last candidate replaced changes nothing. */
  lemma AfterSkip(o: seq<int>, ps: seq<int>, y: int, oldl: int, r: int, inf: int)
    requires Rising(o, inf) && Ascending(ps + [y], inf)
    requires 0 <= oldl < |o| && 0 <= r < |o|
    requires After(o, ps, oldl, inf) < y <= o[oldl]
    ensures After(o, ps + [y], r, inf) == After(o, ps, r, inf)
  {
    assert ps == (ps + [y])[..|ps|];
    assert Ascending(ps, inf);
    if r > 0 {
      LeastAppend(ps, y, o[r - 1], inf);
      if r < oldl {
        AfterRising(o, ps, r, oldl, inf);
      }
    }
  }

  /** A mate between the ends l - 1 and l becomes the end of length l, and no other end moves. */
  lemma AfterStep(o: seq<int>, ps: seq<int>, y: int, l: int, r: int, inf: int)
    requires Rising(o, inf) && Ascending(ps + [y], inf)
    requires 1 <= l <= |o| && o[l - 1] < y && (l < |o| ==> y <= o[l] && After(o, ps, l, inf) == o[l])
    requires 0 <= r < |o|
    ensures After(o, ps + [y], r, inf) == if r == l then y else After(o, ps, r, inf)
  {
    assert ps == (ps + [y])[..|ps|];
    assert Ascending(ps, inf);
    assert forall k :: 0 <= k < |ps| ==> ps[k] == (ps + [y])[k] < (ps + [y])[|ps|];
    if r > 0 {
      LeastAppend(ps, y, o[r - 1], inf);
      LeastRange(ps, o[r - 1], inf);
      assert r > l ==> o[l] <= o[r - 1];
      assert r < l ==> o[r] <= o[l - 1];
    }
  }

  // ---- candidate lists ----

  /** Candidate p is linked to an earlier one, and ch[p] is the subsequence its pred links spell out. */
  ghost predicate LinkedAt(cl: seq<Cand>, ch: seq<seq<Pair>>, cls: seq<seq<int>>, i: int, p: int)
    requires |ch| == |cl| && 0 < p < |cl|
  {
    && 0 <= cl[p].pred < p && cl[p].y >= 1
    && ch[p] == ch[cl[p].pred] + [Pair(cl[p].x, cl[p].y)]
    && Sub(cls, i, ch[p])
  }

  ghost predicate Linked(cl: seq<Cand>, ch: seq<seq<Pair>>, cls: seq<seq<int>>, i: int) {
    && |ch| == |cl| > 0
    && cl[0] == Cand(0, 0, 0) && ch[0] == []
    && forall p :: 0 < p < |cl| ==> LinkedAt(cl, ch, cls, i, p)
  }

  lemma LastX(cl: seq<Cand>, ch: seq<seq<Pair>>, cls: seq<seq<int>>, i: int, p: int)
    requires Linked(cl, ch, cls, i) && 0 <= p < |cl| && 0 <= i
    ensures cl[p].x <= i
  {
    if p > 0 {
      assert LinkedAt(cl, ch, cls, i, p);
      assert ch[p][|ch[p]| - 1].x == cl[p].x;
    }
  }

  /** A mate of line i after a chain of earlier lines makes a longer chain. */
  lemma LinkedExtend(cl: seq<Cand>, ch: seq<seq<Pair>>, cls: seq<seq<int>>, i: int, q: int, y: int)
    requires 1 <= i <= |cls| && y in cls[i - 1] && y >= 1
    requires Linked(cl, ch, cls, i) && 0 <= q < |cl| && cl[q].x < i && cl[q].y < y
    ensures Linked(cl + [Cand(i, y, q)], ch + [ch[q] + [Pair(i, y)]], cls, i)
  {
    var ps := ch[q];
    if q > 0 {
      assert LinkedAt(cl, ch, cls, i, q);
      assert ps[|ps| - 1] == Pair(cl[q].x, cl[q].y);
    }
    forall k | 0 <= k < |ps|
      ensures ps[k].x < i && ps[k].y < y
    {
      assert ps[k] == ps[|ps| - 1] || (ps[k].x < ps[|ps| - 1].x && ps[k].y < ps[|ps| - 1].y);
    }
    assert Sub(cls, i, ps);
    assert Sub(cls, i, ps + [Pair(i, y)]);
    var cl', ch' := cl + [Cand(i, y, q)], ch + [ps + [Pair(i, y)]];
    forall p | 0 < p < |cl'|
      ensures LinkedAt(cl', ch', cls, i, p)
    {
      if p < |cl| {
        assert LinkedAt(cl, ch, cls, i, p);
      }
    }
  }

  /** After i lines of file 0, cs[r] is a common subsequence of r lines that ends as early as any can, for r = 0..k. */
  ghost predicate Optimal(cl: seq<Cand>, ch: seq<seq<Pair>>, cls: seq<seq<int>>, inf: int, i: nat, cs: seq<int>) {
    && AllAscending(cls, inf) && i <= |cls|
    && Linked(cl, ch, cls, i)
    && cs != []
    && (forall r :: 0 <= r < |cs| ==> 0 <= cs[r] < |cl| && |ch[cs[r]]| == r
                                      && cl[cs[r]].y == Best(cls, inf, i, r) < inf)
    && Best(cls, inf, i, |cs|) == inf
  }

  /** The lines of file 1 where the candidates end. */
  ghost function Ends(cl: seq<Cand>, cs: seq<int>): (o: seq<int>)
    requires forall r :: 0 <= r < |cs| ==> 0 <= cs[r] < |cl|
    ensures |o| == |cs| && forall r :: 0 <= r < |cs| ==> o[r] == cl[cs[r]].y
  {
    seq(|cs|, r requires 0 <= r < |cs| => cl[cs[r]].y)
  }

  lemma EndsRise(cl: seq<Cand>, ch: seq<seq<Pair>>, cls: seq<seq<int>>, inf: int, i: nat, cs: seq<int>)
    requires Optimal(cl, ch, cls, inf, i, cs)
    ensures Rising(Ends(cl, cs), inf)
  {
    var o := Ends(cl, cs);
    forall r, s | 0 <= r < s < |o|
      ensures o[r] < o[s]
    {
      BestRises(cls, inf, i, r, s);
    }
    forall r | 0 <= r < |o|
      ensures 0 <= o[r]
    {
      BestInf(cls, inf, i, r);
    }
  }

  lemma {:induction false} BestRisesOne(cls: seq<seq<int>>, inf: int, i: nat, r: nat)
    requires AllAscending(cls, inf) && i <= |cls| && Best(cls, inf, i, r) < inf
    ensures Best(cls, inf, i, r) < Best(cls, inf, i, r + 1)
    decreases i
  {
    BestInf(cls, inf, i, r + 1);
    if i > 0 && r > 0 {
      BestInf(cls, inf, i - 1, r);
      LeastRange(cls[i - 1], Best(cls, inf, i - 1, r), inf);
      if Best(cls, inf, i - 1, r) < inf {
        BestRisesOne(cls, inf, i - 1, r);
      }
    }
  }

  lemma {:induction false} BestRises(cls: seq<seq<int>>, inf: int, i: nat, r: nat, s: nat)
    requires AllAscending(cls, inf) && i <= |cls| && r < s && Best(cls, inf, i, r) < inf
    ensures Best(cls, inf, i, r) < Best(cls, inf, i, s)
    decreases s
  {
    if r + 1 == s {
      BestRisesOne(cls, inf, i, r);
    } else {
      BestRises(cls, inf, i, r, s - 1);
      BestInf(cls, inf, i, s - 1);
      if Best(cls, inf, i, s - 1) < inf {
        BestRisesOne(cls, inf, i, s - 1);
      }
    }
  }

  lemma {:induction false} BestInfUp(cls: seq<seq<int>>, inf: int, i: nat, r: nat, s: nat)
    requires AllAscending(cls, inf) && i <= |cls| && r <= s && Best(cls, inf, i, r) >= inf
    ensures Best(cls, inf, i, s) == inf
    decreases s
  {
    BestInf(cls, inf, i, r);
    if r < s {
      BestInfUp(cls, inf, i, r, s - 1);
      BestInf(cls, inf, i, s - 1);
    }
  }

  // ---- while the mates of one line are tried ----

  /** The candidate of length r ends where the mates ps have brought end r. */
  ghost predicate Ending(cl: seq<Cand>, ch: seq<seq<Pair>>, cs: seq<int>, o: seq<int>, ps: seq<int>, inf: int) {
    && |cs| == |o| && |ch| == |cl|
    && forall r :: 0 <= r < |o| ==> 0 <= cs[r] < |cl| && |ch[cs[r]]| == r && cl[cs[r]].y == After(o, ps, r, inf)
  }

  ghost predicate Earlier(cl: seq<Cand>, ch: seq<seq<Pair>>, cs0: seq<int>, o: seq<int>, i: int) {
    && |cs0| == |o| && |ch| == |cl|
    && forall r :: 0 <= r < |o| ==> 0 <= cs0[r] < |cl| && |ch[cs0[r]]| == r && cl[cs0[r]].y == o[r] && cl[cs0[r]].x < i
  }

  lemma EndingSet(cl: seq<Cand>, ch: seq<seq<Pair>>, cs: seq<int>, o: seq<int>, ps: seq<int>, inf: int, l: int, y: int,
                  c: Cand, h: seq<Pair>)
    requires Ending(cl, ch, cs, o, ps, inf) && 0 <= l < |o| && c.y == y && |h| == l
    requires forall r :: 0 <= r < |o| ==> After(o, ps + [y], r, inf) == if r == l then y else After(o, ps, r, inf)
    ensures Ending(cl + [c], ch + [h], cs[l := |cl|], o, ps + [y], inf)
  {
    hide After;
  }

  lemma EndingAt(cl: seq<Cand>, ch: seq<seq<Pair>>, cs: seq<int>, o: seq<int>, ps: seq<int>, inf: int, r: int)
    requires Ending(cl, ch, cs, o, ps, inf) && 0 <= r < |o|
    ensures 0 <= cs[r] < |cl| == |ch| && |ch[cs[r]]| == r && cl[cs[r]].y == After(o, ps, r, inf)
  {
  }

  lemma EarlierMore(cl: seq<Cand>, ch: seq<seq<Pair>>, cs0: seq<int>, o: seq<int>, i: int, c: Cand, h: seq<Pair>)
    requires Earlier(cl, ch, cs0, o, i)
    ensures Earlier(cl + [c], ch + [h], cs0, o, i)
  {
  }

  lemma EarlierAt(cl: seq<Cand>, ch: seq<seq<Pair>>, cs0: seq<int>, o: seq<int>, i: int, r: int)
    requires Earlier(cl, ch, cs0, o, i) && 0 <= r < |o|
    ensures 0 <= cs0[r] < |cl| && |ch[cs0[r]]| == r && cl[cs0[r]].y == o[r] && cl[cs0[r]].x < i
  {
  }

  /** cs0 are the candidates, and o their ends, before line i; cs those after its mates ps were tried. */
  ghost predicate Midway(cl: seq<Cand>, ch: seq<seq<Pair>>, cls: seq<seq<int>>, inf: int, i: int,
                         cs: seq<int>, o: seq<int>, cs0: seq<int>, ps: seq<int>, oldl: int)
  {
    && Linked(cl, ch, cls, i)
    && |o| == |cs0| == |cs| && Rising(o, inf)
    && 0 <= oldl < |o|
    && Ending(cl, ch, cs, o, ps, inf) && Earlier(cl, ch, cs0, o, i)
    && (forall r :: oldl < r < |o| ==> cs[r] == cs0[r])
    && (ps == [] ==> oldl == 0)
    && (ps != [] ==> After(o, ps, oldl, inf) <= ps[|ps| - 1])
    && Least(ps, o[|o| - 1], inf) == inf
  }

  lemma MidwayFacts(cl: seq<Cand>, ch: seq<seq<Pair>>, cls: seq<seq<int>>, inf: int, i: int,
                    cs: seq<int>, o: seq<int>, cs0: seq<int>, ps: seq<int>, oldl: int)
    requires Midway(cl, ch, cls, inf, i, cs, o, cs0, ps, oldl)
    ensures |ch| == |cl| > 0 && |o| == |cs0| == |cs| && 0 <= oldl < |o|
    ensures forall r :: 0 <= r < |o| ==> 0 <= cs[r] < |cl|
    ensures forall r :: 0 <= r < |o| ==> 0 <= cs0[r] < |cl| && cl[cs0[r]].y == o[r]
    ensures forall r :: oldl < r < |o| ==> cs[r] == cs0[r]
    ensures Rising(o, inf)
  {
  }

  /** The candidates end at strictly rising lines of file 1. */
  ghost predicate Rows(cl: seq<Cand>, cs: seq<int>) {
    && cs != []
    && (forall r :: 0 <= r < |cs| ==> 0 <= cs[r] < |cl|)
    && (forall r, s :: 0 <= r < s < |cs| ==> cl[cs[r]].y < cl[cs[s]].y)
    && cl[cs[0]].y == 0
  }

  lemma MidwayRows(cl: seq<Cand>, ch: seq<seq<Pair>>, cls: seq<seq<int>>, inf: int, i: int,
                   cs: seq<int>, o: seq<int>, cs0: seq<int>, ps: seq<int>, oldl: int)
    requires Midway(cl, ch, cls, inf, i, cs, o, cs0, ps, oldl) && Ascending(ps, inf)
    ensures Rows(cl, cs)
  {
    forall r, s | 0 <= r < s < |o|
      ensures cl[cs[r]].y < cl[cs[s]].y
    {
      AfterRising(o, ps, r, s, inf);
    }
  }

  /** A mate that is not below the end it falls on leaves every candidate as it is. */
  lemma MidwayKeep(cl: seq<Cand>, ch: seq<seq<Pair>>, cls: seq<seq<int>>, inf: int, i: int,
                   cs: seq<int>, o: seq<int>, cs0: seq<int>, ps: seq<int>, oldl: int, y: int, l: int)
    requires Midway(cl, ch, cls, inf, i, cs, o, cs0, ps, oldl) && Ascending(ps + [y], inf)
    requires y <= o[oldl] || (oldl < l < |o| && o[l - 1] < y == o[l])
    ensures Midway(cl, ch, cls, inf, i, cs, o, cs0, ps + [y], oldl)
  {
    hide Linked, Earlier, Ending, After, Least, Rising, Ascending;
    if y > o[oldl] {
      EndingAt(cl, ch, cs, o, ps, inf, l);
      EarlierAt(cl, ch, cs0, o, i, l);
    }
    LastMate(o, ps, y, if y <= o[oldl] then oldl else l, inf);
    LastBefore(ps, y, inf);
    AfterZero(o, ps, inf);
    KeepAll(o, ps, y, oldl, l, inf);
    EndingSame(cl, ch, cs, o, ps, inf, y);
    LeastAppend(ps, y, o[|o| - 1], inf);
  }

  lemma AfterZero(o: seq<int>, ps: seq<int>, inf: int)
    requires o != []
    ensures After(o, ps, 0, inf) == 0
  {
  }

  lemma KeepAll(o: seq<int>, ps: seq<int>, y: int, oldl: int, l: int, inf: int)
    requires Rising(o, inf) && Ascending(ps + [y], inf) && 0 <= oldl < |o|
    requires y <= o[oldl] || (oldl < l < |o| && o[l - 1] < y == o[l] && After(o, ps, l, inf) == o[l])
    requires After(o, ps, oldl, inf) < y
    ensures forall r :: 0 <= r < |o| ==> After(o, ps + [y], r, inf) == After(o, ps, r, inf)
  {
    hide After, Rising, Ascending;
    forall r | 0 <= r < |o|
      ensures After(o, ps + [y], r, inf) == After(o, ps, r, inf)
    {
      if y <= o[oldl] {
        AfterSkip(o, ps, y, oldl, r, inf);
      } else {
        AfterStep(o, ps, y, l, r, inf);
      }
    }
  }

  lemma EndingSame(cl: seq<Cand>, ch: seq<seq<Pair>>, cs: seq<int>, o: seq<int>, ps: seq<int>, inf: int, y: int)
    requires Ending(cl, ch, cs, o, ps, inf)
    requires forall r :: 0 <= r < |o| ==> After(o, ps + [y], r, inf) == After(o, ps, r, inf)
    ensures Ending(cl, ch, cs, o, ps + [y], inf)
  {
    hide After;
  }

  lemma LastBefore(ps: seq<int>, y: int, inf: int)
    requires Ascending(ps + [y], inf)
    ensures ps != [] ==> ps[|ps| - 1] < y
  {
    assert (ps + [y])[|ps|] == y;
    assert ps != [] ==> (ps + [y])[|ps| - 1] == ps[|ps| - 1];
  }

  /** A mate below the end it falls on takes its place, after the candidate that was one shorter when the line was taken up. */
  lemma MidwayReplace(cl: seq<Cand>, ch: seq<seq<Pair>>, cls: seq<seq<int>>, inf: int, i: int,
                      cs: seq<int>, o: seq<int>, cs0: seq<int>, ps: seq<int>, oldl: int, y: int, l: int)
    requires AllAscending(cls, inf) && 1 <= i <= |cls| && y in cls[i - 1] && Ascending(ps + [y], inf)
    requires Midway(cl, ch, cls, inf, i, cs, o, cs0, ps, oldl)
    requires oldl < l < |o| && o[l - 1] < y < o[l]
    ensures var q := cs0[l - 1];
            Midway(cl + [Cand(i, y, q)], ch + [ch[q] + [Pair(i, y)]], cls, inf, i,
                   cs[l := |cl|], o, cs0, ps + [y], l)
  {
    hide Linked, Ending, Earlier, After, Least, Ascending, Rising;
    EarlierAt(cl, ch, cs0, o, i, l - 1);
    EarlierAt(cl, ch, cs0, o, i, l);
    EndingAt(cl, ch, cs, o, ps, inf, l);
    LastMate(o, ps, y, l, inf);
    var q := cs0[l - 1];
    LinkedExtend(cl, ch, cls, i, q, y);
    AfterAll(o, ps, y, l, inf);
    EndingSet(cl, ch, cs, o, ps, inf, l, y, Cand(i, y, q), ch[q] + [Pair(i, y)]);
    EarlierMore(cl, ch, cs0, o, i, Cand(i, y, q), ch[q] + [Pair(i, y)]);
    LeastAppend(ps, y, o[|o| - 1], inf);
  }

  lemma AfterAll(o: seq<int>, ps: seq<int>, y: int, l: int, inf: int)
    requires Rising(o, inf) && Ascending(ps + [y], inf) && 1 <= l < |o| && o[l - 1] < y <= o[l] && After(o, ps, l, inf) == o[l]
    ensures forall r :: 0 <= r < |o| ==> After(o, ps + [y], r, inf) == if r == l then y else After(o, ps, r, inf)
  {
    hide After, Rising, Ascending;
    forall r | 0 <= r < |o|
      ensures After(o, ps + [y], r, inf) == if r == l then y else After(o, ps, r, inf)
    {
      AfterStep(o, ps, y, l, r, inf);
    }
  }

  lemma LastMate(o: seq<int>, ps: seq<int>, y: int, l: int, inf: int)
    requires Rising(o, inf) && Ascending(ps + [y], inf) && 0 <= l < |o| && y <= o[l]
    ensures (ps + [y])[|ps + [y]| - 1] == y && 1 <= y <= o[|o| - 1]
  {
    assert (ps + [y])[|ps|] == y;
  }

  /** o are the least ends before line i. */
  ghost predicate Before(cls: seq<seq<int>>, inf: int, i: int, o: seq<int>) {
    && 1 <= i <= |cls| && o != []
    && (forall r :: 0 <= r < |o| ==> o[r] == Best(cls, inf, i - 1, r))
    && Best(cls, inf, i - 1, |o|) == inf
  }

  lemma BestAfter(cls: seq<seq<int>>, inf: int, i: int, o: seq<int>, r: int)
    requires Before(cls, inf, i, o) && 0 <= r < |o|
    ensures Best(cls, inf, i, r) == After(o, cls[i - 1], r, inf)
  {
    if r > 0 {
      assert o[r - 1] == Best(cls, inf, i - 1, r - 1);
    }
  }

  /** When every mate was tried and none lengthened the list, the candidates are optimal for one more line. */
  lemma MidwayDone(cl: seq<Cand>, ch: seq<seq<Pair>>, cls: seq<seq<int>>, inf: int, i: int,
                   cs: seq<int>, o: seq<int>, cs0: seq<int>, oldl: int)
    requires AllAscending(cls, inf) && Before(cls, inf, i, o)
    requires Midway(cl, ch, cls, inf, i, cs, o, cs0, cls[i - 1], oldl)
    ensures Optimal(cl, ch, cls, inf, i, cs)
  {
    forall r | 0 <= r < |cs|
      ensures cl[cs[r]].y == Best(cls, inf, i, r) < inf
    {
      BestAfter(cls, inf, i, o, r);
      AfterBound(o, cls[i - 1], r, inf);
    }
    BestNoLonger(cls, inf, i, o);
  }

  lemma AfterBound(o: seq<int>, ps: seq<int>, r: int, inf: int)
    requires Rising(o, inf) && 0 <= r < |o|
    ensures After(o, ps, r, inf) < inf
  {
  }

  lemma BestNoLonger(cls: seq<seq<int>>, inf: int, i: int, o: seq<int>)
    requires Before(cls, inf, i, o) && Least(cls[i - 1], o[|o| - 1], inf) == inf
    ensures Best(cls, inf, i, |o|) == inf
  {
    assert o[|o| - 1] == Best(cls, inf, i - 1, |o| - 1);
  }

  /** The mate at t, above every end, makes the list one longer, and the mates after it change nothing. */
  lemma BestLonger(cls: seq<seq<int>>, inf: int, i: int, o: seq<int>, t: int, r: int)
    requires AllAscending(cls, inf) && Before(cls, inf, i, o) && Rising(o, inf)
    requires 0 <= t < |cls[i - 1]| && o[|o| - 1] < cls[i - 1][t]
    requires Least(cls[i - 1][..t], o[|o| - 1], inf) == inf
    requires 0 <= r <= |o| + 1
    ensures Best(cls, inf, i, r) == if r < |o| then After(o, cls[i - 1][..t], r, inf)
                                    else if r == |o| then cls[i - 1][t] else inf
  {
    hide Ascending, Before, Best, After, Least;
    BeforeFacts(cls, inf, i, o);
    assert Ascending(cls[i - 1], inf);
    if r < |o| {
      LongerBelow(cls, inf, i, o, t, r);
    } else if r == |o| {
      LongerAt(cls, inf, i, o, t);
    } else {
      LongerPast(cls, inf, i, |o|);
    }
  }

  lemma BeforeFacts(cls: seq<seq<int>>, inf: int, i: int, o: seq<int>)
    requires Before(cls, inf, i, o)
    ensures 1 <= i <= |cls| && o != [] && o[|o| - 1] == Best(cls, inf, i - 1, |o| - 1) && Best(cls, inf, i - 1, |o|) == inf
  {
  }

  /** The shorter ones end as they did before the last mate that counts. */
  lemma LongerBelow(cls: seq<seq<int>>, inf: int, i: int, o: seq<int>, t: int, r: int)
    requires Before(cls, inf, i, o) && Rising(o, inf) && Ascending(cls[i - 1], inf)
    requires 0 <= t < |cls[i - 1]| && o[|o| - 1] < cls[i - 1][t] && 0 <= r < |o|
    ensures Best(cls, inf, i, r) == After(o, cls[i - 1][..t], r, inf)
  {
    var ys := cls[i - 1];
    BestAfter(cls, inf, i, o, r);
    hide Before, Best, Least;
    if r > 0 {
      assert o[r - 1] <= o[|o| - 1] && o[r] <= o[|o| - 1];
      LongerTail(ys, t, o[r - 1], inf);
      LeastAppend(ys[..t], ys[t], o[r - 1], inf);
      AscendingPrefix(ys, t, inf);
      LeastRange(ys[..t], o[r - 1], inf);
    }
  }

  lemma AscendingPrefix(ys: seq<int>, t: int, inf: int)
    requires Ascending(ys, inf) && 0 <= t <= |ys|
    ensures Ascending(ys[..t], inf)
  {
  }

  lemma LongerAt(cls: seq<seq<int>>, inf: int, i: int, o: seq<int>, t: int)
    requires 1 <= i <= |cls| && o != [] && Ascending(cls[i - 1], inf) && 0 <= t < |cls[i - 1]| && o[|o| - 1] < cls[i - 1][t]
    requires o[|o| - 1] == Best(cls, inf, i - 1, |o| - 1) && Best(cls, inf, i - 1, |o|) == inf
    requires Least(cls[i - 1][..t], o[|o| - 1], inf) == inf
    ensures Best(cls, inf, i, |o|) == cls[i - 1][t]
  {
    hide Least;
    var ys, x := cls[i - 1], o[|o| - 1];
    LongerTail(ys, t, x, inf);
    LeastAppend(ys[..t], ys[t], x, inf);
  }

  lemma LongerPast(cls: seq<seq<int>>, inf: int, i: int, m: int)
    requires 1 <= i <= |cls| && AllAscending(cls, inf) && 0 <= m && Best(cls, inf, i - 1, m) == inf
    ensures Best(cls, inf, i, m + 1) == inf
  {
    hide Least;
    BestInf(cls, inf, i - 1, m);
    LeastRange(cls[i - 1], inf, inf);
  }

  lemma MidwayLonger(cl: seq<Cand>, ch: seq<seq<Pair>>, cls: seq<seq<int>>, inf: int, i: int,
                     cs: seq<int>, o: seq<int>, cs0: seq<int>, t: int, oldl: int)
    requires AllAscending(cls, inf) && Before(cls, inf, i, o)
    requires 0 <= t < |cls[i - 1]| && o[|o| - 1] < cls[i - 1][t]
    requires Midway(cl, ch, cls, inf, i, cs, o, cs0, cls[i - 1][..t], oldl)
    ensures var y, q := cls[i - 1][t], cs0[|o| - 1];
            Optimal(cl + [Cand(i, y, q)], ch + [ch[q] + [Pair(i, y)]], cls, inf, i, cs + [|cl|])
  {
    var y, q := cls[i - 1][t], cs0[|o| - 1];
    assert Ascending(cls[i - 1], inf);
    hide Linked, Ending, Earlier, Best, Least, After, Ascending, Before;
    MateRange(cls[i - 1], inf, t);
    EarlierAt(cl, ch, cs0, o, i, |o| - 1);
    BeforeFacts(cls, inf, i, o);
    LinkedExtend(cl, ch, cls, i, q, y);
    var cl', ch', cs' := cl + [Cand(i, y, q)], ch + [ch[q] + [Pair(i, y)]], cs + [|cl|];
    forall r | 0 <= r < |cs'|
      ensures 0 <= cs'[r] < |cl'| && |ch'[cs'[r]]| == r && cl'[cs'[r]].y == Best(cls, inf, i, r) < inf
    {
      BestLonger(cls, inf, i, o, t, r);
      if r < |o| {
        EndingAt(cl, ch, cs, o, cls[i - 1][..t], inf, r);
        AfterBound(o, cls[i - 1][..t], r, inf);
      }
    }
    BestLonger(cls, inf, i, o, t, |o| + 1);
  }

  lemma MateRange(ys: seq<int>, inf: int, t: int)
    requires Ascending(ys, inf) && 0 <= t < |ys|
    ensures 1 <= ys[t] < inf && ys[t] in ys
  {
  }

  lemma LongerTail(ys: seq<int>, t: int, x: int, inf: int)
    requires Ascending(ys, inf) && 0 <= t < |ys| && x < ys[t]
    ensures Least(ys, x, inf) == Least(ys[..t] + [ys[t]], x, inf)
  {
    assert ys[..t + 1] == ys[..t] + [ys[t]];
    LeastAppend(ys[..t], ys[t], x, inf);
    LeastPrefix(ys, t + 1, x, inf);
  }

  /** The mates ys of a line as they lie in member: from j on, the first with its sign changed. */
  ghost predicate Listed(b: seq<int>, j: int, ys: seq<int>) {
    && ys != [] && 0 <= j && j + |ys| < |b|
    && b[j] == -ys[0]
    && (forall t :: 1 <= t < |ys| ==> b[j + t] == ys[t])
    && b[j + |ys|] <= 0
  }

  lemma Stays(cls: seq<seq<int>>, i: int, t: int, inf: int)
    requires AllAscending(cls, inf) && 1 <= i <= |cls| && 0 <= t < |cls[i - 1]|
    ensures cls[i - 1][..t] + [cls[i - 1][t]] == cls[i - 1][..t + 1]
    ensures Ascending(cls[i - 1][..t], inf) && Ascending(cls[i - 1][..t + 1], inf)
    ensures 1 <= cls[i - 1][t] < inf && (t > 0 ==> cls[i - 1][t - 1] < cls[i - 1][t])
  {
    assert Ascending(cls[i - 1], inf);
  }

  lemma LinkedLater(cl: seq<Cand>, ch: seq<seq<Pair>>, cls: seq<seq<int>>, i: int)
    requires Linked(cl, ch, cls, i - 1)
    ensures Linked(cl, ch, cls, i)
  {
    forall p | 0 < p < |cl|
      ensures LinkedAt(cl, ch, cls, i, p)
    {
      assert LinkedAt(cl, ch, cls, i - 1, p);
    }
  }

  lemma MidwayStart(cl: seq<Cand>, ch: seq<seq<Pair>>, cls: seq<seq<int>>, inf: int, i: nat, cs: seq<int>)
    requires 1 <= i <= |cls| && Optimal(cl, ch, cls, inf, i - 1, cs)
    ensures Before(cls, inf, i, Ends(cl, cs))
    ensures Midway(cl, ch, cls, inf, i, cs, Ends(cl, cs), cs, [], 0)
  {
    hide Linked, Best, Rising;
    EndsRise(cl, ch, cls, inf, i - 1, cs);
    LinkedLater(cl, ch, cls, i);
    LinkedSize(cl, ch, cls, i);
    var o := Ends(cl, cs);
    forall r | 0 <= r < |cs|
      ensures cl[cs[r]].x < i && After(o, [], r, inf) == o[r]
    {
      LastX(cl, ch, cls, i - 1, cs[r]);
      NoMates(o, r, inf);
    }
  }

  lemma NoMates(o: seq<int>, r: int, inf: int)
    requires Rising(o, inf) && 0 <= r < |o|
    ensures After(o, [], r, inf) == o[r] && Least([], o[|o| - 1], inf) == inf
  {
  }

  /** A line that has no mate changes nothing. */
  lemma OptimalSkip(cl: seq<Cand>, ch: seq<seq<Pair>>, cls: seq<seq<int>>, inf: int, i: nat, cs: seq<int>)
    requires 1 <= i <= |cls| && cls[i - 1] == [] && Optimal(cl, ch, cls, inf, i - 1, cs)
    ensures Optimal(cl, ch, cls, inf, i, cs)
  {
    LinkedLater(cl, ch, cls, i);
    forall r | 0 <= r <= |cs|
      ensures Best(cls, inf, i, r) == Best(cls, inf, i - 1, r)
    {
      BestInf(cls, inf, i - 1, r);
    }
  }

  /** Optimal candidates: each is a common subsequence, of its length none ends earlier, and none is longer than the last. */
  lemma OptimalIsLongest(cl: seq<Cand>, ch: seq<seq<Pair>>, cls: seq<seq<int>>, inf: int, cs: seq<int>)
    requires Optimal(cl, ch, cls, inf, |cls|, cs)
    ensures forall r :: 0 <= r < |cs| ==> Sub(cls, |cls|, ch[cs[r]]) && |ch[cs[r]]| == r
    ensures forall r: int, qs: seq<Pair> :: 1 <= r < |cs| && |qs| == r && Sub(cls, |cls|, qs) ==> cl[cs[r]].y <= qs[r - 1].y
    ensures forall qs: seq<Pair> :: Sub(cls, |cls|, qs) ==> |qs| < |cs|
  {
    hide Best, Sub, Linked;
    LinkedSize(cl, ch, cls, |cls|);
    forall r | 0 <= r < |cs|
      ensures Sub(cls, |cls|, ch[cs[r]])
    {
      ChainIsSub(cl, ch, cls, |cls|, cs[r]);
    }
    forall qs: seq<Pair> | Sub(cls, |cls|, qs) && qs != []
      ensures |qs| < |cs| && cl[cs[|qs|]].y <= qs[|qs| - 1].y
    {
      BestIsLeast(cls, inf, |cls|, qs);
      if |qs| >= |cs| {
        BestInfUp(cls, inf, |cls|, |cs|, |qs|);
      }
    }
  }

  lemma LinkedSize(cl: seq<Cand>, ch: seq<seq<Pair>>, cls: seq<seq<int>>, i: int)
    requires Linked(cl, ch, cls, i)
    ensures |ch| == |cl|
  {
  }

  lemma ChainIsSub(cl: seq<Cand>, ch: seq<seq<Pair>>, cls: seq<seq<int>>, i: int, p: int)
    requires Linked(cl, ch, cls, i) && 0 <= p < |cl|
    ensures |ch| == |cl| && Sub(cls, i, ch[p])
  {
    if p > 0 {
      assert LinkedAt(cl, ch, cls, i, p);
    }
  }

  class Candidates {
    /** clist; clen is its length. */
    var clist: seq<Cand>
    /** The subsequences that the pred links spell out. */
    ghost var chains: seq<seq<Pair>>

    constructor ()
      ensures clist == [] && chains == []
    {
      clist, chains := [], [];
    }

    /** newcand */
    method NewCand(x: int, y: int, pred: int) returns (p: int)
      requires |chains| == |clist|
      requires if |clist| == 0 then x == y == pred == 0 else 0 <= pred < |clist|
      modifies this
      ensures p == |old(clist)|
      ensures clist == old(clist) + [Cand(x, y, pred)]
      ensures chains == old(chains) + [if p == 0 then [] else old(chains[pred]) + [Pair(x, y)]]
    {
      chains := chains + [if |clist| == 0 then [] else chains[pred] + [Pair(x, y)]];
      clist := clist + [Cand(x, y, pred)];
      p := |clist| - 1;
    }

    /** search: the first of the ends c[1..k] at or above y, or k + 1. */
    method Search(c: array<int>, k: int, y: int) returns (l: int)
      requires 0 <= k < c.Length && Rows(clist, c[..k + 1]) && y > 0
      ensures 1 <= l <= k + 1
      ensures clist[c[l - 1]].y < y
      ensures l <= k ==> y <= clist[c[l]].y
    {
      ghost var cs := c[..k + 1];
      assert forall r :: 0 <= r <= k ==> cs[r] == c[r];
      if clist[c[k]].y < y {
        return k + 1;
      }
      var i, j := 0, k + 1;
      l := (i + j) / 2;
      while l > i
        invariant 0 <= i < j <= k + 1 && l == (i + j) / 2
        invariant clist[c[i]].y < y
        invariant j <= k ==> y < clist[c[j]].y
        invariant y <= clist[c[k]].y
        decreases j - i
      {
        var t := clist[c[l]].y;
        if t > y {
          j := l;
        } else if t < y {
          i := l;
        } else {
          return l;
        }
        l := (i + j) / 2;
      }
      l := l + 1;
    }

    /** One turn of stone's do loop: mate y of line i, after the mates ys[..t] of that line were tried. */
    method Try(ghost cls: seq<seq<int>>, ghost inf: int, i: int, c: array<int>, k: int, ghost o: seq<int>,
               ghost cs0: seq<int>, ghost t: int, y: int, oldl: int, oldc: int, ghost q: int)
      returns (longer: bool, oldl': int, oldc': int, ghost q': int)
      requires AllAscending(cls, inf) && 1 <= i <= |cls| && Before(cls, inf, i, o)
      requires 0 <= t < |cls[i - 1]| && y == cls[i - 1][t]
      requires 0 <= k && |o| == k + 1 < c.Length
      requires Midway(clist, chains, cls, inf, i, c[..k + 1], o, cs0, cls[i - 1][..t], oldl)
      requires 0 <= oldl <= q <= k && oldc == cs0[q]
      requires q > oldl ==> q < k && t > 0 && o[q + 1] <= cls[i - 1][t - 1]
      modifies this, c
      ensures longer ==> Optimal(clist, chains, cls, inf, i, c[..k + 2])
      ensures !longer ==> Midway(clist, chains, cls, inf, i, c[..k + 1], o, cs0, cls[i - 1][..t + 1], oldl')
      ensures !longer ==> 0 <= oldl' <= q' <= k && oldc' == cs0[q']
      ensures !longer && q' > oldl' ==> q' < k && o[q' + 1] <= y
    {
      hide Midway, Optimal, Linked, Before, AllAscending, Ascending, Rows;
      ghost var ps, cs := cls[i - 1][..t], c[..k + 1];
      Stays(cls, i, t, inf);
      MidwayFacts(clist, chains, cls, inf, i, cs, o, cs0, ps, oldl);
      assert forall r :: 0 <= r <= k ==> cs[r] == c[r];
      longer, oldl', oldc', q' := false, oldl, oldc, q;
      if y <= clist[oldc].y {
        MidwayKeep(clist, chains, cls, inf, i, cs, o, cs0, ps, oldl, y, 0);
        return;
      }
      MidwayRows(clist, chains, cls, inf, i, cs, o, cs0, ps, oldl);
      var l := Search(c, k, y);
      Falls(clist, chains, cls, inf, i, cs, o, cs0, ps, oldl, q, y, l);
      if l != oldl + 1 {
        oldc' := c[l - 1];
        q' := l - 1;
      }
      if l <= k {
        if clist[c[l]].y <= y {
          MidwayKeep(clist, chains, cls, inf, i, cs, o, cs0, ps, oldl, y, l);
          return;
        }
        MidwayReplace(clist, chains, cls, inf, i, cs, o, cs0, ps, oldl, y, l);
        var tc := c[l];
        var p := NewCand(i, y, oldc');
        c[l] := p;
        assert c[..k + 1] == cs[l := p];
        oldc' := tc;
        oldl' := l;
        q' := l;
      } else {
        MidwayLonger(clist, chains, cls, inf, i, cs, o, cs0, t, oldl);
        var p := NewCand(i, y, oldc');
        c[l] := p;
        assert c[..k + 2] == cs + [p];
        longer := true;
      }
    }

    /** The body of stone's loop for line i, whose mates lie in member from index j0. */
    method Round(ghost cls: seq<seq<int>>, ghost inf: int, i: int, b: array<int>, j0: int, c: array<int>, k: int)
      returns (k': int)
      requires 1 <= i <= |cls| && 0 <= k && k + 1 < c.Length && b != c
      requires Optimal(clist, chains, cls, inf, i - 1, c[..k + 1])
      requires Listed(b[..], j0, cls[i - 1])
      modifies this, c
      ensures k <= k' <= k + 1
      ensures Optimal(clist, chains, cls, inf, i, c[..k' + 1])
    {
      hide Midway, Linked, Before, Rows;
      ghost var ys, cs0 := cls[i - 1], c[..k + 1];
      ghost var o := Ends(clist, cs0);
      ghost var t, q := 0, 0;
      MidwayStart(clist, chains, cls, inf, i, cs0);
      assert ys[..0] == [];
      assert Ascending(ys, inf);
      var j, y, oldl, oldc := j0, -b[j0], 0, c[0];
      while true
        invariant 0 <= t < |ys| && j == j0 + t && y == ys[t]
        invariant Midway(clist, chains, cls, inf, i, c[..k + 1], o, cs0, ys[..t], oldl)
        invariant 0 <= oldl <= q <= k && oldc == cs0[q]
        invariant q > oldl ==> q < k && t > 0 && o[q + 1] <= ys[t - 1]
        decreases |ys| - t
      {
        var longer;
        longer, oldl, oldc, q := Try(cls, inf, i, c, k, o, cs0, t, y, oldl, oldc, q);
        if longer {
          return k + 1;
        }
        j := j + 1;
        y := b[j];
        t := t + 1;
        assert t < |ys| ==> b[..][j] == ys[t] >= 1;
        if y <= 0 {
          break;
        }
      }
      assert ys[..t] == ys;
      MidwayDone(clist, chains, cls, inf, i, c[..k + 1], o, cs0, oldl);
      k' := k;
    }

    /** stone: a is class, b member and c klist. */
    method Stone(ghost cls: seq<seq<int>>, ghost inf: int, a: array<int>, n: int, b: array<int>, c: array<int>)
      returns (k: int)
      requires clist == [] && chains == [] && a != c && b != c
      requires 0 <= n < a.Length && n + 1 < c.Length && |cls| == n && AllAscending(cls, inf)
      requires forall i :: 1 <= i <= n ==>
                 if a[i] == 0 then cls[i - 1] == [] else Listed(b[..], a[i], cls[i - 1])
      modifies this, c
      ensures 0 <= k <= n
      ensures Optimal(clist, chains, cls, inf, n, c[..k + 1])
    {
      k := 0;
      c[0] := NewCand(0, 0, 0);
      assert c[..1] == [0];
      for i := 1 to n + 1
        invariant 0 <= k < i
        invariant Optimal(clist, chains, cls, inf, i - 1, c[..k + 1])
      {
        var j := a[i];
        if j == 0 {
          OptimalSkip(clist, chains, cls, inf, i, c[..k + 1]);
        } else {
          k := Round(cls, inf, i, b, j, c, k);
        }
      }
    }
  }

  /** Where search finds a mate: after every end the line has moved, between two ends it has not. */
  lemma Falls(cl: seq<Cand>, ch: seq<seq<Pair>>, cls: seq<seq<int>>, inf: int, i: int, cs: seq<int>, o: seq<int>,
              cs0: seq<int>, ps: seq<int>, oldl: int, q: int, y: int, l: int)
    requires Midway(cl, ch, cls, inf, i, cs, o, cs0, ps, oldl) && Ascending(ps + [y], inf)
    requires oldl <= q < |o| && o[q] < y
    requires q > oldl ==> q + 1 < |o| && ps != [] && o[q + 1] <= ps[|ps| - 1]
    requires 1 <= l <= |o| && cl[cs[l - 1]].y < y && (l < |o| ==> y <= cl[cs[l]].y)
    ensures oldl < l && o[l - 1] < y && (l < |o| ==> y <= o[l] && cs[l] == cs0[l])
    ensures l == oldl + 1 ==> q == oldl
    ensures l != oldl + 1 ==> cs[l - 1] == cs0[l - 1]
  {
    assert (ps + [y])[|ps|] == y;
    assert ps != [] ==> (ps + [y])[|ps| - 1] == ps[|ps| - 1] < y;
    assert After(o, ps, oldl, inf) < y;
    assert ps == (ps + [y])[..|ps|];
    assert Ascending(ps, inf);
    if l < oldl {
      AfterRising(o, ps, l, oldl, inf);
    }
    assert oldl < l;
  }
}
