/**
 * From the line values of two files to the match vector J of
 * usr/src/cmd/diff.c: prune, the middle of main, and unravel.
 */
module DiffMatch {
  import opened DiffSpec
  import opened DiffStone
  import opened DiffClasses

  /** The numbered lines of u in a[1..|u|], with a spare entry at either end. */
  ghost predicate Numbered(a: array<Line>, u: seq<int>)
    reads a
  {
    a.Length == |u| + 2 && forall k :: 1 <= k <= |u| ==> a[k] == Line(k, u[k - 1])
  }

  method Number(u: seq<int>) returns (a: array<Line>)
    ensures fresh(a) && Numbered(a, u)
  {
    a := new Line[|u| + 2](i => Line(i, 0));
    for i := 1 to |u| + 1
      invariant forall k :: 1 <= k < i ==> a[k] == Line(k, u[k - 1])
    {
      a[i] := Line(i, u[i - 1]);
    }
  }

  /** prune: as many common lines as there are at the start, then as many as remain at the end. */
  method Prune(u: seq<int>, v: seq<int>) returns (pref: int, suff: int)
    ensures 0 <= pref && 0 <= suff && pref + suff <= |u| && pref + suff <= |v|
    ensures u[..pref] == v[..pref] && u[|u| - suff..] == v[|v| - suff..]
    ensures pref == |u| || pref == |v| || u[pref] != v[pref]
    ensures pref + suff == |u| || pref + suff == |v| || u[|u| - suff - 1] != v[|v| - suff - 1]
  {
    pref := 0;
    while pref < |u| && pref < |v| && u[pref] == v[pref]
      invariant 0 <= pref <= |u| && pref <= |v|
      invariant u[..pref] == v[..pref]
    {
      assert u[..pref + 1] == u[..pref] + [u[pref]] && v[..pref + 1] == v[..pref] + [v[pref]];
      pref := pref + 1;
    }
    suff := 0;
    while suff < |u| - pref && suff < |v| - pref && u[|u| - suff - 1] == v[|v| - suff - 1]
      invariant 0 <= suff && pref + suff <= |u| && pref + suff <= |v|
      invariant u[|u| - suff..] == v[|v| - suff..]
    {
      var i, j := |u| - suff - 1, |v| - suff - 1;
      assert u[i..] == [u[i]] + u[i + 1..] && v[j..] == [v[j]] + v[j + 1..];
      suff := suff + 1;
    }
  }

  /** The class of every line, from the sorted lines sb and the class indices cl. */
  ghost function ClassLists(sb: seq<Line>, m: int, cl: seq<int>, n: int): (cls: seq<seq<int>>)
    requires 0 <= n < |cl| && 0 <= m < |sb| && forall x :: 1 <= x <= n ==> 0 <= cl[x] <= m
    ensures |cls| == n && forall i :: 0 <= i < n ==> cls[i] == ClassOf(sb, m, cl[i + 1])
  {
    seq(n, i requires 0 <= i < n => ClassOf(sb, m, cl[i + 1]))
  }

  lemma NoClass(sb: seq<Line>, m: int)
    requires 0 <= m < |sb|
    ensures ClassOf(sb, m, 0) == []
  {
  }

  /** The lists that equiv and unsort have made name the mates of every line. */
  lemma ClassesAreMates(sb: seq<Line>, u: seq<int>, v: seq<int>, cl: seq<int>, member: seq<int>)
    requires Tags(sb, v) && Sorted(sb, 1, |v| + 1)
    requires |u| < |cl| && |v| + 1 < |member|
    requires forall x :: 1 <= x <= |u| ==> 0 <= cl[x] <= |v| && IsFirst(sb, |v|, u[x - 1], cl[x])
    requires member[|v| + 1] == -1 && forall k :: 1 <= k <= |v| ==> member[k] == Member(sb, k)
    ensures var cls := ClassLists(sb, |v|, cl, |u|);
            && MatesOf(cls, u, v) && AllAscending(cls, |v| + 1)
            && forall x :: 1 <= x <= |u| ==> if cl[x] == 0 then cls[x - 1] == [] else Listed(member, cl[x], cls[x - 1])
  {
    hide Sorted, IsFirst, Ascending, Listed, ClassOf, Member;
    var cls := ClassLists(sb, |v|, cl, |u|);
    forall i | 0 <= i < |u|
      ensures Ascending(cls[i], |v| + 1) && forall y :: y in cls[i] <==> 1 <= y <= |v| && v[y - 1] == u[i]
    {
      var x := i + 1;
      assert IsFirst(sb, |v|, u[x - 1], cl[x]);
      ClassIsMates(sb, v, u[i], cl[x]);
    }
    NoClass(sb, |v|);
    forall x | 1 <= x <= |u| && cl[x] != 0
      ensures Listed(member, cl[x], cls[x - 1])
    {
      ClassIsListed(sb, v, member, u[x - 1], cl[x]);
      assert cls[x - 1] == ClassOf(sb, |v|, cl[x - 1 + 1]);
    }
  }

  /** Each line of u gets the class of its value, whatever order the sorted lines sa have. */
  lemma UnsortedClasses(sa: seq<Line>, ca: seq<Line>, sb: seq<Line>, u: seq<int>, m: int, cl: seq<int>)
    requires Tags(sa, u) && |ca| == |sa| && |u| < |cl|
    requires forall k :: 1 <= k <= |u| ==> ca[k].serial == sa[k].serial && IsFirst(sb, m, sa[k].value, ca[k].value)
    requires forall k :: 1 <= k <= |u| ==> cl[ca[k].serial] == ca[k].value
    ensures forall x :: 1 <= x <= |u| ==> 0 <= cl[x] <= m && IsFirst(sb, m, u[x - 1], cl[x])
  {
    forall x | 1 <= x <= |u|
      ensures 0 <= cl[x] <= m && IsFirst(sb, m, u[x - 1], cl[x])
    {
      assert Has(sa, |u|, x);
      var k :| 1 <= k <= |u| && sa[k].serial == x;
      assert cl[ca[k].serial] == ca[k].value;
    }
  }

  /** equiv and unsort on sorted lines. */
  method Classes(s0: array<Line>, ghost u: seq<int>, n: int, s1: array<Line>, ghost v: seq<int>, m: int)
    returns (cl: array<int>, member: array<int>, ghost cls: seq<seq<int>>)
    requires s0 != s1 && s0.Length == n + 2 && s1.Length == m + 2 && |u| == n && |v| == m
    requires Tags(s0[..], u) && Sorted(s0[..], 1, n + 1)
    requires Tags(s1[..], v) && Sorted(s1[..], 1, m + 1)
    requires forall k :: 0 <= k < m ==> v[k] != 0
    modifies s0, s1
    ensures fresh(cl) && fresh(member) && cl.Length == n + 2
    ensures MatesOf(cls, u, v) && AllAscending(cls, m + 1)
    ensures forall x :: 1 <= x <= n ==>
              if cl[x] == 0 then cls[x - 1] == [] else Listed(member[..], cl[x], cls[x - 1])
  {
    hide Tags, Sorted, Listed, MatesOf, AllAscending;
    ghost var sa, sb := s0[..], s1[..];
    member, cl := new int[m + 2], new int[n + 2];
    TagsFacts(sa, u);
    TagsFacts(sb, v);
    Classify(s0, n, s1, m);
    assert s1[..] == sb;
    Unsort(s0, n, cl);
    UnsortedClasses(sa, s0[..], sb, u, m, cl[..]);
    Squeeze(s1, m, member);
    assert forall k :: 1 <= k <= m ==> Member(s1[..], k) == Member(sb, k);
    cls := ClassLists(sb, m, cl[..], n);
    ClassesAreMates(sb, u, v, cl[..], member[..]);
  }

  lemma TagsFacts(s: seq<Line>, u: seq<int>)
    requires Tags(s, u)
    ensures |u| < |s|
    ensures forall k :: 1 <= k <= |u| ==> 1 <= s[k].serial <= |u| && s[k].value == u[s[k].serial - 1]
    ensures forall k, k' :: 1 <= k < k' <= |u| ==> s[k].serial != s[k'].serial
  {
  }

  /** J[1..n] records exactly the pairs ps. */
  ghost predicate Records(J: seq<int>, n: int, ps: seq<Pair>) {
    && 0 <= n < |J|
    && (forall k :: 0 <= k < |ps| ==> 1 <= ps[k].x <= n && J[ps[k].x] == ps[k].y)
    && (forall x :: 1 <= x <= n && J[x] != 0 ==> Pair(x, J[x]) in ps)
  }

  /** J while the pairs c[t..] of the middle are in place, between a common prefix and suffix. */
  ghost predicate Unraveled(J: seq<int>, pref: int, suff: int, n: int, m: int, c: seq<Pair>, t: int) {
    && 0 <= pref && 0 <= suff && pref + suff <= n < |J| && 0 <= t <= |c|
    && (forall x :: 0 <= x <= pref ==> J[x] == x)
    && (forall x :: n - suff < x <= n ==> J[x] == x + m - n)
    && (forall k :: t <= k < |c| ==> 1 <= c[k].x <= n - pref - suff && J[c[k].x + pref] == c[k].y + pref)
    && (forall x :: pref < x <= n - suff && J[x] != 0 ==> Pair(x - pref, J[x] - pref) in c)
  }

  lemma UnraveledPair(J: seq<int>, pref: int, suff: int, n: int, m: int, c: seq<Pair>, k: int)
    requires Unraveled(J, pref, suff, n, m, c, 0) && 0 <= k < pref + |c| + suff
    ensures k < |Padded(pref, c, suff, n, m)|
    ensures var p := Padded(pref, c, suff, n, m)[k]; 1 <= p.x <= n && J[p.x] == p.y
  {
    hide Padded;
    PaddedAt(pref, c, suff, n, m, k);
  }

  /** The pair of a line in the middle is one of the chain. */
  lemma UnraveledMiddle(J: seq<int>, pref: int, suff: int, n: int, m: int, c: seq<Pair>, x: int) returns (k: int)
    requires Unraveled(J, pref, suff, n, m, c, 0) && pref < x <= n - suff && J[x] != 0
    ensures 0 <= k < |c| && c[k] == Pair(x - pref, J[x] - pref)
  {
    var q := Pair(x - pref, J[x] - pref);
    assert q in c;
    k :| 0 <= k < |c| && c[k] == q;
  }

  lemma UnraveledEnds(J: seq<int>, pref: int, suff: int, n: int, m: int, c: seq<Pair>, x: int)
    requires Unraveled(J, pref, suff, n, m, c, 0) && 1 <= x <= n
    ensures 0 <= pref && 0 <= suff && pref + suff <= n < |J|
    ensures x <= pref ==> J[x] == x
    ensures x > n - suff ==> J[x] == x + m - n
  {
  }

  lemma UnraveledEntry(J: seq<int>, pref: int, suff: int, n: int, m: int, c: seq<Pair>, x: int)
    requires Unraveled(J, pref, suff, n, m, c, 0) && 1 <= x <= n && J[x] != 0
    ensures Pair(x, J[x]) in Padded(pref, c, suff, n, m)
  {
    hide Padded, Unraveled;
    UnraveledEnds(J, pref, suff, n, m, c, x);
    var i := x - 1;
    if x > n - suff {
      i := x - n + suff - 1 + pref + |c|;
    } else if pref < x {
      var k := UnraveledMiddle(J, pref, suff, n, m, c, x);
      i := k + pref;
    }
    PaddedAt(pref, c, suff, n, m, i);
    assert Padded(pref, c, suff, n, m)[i] == Pair(x, J[x]);
  }

  lemma UnraveledRecords(J: seq<int>, pref: int, suff: int, n: int, m: int, c: seq<Pair>)
    requires Unraveled(J, pref, suff, n, m, c, 0)
    ensures Records(J, n, Padded(pref, c, suff, n, m))
  {
    var ls := Padded(pref, c, suff, n, m);
    forall k | 0 <= k < |ls|
      ensures 1 <= ls[k].x <= n && J[ls[k].x] == ls[k].y
    {
      UnraveledPair(J, pref, suff, n, m, c, k);
    }
    forall x | 1 <= x <= n && J[x] != 0
      ensures Pair(x, J[x]) in ls
    {
      UnraveledEntry(J, pref, suff, n, m, c, x);
    }
  }

  /** One more pair of the chain put into J leaves the pairs after it alone. */
  lemma UnraveledStep(J: seq<int>, pref: int, suff: int, n: int, m: int, c: seq<Pair>, t: int)
    requires t > 0 && Unraveled(J, pref, suff, n, m, c, t) && Increasing(c)
    requires 1 <= c[t - 1].x <= n - pref - suff
    ensures Unraveled(J[c[t - 1].x + pref := c[t - 1].y + pref], pref, suff, n, m, c, t - 1)
  {
    var J' := J[c[t - 1].x + pref := c[t - 1].y + pref];
    forall k | t - 1 <= k < |c|
      ensures J'[c[k].x + pref] == c[k].y + pref
    {
      assert k > t - 1 ==> c[t - 1].x < c[k].x;
    }
    assert c[t - 1] in c;
  }

  /** unravel: the pairs of the candidate p, found from the last to the first along its pred links. */
  method Unravel(cands: Candidates, p: int, pref: int, suff: int, n: int, m: int, ghost cls: seq<seq<int>>)
    returns (J: array<int>)
    requires 0 <= pref && 0 <= suff && pref + suff <= n && |cls| == n - pref - suff
    requires Linked(cands.clist, cands.chains, cls, |cls|) && 0 <= p < |cands.clist| == |cands.chains|
    ensures fresh(J) && J.Length == n + 2
    ensures Records(J[..], n, Padded(pref, cands.chains[p], suff, n, m))
  {
    hide Linked, Unraveled, Records, Padded;
    J := new int[n + 2];
    for i := 0 to n + 1
      invariant forall x :: 0 <= x < i ==> J[x] == if x <= pref then x else if x > n - suff then x + m - n else 0
    {
      J[i] := if i <= pref then i else if i > n - suff then i + m - n else 0;
    }
    ghost var c := cands.chains[p];
    LinkedFacts(cands.clist, cands.chains, cls, p);
    UnraveledStart(J[..], pref, suff, n, m, c);
    var q := p;
    while cands.clist[q].y != 0
      invariant 0 <= q < |cands.clist|
      invariant |cands.chains[q]| <= |c| && cands.chains[q] == c[..|cands.chains[q]|]
      invariant Unraveled(J[..], pref, suff, n, m, c, |cands.chains[q]|)
      decreases q
    {
      ghost var t := |cands.chains[q]|;
      LinkedFacts(cands.clist, cands.chains, cls, q);
      assert cands.chains[q][t - 1] == c[t - 1];
      UnraveledStep(J[..], pref, suff, n, m, c, t);
      ghost var J0 := J[..];
      J[cands.clist[q].x + pref] := cands.clist[q].y + pref;
      assert J[..] == J0[c[t - 1].x + pref := c[t - 1].y + pref];
      q := cands.clist[q].pred;
      assert cands.chains[q] == c[..t - 1];
    }
    LinkedFacts(cands.clist, cands.chains, cls, q);
    UnraveledRecords(J[..], pref, suff, n, m, c);
  }

  lemma UnraveledStart(J: seq<int>, pref: int, suff: int, n: int, m: int, c: seq<Pair>)
    requires 0 <= pref && 0 <= suff && pref + suff <= n < |J|
    requires forall x :: 0 <= x <= n ==> J[x] == if x <= pref then x else if x > n - suff then x + m - n else 0
    ensures Unraveled(J, pref, suff, n, m, c, |c|)
  {
  }

  /** What a candidate links to: only candidate 0 ends at line 0. */
  lemma LinkedFacts(cl: seq<Cand>, ch: seq<seq<Pair>>, cls: seq<seq<int>>, q: int)
    requires Linked(cl, ch, cls, |cls|) && 0 <= q < |cl|
    ensures |ch| == |cl| && Increasing(ch[q])
    ensures if cl[q].y == 0 then ch[q] == []
            else && 0 <= cl[q].pred < q && 1 <= cl[q].x <= |cls|
                 && ch[q] == ch[cl[q].pred] + [Pair(cl[q].x, cl[q].y)]
  {
    if q > 0 {
      assert LinkedAt(cl, ch, cls, |cls|, q);
      assert ch[q][|ch[q]| - 1].x == cl[q].x;
    }
  }

  /** sort, equiv, unsort and stone on the pruned files. */
  method Middle(u: seq<int>, v: seq<int>) returns (cands: Candidates, p: int, ghost cls: seq<seq<int>>)
    requires forall k :: 0 <= k < |v| ==> v[k] != 0
    ensures fresh(cands) && |cls| == |u| && Linked(cands.clist, cands.chains, cls, |cls|)
    ensures 0 <= p < |cands.clist| == |cands.chains| && Longest(u, v, cands.chains[p])
  {
    hide Linked, Tags, Sorted, Listed, MatesOf, AllAscending, Longest;
    var n, m := |u|, |v|;
    var s0 := Number(u);
    var s1 := Number(v);
    ghost var t0, t1 := s0[..], s1[..];
    Sort(s0, n);
    Sort(s1, m);
    RearrangedTags(t0, s0[..], u);
    RearrangedTags(t1, s1[..], v);
    var cl, member;
    cl, member, cls := Classes(s0, u, n, s1, v, m);
    var klist := new int[n + 2];
    cands := new Candidates();
    MatesCount(cls, u, v);
    var k := cands.Stone(cls, m + 1, cl, n, member, klist);
    p := klist[k];
    StoneIsLongest(cands.clist, cands.chains, cls, m + 1, klist[..k + 1], u, v);
  }

  lemma MatesCount(cls: seq<seq<int>>, u: seq<int>, v: seq<int>)
    requires MatesOf(cls, u, v)
    ensures |cls| == |u|
  {
  }

  lemma StoneIsLongest(cl: seq<Cand>, ch: seq<seq<Pair>>, cls: seq<seq<int>>, inf: int, cs: seq<int>,
                       u: seq<int>, v: seq<int>)
    requires Optimal(cl, ch, cls, inf, |cls|, cs) && MatesOf(cls, u, v)
    ensures Linked(cl, ch, cls, |cls|) && 0 <= cs[|cs| - 1] < |cl| == |ch|
    ensures Longest(u, v, ch[cs[|cs| - 1]])
  {
    OptimalIsLongest(cl, ch, cls, inf, cs);
    SubIsCommon(cls, u, v, ch[cs[|cs| - 1]]);
    forall qs: seq<Pair> | Common(u, v, qs)
      ensures |qs| < |cs|
    {
      SubIsCommon(cls, u, v, qs);
    }
  }

  /** From prune to unravel in main: J records a longest common subsequence of the line values. */
  method Match(u: seq<int>, v: seq<int>) returns (J: array<int>, ghost ps: seq<Pair>)
    requires forall k :: 0 <= k < |v| ==> v[k] != 0
    ensures fresh(J) && J.Length == |u| + 2
    ensures Longest(u, v, ps) && Records(J[..], |u|, ps)
  {
    hide Linked, Longest, Records, Padded;
    var n, m := |u|, |v|;
    var pref, suff := Prune(u, v);
    var cands, p, cls := Middle(u[pref..n - suff], v[pref..m - suff]);
    J := Unravel(cands, p, pref, suff, n, m, cls);
    ps := Padded(pref, cands.chains[p], suff, n, m);
    PaddedIsLongest(u, v, pref, suff, cands.chains[p]);
  }
}
