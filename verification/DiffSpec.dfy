/**
 * What a line comparison promises: a longest common subsequence of two
 * sequences of line values. Lines are numbered from 1, as in usr/src/cmd/diff.c.
 */
module DiffSpec {

  /** Line x of file 0 mated with line y of file 1. */
  datatype Pair = Pair(x: int, y: int)

  ghost predicate Increasing(ps: seq<Pair>) {
    forall i, j :: 0 <= i < j < |ps| ==> ps[i].x < ps[j].x && ps[i].y < ps[j].y
  }

  /** The lines a pair names exist and have the same value. */
  ghost predicate Mates(u: seq<int>, v: seq<int>, p: Pair) {
    1 <= p.x <= |u| && 1 <= p.y <= |v| && u[p.x - 1] == v[p.y - 1]
  }

  /** ps is a common subsequence of u and v. */
  ghost predicate Common(u: seq<int>, v: seq<int>, ps: seq<Pair>) {
    Increasing(ps) && forall i :: 0 <= i < |ps| ==> Mates(u, v, ps[i])
  }

  /** ps is a common subsequence of u and v, and no common subsequence is longer. */
  ghost predicate Longest(u: seq<int>, v: seq<int>, ps: seq<Pair>) {
    Common(u, v, ps) && forall qs: seq<Pair> :: Common(u, v, qs) ==> |qs| <= |ps|
  }

  /** Every pair moved by d in file 0 and by e in file 1. */
  ghost function Shift(ps: seq<Pair>, d: int, e: int): (r: seq<Pair>)
    ensures |r| == |ps|
    ensures forall i :: 0 <= i < |ps| ==> r[i] == Pair(ps[i].x + d, ps[i].y + e)
  {
    seq(|ps|, i requires 0 <= i < |ps| => Pair(ps[i].x + d, ps[i].y + e))
  }

  /** The first n lines of both files mated one to one. */
  ghost function Diagonal(n: nat): (r: seq<Pair>)
    ensures |r| == n && forall i :: 0 <= i < n ==> r[i] == Pair(i + 1, i + 1)
  {
    seq(n, i => Pair(i + 1, i + 1))
  }

  /** In a common subsequence only the first of the pairs can mate a first line. */
  lemma DropFirst(u: seq<int>, v: seq<int>, qs: seq<Pair>)
    requires u != [] && v != [] && qs != [] && Common(u, v, qs)
    ensures Common(u[1..], v[1..], Shift(qs[1..], -1, -1))
  {
    var ts := Shift(qs[1..], -1, -1);
    forall i | 0 <= i < |ts|
      ensures Mates(u[1..], v[1..], ts[i])
    {
      assert ts[i] == Pair(qs[i + 1].x - 1, qs[i + 1].y - 1);
      assert Mates(u, v, qs[i + 1]) && Mates(u, v, qs[0]) && qs[0].x < qs[i + 1].x && qs[0].y < qs[i + 1].y;
    }
  }

  /** Taking p first lines off both files loses at most p pairs. */
  lemma {:induction false} DropPrefix(u: seq<int>, v: seq<int>, p: nat, qs: seq<Pair>) returns (rs: seq<Pair>)
    requires p <= |u| && p <= |v| && Common(u, v, qs)
    ensures Common(u[p..], v[p..], rs) && |rs| >= |qs| - p
    decreases p
  {
    if p == 0 {
      assert u[0..] == u && v[0..] == v;
      rs := qs;
    } else if qs == [] {
      rs := [];
    } else {
      DropFirst(u, v, qs);
      rs := DropPrefix(u[1..], v[1..], p - 1, Shift(qs[1..], -1, -1));
      assert u[1..][p - 1..] == u[p..] && v[1..][p - 1..] == v[p..];
    }
  }

  /** In a common subsequence only the last of the pairs can mate a last line. */
  lemma DropLast(u: seq<int>, v: seq<int>, qs: seq<Pair>)
    requires u != [] && v != [] && qs != [] && Common(u, v, qs)
    ensures Common(u[..|u| - 1], v[..|v| - 1], qs[..|qs| - 1])
  {
    var k := |qs| - 1;
    forall i | 0 <= i < k
      ensures Mates(u[..|u| - 1], v[..|v| - 1], qs[..k][i])
    {
      assert Mates(u, v, qs[i]) && Mates(u, v, qs[k]) && qs[i].x < qs[k].x && qs[i].y < qs[k].y;
    }
  }

  /** Taking s last lines off both files loses at most s pairs. */
  lemma {:induction false} DropSuffix(u: seq<int>, v: seq<int>, s: nat, qs: seq<Pair>) returns (rs: seq<Pair>)
    requires s <= |u| && s <= |v| && Common(u, v, qs)
    ensures Common(u[..|u| - s], v[..|v| - s], rs) && |rs| >= |qs| - s
    decreases s
  {
    if s == 0 {
      assert u[..|u|] == u && v[..|v|] == v;
      rs := qs;
    } else if qs == [] {
      rs := [];
    } else {
      DropLast(u, v, qs);
      var u1, v1 := u[..|u| - 1], v[..|v| - 1];
      rs := DropSuffix(u1, v1, s - 1, qs[..|qs| - 1]);
      assert u1[..|u1| - (s - 1)] == u[..|u| - s] && v1[..|v1| - (s - 1)] == v[..|v| - s];
    }
  }

  /** The pairs of the middles of two files of n and m lines, with a common prefix and suffix put back. */
  ghost function Padded(p: nat, ps: seq<Pair>, s: nat, n: int, m: int): seq<Pair> {
    Diagonal(p) + Shift(ps, p, p) + Shift(Diagonal(s), n - s, m - s)
  }

  /** Pruning a common prefix and a common suffix never costs a match. */
  lemma PaddedIsLongest(u: seq<int>, v: seq<int>, p: nat, s: nat, ps: seq<Pair>)
    requires p + s <= |u| && p + s <= |v|
    requires u[..p] == v[..p] && u[|u| - s..] == v[|v| - s..]
    requires Longest(u[p..|u| - s], v[p..|v| - s], ps)
    ensures Longest(u, v, Padded(p, ps, s, |u|, |v|))
  {
    PaddedIsCommon(u, v, p, s, ps);
    forall qs: seq<Pair> | Common(u, v, qs)
      ensures |qs| <= p + |ps| + s
    {
      var ts := DropSuffix(u, v, s, qs);
      var u1, v1 := u[..|u| - s], v[..|v| - s];
      var rs := DropPrefix(u1, v1, p, ts);
      assert u1[p..] == u[p..|u| - s] && v1[p..] == v[p..|v| - s];
    }
  }

  lemma PaddedAt(p: nat, ps: seq<Pair>, s: nat, n: int, m: int, i: int)
    requires 0 <= i < p + |ps| + s
    ensures var ls := Padded(p, ps, s, n, m);
            && |ls| == p + |ps| + s
            && ls[i] == if i < p then Pair(i + 1, i + 1)
                        else if i < p + |ps| then Pair(ps[i - p].x + p, ps[i - p].y + p)
                        else Pair(i - p - |ps| + 1 + n - s, i - p - |ps| + 1 + m - s)
  {
  }

  lemma PaddedMates(u: seq<int>, v: seq<int>, p: nat, s: nat, ps: seq<Pair>, i: int)
    requires p + s <= |u| && p + s <= |v|
    requires u[..p] == v[..p] && u[|u| - s..] == v[|v| - s..]
    requires Common(u[p..|u| - s], v[p..|v| - s], ps)
    requires 0 <= i < p + |ps| + s
    ensures |Padded(p, ps, s, |u|, |v|)| == p + |ps| + s
    ensures Mates(u, v, Padded(p, ps, s, |u|, |v|)[i])
  {
    PaddedAt(p, ps, s, |u|, |v|, i);
    if i < p {
      assert u[i] == u[..p][i] == v[..p][i] == v[i];
    } else if i < p + |ps| {
      assert Mates(u[p..|u| - s], v[p..|v| - s], ps[i - p]);
    } else {
      var k := i - p - |ps|;
      assert u[|u| - s..][k] == v[|v| - s..][k];
    }
  }

  lemma PaddedIsCommon(u: seq<int>, v: seq<int>, p: nat, s: nat, ps: seq<Pair>)
    requires p + s <= |u| && p + s <= |v|
    requires u[..p] == v[..p] && u[|u| - s..] == v[|v| - s..]
    requires Common(u[p..|u| - s], v[p..|v| - s], ps)
    ensures Common(u, v, Padded(p, ps, s, |u|, |v|))
    ensures |Padded(p, ps, s, |u|, |v|)| == p + |ps| + s
  {
    var ls := Padded(p, ps, s, |u|, |v|);
    forall i | 0 <= i < |ls|
      ensures Mates(u, v, ls[i])
    {
      PaddedMates(u, v, p, s, ps, i);
    }
    forall i, j | 0 <= i < j < |ls|
      ensures ls[i].x < ls[j].x && ls[i].y < ls[j].y
    {
      PaddedAt(p, ps, s, |u|, |v|, i);
      PaddedAt(p, ps, s, |u|, |v|, j);
      if p <= i < p + |ps| {
        assert Mates(u[p..|u| - s], v[p..|v| - s], ps[i - p]);
      }
      if p <= j < p + |ps| {
        assert Mates(u[p..|u| - s], v[p..|v| - s], ps[j - p]);
      }
    }
  }
}
