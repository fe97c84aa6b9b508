/**
 * usr/src/cmd/diff.c from two files to a change script: readhash and prepare
 * hash the lines, DiffMatch mates them, check breaks mates that only hashed
 * alike, and DiffOutput writes the changes.
 */
module Diff {
  import opened DiffSpec
  import opened DiffMatch
  import opened DiffOutput
  import opened DiffEd

  const NEWLINE := 10
  const HALF := 0x1_0000
  const WORD := 0x1_0000_0000

  // ---- readhash ----

  function Pow2(k: nat): (r: nat)
    ensures r > 0
  {
    if k == 0 then 1 else 2 * Pow2(k - 1)
  }

  /** The running sum of readhash and its shift after the bytes of t. */
  datatype Sum = Sum(sum: nat, shift: nat)

  function Add(s: Sum, t: int): (r: Sum)
    requires t >= 0
    ensures r.sum < WORD
  {
    Sum((s.sum + t * Pow2(s.shift % 16)) % WORD, s.shift % 16 + 7)
  }

  function Summed(t: Text): (s: Sum)
    requires forall i :: 0 <= i < |t| ==> t[i] >= 0
    ensures s.sum < WORD
  {
    if t == [] then Sum(1, 0) else Add(Summed(t[..|t| - 1]), t[|t| - 1])
  }

  /** A 16-bit quantity read as a short. */
  function Short(x: int): int { if x >= HALF / 2 then x - HALF else x }

  /** The last two lines of readhash: the sum folded to 16 bits and its carry. */
  function Fold(sum: nat): int
    requires sum < WORD
  {
    var s := sum % HALF + sum / HALF + (if sum == 0 then 1 else 0);
    Short(s % HALF) + Short(s / HALF)
  }

  /** No complete line has the value 0, which marks the end of a file and the end of a class. */
  lemma FoldNonZero(sum: nat)
    requires sum < WORD
    ensures Fold(sum) != 0
  {
    var lo, hi := sum % HALF, sum / HALF;
    assert sum == hi * HALF + lo && lo < HALF && hi < HALF;
    var s := lo + hi + (if sum == 0 then 1 else 0);
    assert 1 <= s <= 2 * HALF - 2;
    if s < HALF {
      assert s % HALF == s && s / HALF == 0;
    } else {
      assert s % HALF == s - HALF && s / HALF == 1;
    }
  }

  ghost predicate IsLine(t: Text) {
    forall i :: 0 <= i < |t| ==> 0 <= t[i] <= 255 && t[i] != NEWLINE
  }

  ghost predicate Bytes(f: seq<int>) {
    forall i :: 0 <= i < |f| ==> 0 <= f[i] <= 255
  }

  function Hash(t: Text): int
    requires forall i :: 0 <= i < |t| ==> t[i] >= 0
  {
    Fold(Summed(t).sum)
  }

  /** Every byte is shifted by seven more than the one before it, modulo 16. */
  const WEIGHTS := [1, 128, 16384, 32, 4096, 8, 1024, 2, 256, 32768, 64, 8192, 16, 2048, 4, 512]

  function WeightOf(i: nat): int { WEIGHTS[i % 16] }

  function Weighted(t: Text): int { if t == [] then 0 else Weighted(t[..|t| - 1]) + t[|t| - 1] * WeightOf(|t| - 1) }

  /** A sum taken modulo 65535, from 1 on, as a number of 16 bits with a sign. */
  ghost predicate Folded(sum: int, h: int) {
    h % 65536 == (if sum == 0 then 1 else (sum - 1) % 65535 + 1) && -32768 <= h <= 32768
  }

  /** The value of a line comes from the weighted sum of its bytes in 32 bits. */
  lemma HashIs(t: Text)
    requires forall i :: 0 <= i < |t| ==> t[i] >= 0
    ensures Folded((1 + Weighted(t)) % 0x1_0000_0000, Hash(t))
  {
    hide Fold, Summed, Weighted, Folded;
    SummedIs(t);
    FoldIs(Summed(t).sum);
  }

  lemma {:induction false} SummedIs(t: Text)
    requires forall i :: 0 <= i < |t| ==> t[i] >= 0
    ensures Summed(t).sum == (1 + Weighted(t)) % WORD && Summed(t).shift % 16 == 7 * |t| % 16
  {
    hide Add, WeightOf;
    if t != [] {
      var m := |t| - 1;
      SummedIs(t[..m]);
      AddIs(Summed(t[..m]), t[m], m);
      hide Summed, Weighted;
      Wrapped(1 + Weighted(t[..m]), t[m] * WeightOf(m));
    }
  }

  lemma AddIs(s: Sum, c: int, m: nat)
    requires c >= 0 && s.shift % 16 == 7 * m % 16
    ensures Add(s, c).sum == (s.sum + c * WeightOf(m)) % WORD && Add(s, c).shift % 16 == 7 * (m + 1) % 16
  {
    Weight(m);
    Shifted(7 * m);
    hide Pow2, WeightOf;
  }

  lemma Shifted(x: nat)
    ensures (x % 16 + 7) % 16 == (x + 7) % 16
  {
  }

  lemma Weight(m: nat)
    ensures Pow2(7 * m % 16) == WeightOf(m)
  {
    hide Pow2;
    Sevens(m);
    PowersTwo();
  }

  lemma Sevens(m: nat)
    ensures 7 * m % 16 == 7 * (m % 16) % 16
  {
    var q, r := m / 16, m % 16;
    assert m == 16 * q + r;
    var u, x := 7 * r / 16, 7 * r % 16;
    assert 7 * r == 16 * u + x;
    Remains(7 * q + u, x);
  }

  lemma Remains(q: int, x: int)
    requires 0 <= x < 16
    ensures (16 * q + x) % 16 == x
  {
  }

  lemma PowersTwo()
    ensures forall r :: 0 <= r < 16 ==> Pow2(7 * r % 16) == WEIGHTS[r]
  {
    assert Pow2(0) == 1 && Pow2(1) == 2 && Pow2(2) == 4 && Pow2(3) == 8 && Pow2(4) == 16 && Pow2(5) == 32;
    assert Pow2(6) == 64 && Pow2(7) == 128 && Pow2(8) == 256 && Pow2(9) == 512 && Pow2(10) == 1024 && Pow2(11) == 2048;
    assert Pow2(12) == 4096 && Pow2(13) == 8192 && Pow2(14) == 16384 && Pow2(15) == 32768;
  }

  lemma Wrapped(x: int, y: int)
    ensures (x % WORD + y) % WORD == (x + y) % WORD
  {
  }

  lemma FoldIs(sum: nat)
    requires sum < WORD
    ensures Folded(sum, Fold(sum))
  {
    var lo, hi := sum % HALF, sum / HALF;
    var s := lo + hi + (if sum == 0 then 1 else 0);
    assert sum == 65535 * hi + (lo + hi) && 1 <= s <= 2 * HALF - 2;
    if s < HALF {
      assert s % HALF == s && s / HALF == 0;
      assert sum > 0 ==> sum - 1 == 65535 * hi + (s - 1);
    } else {
      assert s % HALF == s - HALF && s / HALF == 1;
      assert sum - 1 == 65535 * (hi + 1) + (s - HALF);
    }
  }

  /** readhash: the value of the line at pos, or 0 if no newline follows. */
  method ReadHash(f: seq<int>, pos: nat) returns (h: int, pos': nat)
    requires Bytes(f) && pos <= |f|
    ensures h == 0 ==> NEWLINE !in f[pos..]
    ensures h != 0 ==> && pos < pos' <= |f| && f[pos' - 1] == NEWLINE && IsLine(f[pos..pos' - 1])
                       && h == Hash(f[pos..pos' - 1])
  {
    hide Fold, Add, Pow2;
    var s := Sum(1, 0);
    pos' := pos;
    while pos' < |f| && f[pos'] != NEWLINE
      invariant pos <= pos' <= |f| && IsLine(f[pos..pos']) && Summed(f[pos..pos']) == s
    {
      assert f[pos..pos' + 1][..pos' - pos] == f[pos..pos'];
      s := Add(s, f[pos']);
      pos' := pos' + 1;
    }
    if pos' == |f| {
      assert f[pos..] == f[pos..pos'];
      return 0, pos';
    }
    FoldNonZero(s.sum);
    h := Fold(s.sum);
    pos' := pos' + 1;
  }

  // ---- prepare ----

  /** The lines with their newlines, end to end. */
  ghost function Joined(ls: seq<Text>): seq<int> {
    if ls == [] then [] else Joined(ls[..|ls| - 1]) + ls[|ls| - 1] + [NEWLINE]
  }

  /** ls are the lines of the file f; what follows the last newline is not one. */
  ghost predicate LinesOf(f: seq<int>, ls: seq<Text>) {
    && (forall i :: 0 <= i < |ls| ==> IsLine(ls[i]))
    && Joined(ls) <= f && NEWLINE !in f[|Joined(ls)|..]
  }

  ghost predicate Hashes(vs: seq<int>, ls: seq<Text>) {
    && |vs| == |ls|
    && forall i :: 0 <= i < |ls| ==> IsLine(ls[i]) && vs[i] == Hash(ls[i]) && vs[i] != 0
  }

  /** prepare: the values of the lines of a file. */
  method Prepare(f: seq<int>) returns (vs: seq<int>, ls: seq<Text>)
    requires Bytes(f)
    ensures LinesOf(f, ls) && Hashes(vs, ls)
  {
    vs, ls := [], [];
    var pos := 0;
    assert f[..0] == [];
    while true
      invariant 0 <= pos <= |f| && Joined(ls) == f[..pos] && Hashes(vs, ls)
      decreases |f| - pos
    {
      var h, end := ReadHash(f, pos);
      if h == 0 {
        break;
      }
      var t := f[pos..end - 1];
      assert (ls + [t])[..|ls|] == ls;
      assert f[..end] == f[..pos] + t + [NEWLINE];
      vs, ls, pos := vs + [h], ls + [t], end;
    }
  }

  // ---- check ----

  /** J has the mates of J0 whose lines agree, and no others. */
  ghost predicate Kept(J: seq<int>, J0: seq<int>, old_: seq<Text>, new_: seq<Text>) {
    && |J| == |J0| == |old_| + 2
    && forall x :: 1 <= x <= |old_| ==>
         && 0 <= J0[x] <= |new_|
         && J[x] == if J0[x] != 0 && old_[x - 1] == new_[J0[x] - 1] then J0[x] else 0
  }

  /** check: mates whose lines differ are parted, and all others stay. */
  method Check(J: array<int>, old_: seq<Text>, new_: seq<Text>, ghost us: seq<int>, ghost vs: seq<int>, ghost ps: seq<Pair>)
    requires J.Length == |old_| + 2 && Hashes(us, old_) && Hashes(vs, new_)
    requires Common(us, vs, ps) && Records(J[..], |old_|, ps)
    modifies J
    ensures Pairs(J[..], old_, new_) && Kept(J[..], old(J[..]), old_, new_)
    ensures old_ == new_ && (forall x :: 1 <= x <= |old_| ==> old(J[x]) == x) ==>
              forall x :: 1 <= x <= |old_| ==> J[x] == x
  {
    hide Records, Common, Hashes, Pairs;
    ghost var J0 := J[..];
    HashesLength(us, old_);
    HashesLength(vs, new_);
    RecordsIncrease(J0, us, vs, ps);
    var i := 1;
    while i <= |old_|
      invariant 1 <= i <= |old_| + 1
      invariant forall x :: 1 <= x < i ==> J[x] == if J0[x] != 0 && old_[x - 1] == new_[J0[x] - 1] then J0[x] else 0
      invariant forall x :: i <= x <= |old_| ==> J[x] == J0[x]
    {
      if J[i] != 0 && old_[i - 1] != new_[J[i] - 1] {
        J[i] := 0;
      }
      i := i + 1;
    }
    Checked(J[..], J0, old_, new_);
  }

  lemma HashesLength(vs: seq<int>, ls: seq<Text>)
    requires Hashes(vs, ls)
    ensures |vs| == |ls|
  {
  }

  lemma Checked(J: seq<int>, J0: seq<int>, old_: seq<Text>, new_: seq<Text>)
    requires |J| == |J0| == |old_| + 2
    requires forall x, y :: 1 <= x < y <= |old_| && J0[x] != 0 && J0[y] != 0 ==> J0[x] < J0[y]
    requires forall x :: 1 <= x <= |old_| && J0[x] != 0 ==> 1 <= J0[x] <= |new_|
    requires forall x :: 1 <= x <= |old_| ==> J[x] == if J0[x] != 0 && old_[x - 1] == new_[J0[x] - 1] then J0[x] else 0
    ensures Pairs(J, old_, new_) && Kept(J, J0, old_, new_)
  {
  }

  lemma RecordsIncrease(J: seq<int>, u: seq<int>, v: seq<int>, ps: seq<Pair>)
    requires Common(u, v, ps) && Records(J, |u|, ps)
    ensures forall x, y :: 1 <= x < y <= |u| && J[x] != 0 && J[y] != 0 ==> J[x] < J[y]
    ensures forall x :: 1 <= x <= |u| && J[x] != 0 ==> 1 <= J[x] <= |v|
  {
    forall x | 1 <= x <= |u| && J[x] != 0
      ensures 1 <= J[x] <= |v|
    {
      var k :| 0 <= k < |ps| && ps[k] == Pair(x, J[x]);
      assert Mates(u, v, ps[k]);
    }
    forall x, y | 1 <= x < y <= |u| && J[x] != 0 && J[y] != 0
      ensures J[x] < J[y]
    {
      var k :| 0 <= k < |ps| && ps[k] == Pair(x, J[x]);
      var l :| 0 <= l < |ps| && ps[l] == Pair(y, J[y]);
      assert k < l;
    }
  }

  /** A longest common subsequence of a file and itself mates every line with itself. */
  lemma SameIsDiagonal(J: seq<int>, u: seq<int>, ps: seq<Pair>)
    requires Longest(u, u, ps) && Records(J, |u|, ps)
    ensures forall x :: 1 <= x <= |u| ==> J[x] == x
  {
    var ds := Diagonal(|u|);
    assert Common(u, u, ds);
    assert |ds| <= |ps|;
    forall k | 0 <= k < |u|
      ensures ps[k] == Pair(k + 1, k + 1)
    {
      Crowded(u, ps, k);
    }
    forall x | 1 <= x <= |u|
      ensures J[x] == x
    {
      assert J[ps[x - 1].x] == ps[x - 1].y;
    }
  }

  lemma {:induction false} CrowdedBelow(u: seq<int>, ps: seq<Pair>, k: int)
    requires Common(u, u, ps) && 0 <= k < |ps|
    ensures ps[k].x >= k + 1 && ps[k].y >= k + 1
  {
    if k > 0 {
      CrowdedBelow(u, ps, k - 1);
    } else {
      assert Mates(u, u, ps[0]);
    }
  }

  lemma {:induction false} Crowded(u: seq<int>, ps: seq<Pair>, k: int)
    requires Common(u, u, ps) && |ps| >= |u| && 0 <= k < |u|
    ensures ps[k] == Pair(k + 1, k + 1)
    decreases |u| - k
  {
    CrowdedBelow(u, ps, k);
    assert Mates(u, u, ps[k]);
    if k + 1 < |u| {
      Crowded(u, ps, k + 1);
    }
  }

  // ---- how little is changed ----

  /** qs pairs equal lines of the two files, in increasing order. */
  ghost predicate CommonLines(old_: seq<Text>, new_: seq<Text>, qs: seq<Pair>) {
    && Increasing(qs)
    && forall k :: 0 <= k < |qs| ==> 1 <= qs[k].x <= |old_| && 1 <= qs[k].y <= |new_| && old_[qs[k].x - 1] == new_[qs[k].y - 1]
  }

  /** The value of a line. */
  ghost function ValueOf(t: Text): int { if IsLine(t) then Hash(t) else 0 }

  /** No line of one file has the value of a different line of the other. */
  ghost predicate NoClash(old_: seq<Text>, new_: seq<Text>) {
    forall i, j :: 0 <= i < |old_| && 0 <= j < |new_| && ValueOf(old_[i]) == ValueOf(new_[j]) ==> old_[i] == new_[j]
  }

  lemma ValueAt(vs: seq<int>, ls: seq<Text>, i: int)
    requires Hashes(vs, ls) && 0 <= i < |ls|
    ensures |vs| == |ls| && vs[i] == ValueOf(ls[i])
  {
    hide Hash, IsLine;
  }

  /** The old lines that no change touches. */
  ghost function Untouched(cs: seq<Change>, m: int): set<int> { set x | 1 <= x <= m && !Touched(cs, x) }

  /** The untouched lines are those of the pairs in ps whose lines agree. */
  ghost predicate KeepsMates(cs: seq<Change>, old_: seq<Text>, new_: seq<Text>, ps: seq<Pair>) {
    && (forall k :: 0 <= k < |ps| ==> 1 <= ps[k].x <= |old_| && 1 <= ps[k].y <= |new_|)
    && forall x :: x in Untouched(cs, |old_|) <==>
         exists k :: 0 <= k < |ps| && ps[k].x == x && old_[x - 1] == new_[ps[k].y - 1]
  }

  lemma TouchedMates(cs: seq<Change>, J: seq<int>, J0: seq<int>, old_: seq<Text>, new_: seq<Text>,
                     us: seq<int>, vs: seq<int>, ps: seq<Pair>)
    requires |us| == |old_| && |vs| == |new_| && Common(us, vs, ps) && Records(J0, |old_|, ps)
    requires Kept(J, J0, old_, new_) && TouchesRest(cs, J, |old_|)
    ensures KeepsMates(cs, old_, new_, ps)
  {
    hide Touched;
    forall k | 0 <= k < |ps|
      ensures 1 <= ps[k].x <= |old_| && 1 <= ps[k].y <= |new_| && J0[ps[k].x] == ps[k].y
    {
      assert Mates(us, vs, ps[k]);
    }
    forall x
      ensures x in Untouched(cs, |old_|) <==> exists k :: 0 <= k < |ps| && ps[k].x == x && old_[x - 1] == new_[ps[k].y - 1]
    {
      if x in Untouched(cs, |old_|) {
        assert J[x] != 0 && J[x] == J0[x];
        var k :| 0 <= k < |ps| && ps[k] == Pair(x, J0[x]);
      }
      if k :| 0 <= k < |ps| && ps[k].x == x && old_[x - 1] == new_[ps[k].y - 1] {
        assert J0[x] == ps[k].y && J[x] == J0[x];
      }
    }
  }

  /** As many lines as there are pairs. */
  lemma {:induction false} FirstsCount(ps: seq<Pair>, s: set<int>)
    requires Increasing(ps) && forall x :: x in s <==> exists k :: 0 <= k < |ps| && ps[k].x == x
    ensures |s| == |ps|
  {
    if ps == [] {
      assert s == {};
    } else {
      var m := |ps| - 1;
      var t := s - {ps[m].x};
      forall x
        ensures x in t <==> exists k :: 0 <= k < m && ps[..m][k].x == x
      {
        if x in t {
          var k :| 0 <= k < |ps| && ps[k].x == x;
          assert k < m && ps[..m][k].x == x;
        }
        if k :| 0 <= k < m && ps[..m][k].x == x {
          assert ps[k].x == x && ps[k].x < ps[m].x;
        }
      }
      FirstsCount(ps[..m], t);
      assert s == t + {ps[m].x};
    }
  }

  /** If different lines have different values, no increasing pairing of equal lines has more lines than are untouched. */
  lemma FewestTouched(cs: seq<Change>, old_: seq<Text>, new_: seq<Text>, us: seq<int>, vs: seq<int>, ps: seq<Pair>, qs: seq<Pair>)
    requires Hashes(us, old_) && Hashes(vs, new_) && Longest(us, vs, ps) && KeepsMates(cs, old_, new_, ps)
    requires NoClash(old_, new_) && CommonLines(old_, new_, qs)
    ensures |qs| <= |Untouched(cs, |old_|)|
  {
    hide ValueOf, Untouched, Hashes;
    HashesLength(us, old_);
    HashesLength(vs, new_);
    forall k | 0 <= k < |qs|
      ensures Mates(us, vs, qs[k])
    {
      ValueAt(us, old_, qs[k].x - 1);
      ValueAt(vs, new_, qs[k].y - 1);
    }
    assert Common(us, vs, qs);
    forall k | 0 <= k < |ps|
      ensures old_[ps[k].x - 1] == new_[ps[k].y - 1]
    {
      assert Mates(us, vs, ps[k]);
      ValueAt(us, old_, ps[k].x - 1);
      ValueAt(vs, new_, ps[k].y - 1);
    }
    forall x
      ensures x in Untouched(cs, |old_|) <==> exists k :: 0 <= k < |ps| && ps[k].x == x
    {
      if k :| 0 <= k < |ps| && ps[k].x == x {
        assert old_[x - 1] == new_[ps[k].y - 1];
      }
    }
    FirstsCount(ps, Untouched(cs, |old_|));
  }

  // ---- main ----

  /**
   * diff on two files: forward changes, or with ed editor commands. Either
   * way they turn the old lines into the new ones, and there are none exactly
   * when the lines agree. They leave alone the lines that a longest match of
   * the values pairs with equal lines; and if different lines have different
   * values, no increasing pairing of equal lines leaves more alone.
   */
  method Compare(f0: seq<int>, f1: seq<int>, ed: bool)
    returns (cs: seq<Change>, old_: seq<Text>, new_: seq<Text>, ghost us: seq<int>, ghost vs: seq<int>, ghost ps: seq<Pair>)
    requires Bytes(f0) && Bytes(f1)
    ensures LinesOf(f0, old_) && LinesOf(f1, new_)
    ensures !ed ==> InOrder(cs, |old_|, |new_|) && Patched(old_, new_, cs) == new_
    ensures ed ==> Edited(old_, new_, cs, new_) && Proper(cs, |new_|)
    ensures ed ==> (Listen(Printed(cs, new_)) == Script(Meant(cs, new_), []) <==> NoDot(cs, new_))
    ensures cs == [] <==> old_ == new_
    ensures Hashes(us, old_) && Hashes(vs, new_) && Longest(us, vs, ps) && KeepsMates(cs, old_, new_, ps)
    ensures NoClash(old_, new_) ==> forall qs :: CommonLines(old_, new_, qs) ==> |qs| <= |Untouched(cs, |old_|)|
  {
    hide LinesOf, Patched, Edited, Pairs, Records, Longest, Listen, Printed, Meant, NoDot, Proper;
    hide Hashes, KeepsMates, Untouched, CommonLines, TouchesRest, Kept, NoClash;
    var us0, vs0;
    us0, old_ := Prepare(f0);
    vs0, new_ := Prepare(f1);
    us, vs := us0, vs0;
    HashesLength(us, old_);
    HashesLength(vs, new_);
    HashesSame(us, vs, old_, new_);
    var J;
    J, ps := Match(us0, vs0);
    ghost var J0 := J[..];
    LongestIsCommon(us, vs, ps);
    if us == vs {
      SameIsDiagonal(J[..], us, ps);
      assert forall x :: 1 <= x <= |us| ==> J[x] == J[..][x] == x;
    }
    Check(J, old_, new_, us, vs, ps);
    ghost var J1 := J[..];
    if ed {
      cs := OutputEd(J, old_, new_);
      HeardIff(cs, new_);
    } else {
      cs := OutputForward(J, old_, new_);
    }
    NoChanges(old_, new_);
    TouchedMates(cs, J1, J0, old_, new_, us, vs, ps);
    if NoClash(old_, new_) {
      forall qs | CommonLines(old_, new_, qs)
        ensures |qs| <= |Untouched(cs, |old_|)|
      {
        FewestTouched(cs, old_, new_, us, vs, ps, qs);
      }
    }
  }

  lemma HashesSame(us: seq<int>, vs: seq<int>, old_: seq<Text>, new_: seq<Text>)
    requires Hashes(us, old_) && Hashes(vs, new_)
    ensures old_ == new_ ==> us == vs
    ensures forall i :: 0 <= i < |vs| ==> vs[i] != 0
  {
  }

  lemma LongestIsCommon(u: seq<int>, v: seq<int>, ps: seq<Pair>)
    requires Longest(u, v, ps)
    ensures Common(u, v, ps)
  {
  }

  lemma NoChanges(old_: seq<Text>, new_: seq<Text>)
    ensures InOrder([], |old_|, |new_|) && Patched(old_, new_, []) == old_
    ensures Edited(old_, new_, [], new_) ==> old_ == new_
  {
  }
}
