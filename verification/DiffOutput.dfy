/**
 * From the match vector J to the change script: output and change of
 * usr/src/cmd/diff.c. A script is the list of the changes that are printed.
 */
module DiffOutput {

  /** The bytes of a line, without its newline. */
  type Text = seq<int>

  /** Lines a..b of the old file give way to lines c..d of the new one; a == b + 1 or c == d + 1 is an empty range. */
  datatype Change = Change(a: int, b: int, c: int, d: int)

  /** The nonzero entries of J[1..|old|] increase and pair equal lines. */
  ghost predicate Pairs(J: seq<int>, old_: seq<Text>, new_: seq<Text>) {
    && |old_| < |J|
    && (forall x, y :: 1 <= x < y <= |old_| && J[x] != 0 && J[y] != 0 ==> J[x] < J[y])
    && (forall x :: 1 <= x <= |old_| && J[x] != 0 ==>
          1 <= J[x] <= |new_| && old_[x - 1] == new_[J[x] - 1])
  }

  // ---- what scripts mean ----

  /** The line of the old file after which nothing has been changed yet. */
  ghost function End(cs: seq<Change>): int {
    if cs == [] then 0 else cs[|cs| - 1].b
  }

  /** The changes come in the order of the lines, and every range exists. */
  ghost predicate InOrder(cs: seq<Change>, n: nat, m: nat)
    ensures InOrder(cs, n, m) ==> 0 <= End(cs) <= n
  {
    cs == [] ||
    var c, ds := cs[|cs| - 1], cs[..|cs| - 1];
    InOrder(ds, n, m) && End(ds) < c.a <= c.b + 1 <= n + 1 && 1 <= c.c <= c.d + 1 <= m + 1
  }

  /** The new text up to the end of the last change. */
  ghost function Built(old_: seq<Text>, new_: seq<Text>, cs: seq<Change>): seq<Text>
    requires InOrder(cs, |old_|, |new_|)
  {
    if cs == [] then [] else
    var c, ds := cs[|cs| - 1], cs[..|cs| - 1];
    Built(old_, new_, ds) + old_[End(ds)..c.a - 1] + new_[c.c - 1..c.d]
  }

  /** The old file with all changes made, their line numbers being those of the old file. */
  ghost function Patched(old_: seq<Text>, new_: seq<Text>, cs: seq<Change>): seq<Text>
    requires InOrder(cs, |old_|, |new_|)
  {
    Built(old_, new_, cs) + old_[End(cs)..]
  }

  ghost predicate Fits(c: Change, n: int, m: int) {
    1 <= c.a <= c.b + 1 <= n + 1 && 1 <= c.c <= c.d + 1 <= m + 1
  }

  /** One editor command: lines a..b of the buffer are replaced. */
  ghost function Edit(buf: seq<Text>, new_: seq<Text>, c: Change): seq<Text>
    requires Fits(c, |buf|, |new_|)
  {
    buf[..c.a - 1] + new_[c.c - 1..c.d] + buf[c.b..]
  }

  /** buf is what an editor is left with after the commands cs, line numbers being those of the buffer at the time. */
  ghost predicate Edited(old_: seq<Text>, new_: seq<Text>, cs: seq<Change>, buf: seq<Text>) {
    if cs == [] then buf == old_ else
    exists b :: Edited(old_, new_, cs[..|cs| - 1], b)
                && Fits(cs[|cs| - 1], |b|, |new_|) && buf == Edit(b, new_, cs[|cs| - 1])
  }

  /** Old line x gives way in one of the changes. */
  ghost predicate Touched(cs: seq<Change>, x: int) { exists k :: 0 <= k < |cs| && cs[k].a <= x <= cs[k].b }

  /** The changes touch exactly the old lines that J pairs with none. */
  ghost predicate TouchesRest(cs: seq<Change>, J: seq<int>, m: int) {
    m < |J| && forall x :: 1 <= x <= m ==> (Touched(cs, x) <==> J[x] == 0)
  }

  // ---- output ----

  /** change: nothing is printed for an empty change. */
  function Emit(cs: seq<Change>, a: int, b: int, c: int, d: int): seq<Change> {
    if a > b && c > d then cs else cs + [Change(a, b, c, d)]
  }

  /** Every change has a range of new lines and is not empty on both sides. */
  ghost predicate Proper(cs: seq<Change>, m: int) {
    forall k :: 0 <= k < |cs| ==> 1 <= cs[k].c <= cs[k].d + 1 <= m + 1 && !(cs[k].a > cs[k].b && cs[k].c > cs[k].d)
  }

  lemma EmitProper(cs: seq<Change>, m: int, a: int, b: int, c: int, d: int)
    requires Proper(cs, m) && 1 <= c <= d + 1 <= m + 1
    ensures Proper(Emit(cs, a, b, c, d), m)
  {
  }

  lemma {:induction false} BuiltAppend(old_: seq<Text>, new_: seq<Text>, cs: seq<Change>, c: Change)
    requires InOrder(cs, |old_|, |new_|)
    requires End(cs) < c.a <= c.b + 1 <= |old_| + 1 && 1 <= c.c <= c.d + 1 <= |new_| + 1
    ensures InOrder(cs + [c], |old_|, |new_|) && End(cs + [c]) == c.b
    ensures Built(old_, new_, cs + [c]) == Built(old_, new_, cs) + old_[End(cs)..c.a - 1] + new_[c.c - 1..c.d]
  {
    assert (cs + [c])[..|cs|] == cs;
  }

  /** The script so far accounts for the first i old lines and the first w new ones. */
  ghost predicate Forward(old_: seq<Text>, new_: seq<Text>, cs: seq<Change>, i: int, w: int) {
    && InOrder(cs, |old_|, |new_|)
    && End(cs) <= i <= |old_| && 0 <= w <= |new_|
    && Built(old_, new_, cs) + old_[End(cs)..i] == new_[..w]
  }

  lemma {:induction false} ForwardSame(old_: seq<Text>, new_: seq<Text>, cs: seq<Change>, i: int, w: int)
    requires Forward(old_, new_, cs, i, w) && i < |old_| && w < |new_| && old_[i] == new_[w]
    ensures Forward(old_, new_, cs, i + 1, w + 1)
  {
    hide InOrder, Built, End;
    var e := End(cs);
    var b := Built(old_, new_, cs);
    assert old_[e..i + 1] == old_[e..i] + [old_[i]];
    assert new_[..w + 1] == new_[..w] + [new_[w]];
    assert b + old_[e..i + 1] == b + old_[e..i] + [old_[i]];
  }

  lemma {:induction false} ForwardChange(old_: seq<Text>, new_: seq<Text>, cs: seq<Change>, i: int, w: int, i1: int, j1: int)
    requires Forward(old_, new_, cs, i, w) && i <= i1 <= |old_| && w <= j1 <= |new_|
    ensures Forward(old_, new_, Emit(cs, i + 1, i1, w + 1, j1), i1, j1)
  {
    hide InOrder, Built;
    if i < i1 || w < j1 {
      var c := Change(i + 1, i1, w + 1, j1);
      BuiltAppend(old_, new_, cs, c);
      hide End;
      var b := Built(old_, new_, cs + [c]);
      assert b == new_[..w] + new_[w..j1] == new_[..j1];
      assert old_[i1..i1] == [] && b + [] == b;
    }
  }

  lemma ForwardEnd(old_: seq<Text>, new_: seq<Text>, cs: seq<Change>)
    requires Forward(old_, new_, cs, |old_|, |new_|)
    ensures InOrder(cs, |old_|, |new_|) && Patched(old_, new_, cs) == new_
  {
    assert old_[End(cs)..|old_|] == old_[End(cs)..];
    assert new_[..|new_|] == new_;
  }

  lemma ForwardStart(old_: seq<Text>, new_: seq<Text>)
    ensures Forward(old_, new_, [], 0, 0)
  {
  }

  /** The changes so far are before line i, and touch exactly those lines before it that J pairs with none. */
  ghost predicate Marked(cs: seq<Change>, J: seq<int>, i: int) {
    && 1 <= i <= |J|
    && (forall k :: 0 <= k < |cs| ==> cs[k].b < i)
    && (forall x :: 1 <= x < i ==> (Touched(cs, x) <==> J[x] == 0))
  }

  lemma MarkedSame(cs: seq<Change>, J: seq<int>, i: int)
    requires Marked(cs, J, i) && i < |J| && J[i] != 0
    ensures Marked(cs, J, i + 1)
  {
  }

  lemma MarkedChange(cs: seq<Change>, J: seq<int>, i: int, k: int, c: int, d: int)
    requires Marked(cs, J, i) && i - 1 <= k < |J| && forall x :: i <= x <= k ==> J[x] == 0
    ensures Marked(Emit(cs, i, k, c, d), J, k + 1)
  {
    var cs' := Emit(cs, i, k, c, d);
    TouchedMore(cs, i, k, c, d);
    hide Emit, Touched;
  }

  lemma TouchedMore(cs: seq<Change>, a: int, b: int, c: int, d: int)
    ensures forall x :: Touched(Emit(cs, a, b, c, d), x) <==> Touched(cs, x) || a <= x <= b
    ensures forall k :: 0 <= k < |Emit(cs, a, b, c, d)| ==> Emit(cs, a, b, c, d)[k] in cs || Emit(cs, a, b, c, d)[k] == Change(a, b, c, d)
  {
    var cs' := Emit(cs, a, b, c, d);
    forall x
      ensures Touched(cs', x) <==> Touched(cs, x) || a <= x <= b
    {
      if Touched(cs, x) {
        var k :| 0 <= k < |cs| && cs[k].a <= x <= cs[k].b;
        assert cs'[k] == cs[k];
      }
      if a <= x <= b {
        assert cs'[|cs|] == Change(a, b, c, d);
      }
    }
  }

  /** What the loop of output keeps: entries from i on are still those of the match J0. */
  ghost predicate Ready(J: seq<int>, J0: seq<int>, old_: seq<Text>, new_: seq<Text>, cs: seq<Change>, i: int) {
    && |J| == |J0| == |old_| + 2 && 1 <= i <= |old_| + 1
    && Pairs(J0, old_, new_)
    && J[|old_| + 1] == |new_| + 1
    && (forall x :: i <= x <= |old_| ==> J[x] == J0[x])
    && (forall x :: i <= x <= |old_| && J[x] != 0 ==> J[i - 1] < J[x])
    && Forward(old_, new_, cs, i - 1, J[i - 1])
    && Marked(cs, J0, i)
  }

  /** Matched lines that follow on both sides are passed over. */
  lemma {:induction false} ReadySame(J: seq<int>, J0: seq<int>, old_: seq<Text>, new_: seq<Text>, cs: seq<Change>, i: int)
    requires Ready(J, J0, old_, new_, cs, i) && i <= |old_| && J[i] == J[i - 1] + 1
    ensures Ready(J, J0, old_, new_, cs, i + 1)
  {
    hide InOrder, Built, Marked;
    ForwardSame(old_, new_, cs, i - 1, J[i - 1]);
    MarkedSame(cs, J0, i);
  }

  /** Unmatched lines i..k, up to the next match, make one change. */
  lemma {:induction false} ReadyChange(J: seq<int>, J0: seq<int>, old_: seq<Text>, new_: seq<Text>, cs: seq<Change>,
                                       i: int, k: int)
    requires Ready(J, J0, old_, new_, cs, i) && i - 1 <= k <= |old_|
    requires (forall x :: i <= x <= k ==> J[x] == 0) && (k < |old_| ==> J[k + 1] != 0)
    ensures var j := J[k + 1] - 1;
            && J[i - 1] <= j
            && Ready(J[k := j], J0, old_, new_, Emit(cs, i, k, J[i - 1] + 1, j), k + 1)
  {
    hide InOrder, Built, Marked;
    var j := J[k + 1] - 1;
    MarkedChange(cs, J0, i, k, J[i - 1] + 1, j);
    ForwardChange(old_, new_, cs, i - 1, J[i - 1], k, j);
    var J' := J[k := j];
    forall x | k + 1 <= x <= |old_| && J'[x] != 0
      ensures j < J'[x]
    {
      assert J0[k + 1] != 0 && J0[x] != 0;
    }
  }

  /** The loop over unmatched lines, upwards. */
  method ZerosUp(J: array<int>, m: int, i0: int) returns (i1: int)
    requires 1 <= i0 <= m + 1 < J.Length
    ensures i0 - 1 <= i1 <= m && (forall x :: i0 <= x <= i1 ==> J[x] == 0) && (i1 < m ==> J[i1 + 1] != 0)
  {
    i1 := i0 - 1;
    while i1 < m && J[i1 + 1] == 0
      invariant i0 - 1 <= i1 <= m && forall x :: i0 <= x <= i1 ==> J[x] == 0
    {
      i1 := i1 + 1;
    }
  }

  /** The loop over unmatched lines, downwards. */
  method ZerosDown(J: array<int>, i0: int) returns (i1: int)
    requires 0 <= i0 && i0 + 1 < J.Length
    ensures 1 <= i1 <= i0 + 1 && (forall x :: i1 <= x <= i0 ==> J[x] == 0) && (i1 > 1 ==> J[i1 - 1] != 0)
  {
    i1 := i0 + 1;
    while i1 > 1 && J[i1 - 1] == 0
      invariant 1 <= i1 <= i0 + 1 && forall x :: i1 <= x <= i0 ==> J[x] == 0
    {
      i1 := i1 - 1;
    }
  }

  /** The files agree line for line. */
  ghost predicate Agree(J: seq<int>, m: int, n: int) { m == n && m < |J| && forall x :: 1 <= x <= m ==> J[x] == x }

  /** The loop over matched lines, upwards. */
  method SkipUp(J: array<int>, m: int, i: int, ghost J0: seq<int>, ghost old_: seq<Text>, ghost new_: seq<Text>, ghost cs: seq<Change>)
    returns (i0: int)
    requires J.Length == |old_| + 2 && m == |old_| && 1 <= i <= m && Ready(J[..], J0, old_, new_, cs, i)
    requires Agree(J0, m, |new_|) ==> J[i - 1] == i - 1
    ensures i <= i0 <= m + 1 && Ready(J[..], J0, old_, new_, cs, i0) && (i0 <= m ==> J[i0] != J[i0 - 1] + 1)
    ensures Agree(J0, m, |new_|) ==> i0 == m + 1 && J[m] == m
  {
    hide Ready, Agree;
    i0 := i;
    while i0 <= m && J[i0] == J[i0 - 1] + 1
      invariant i <= i0 <= m + 1 && Ready(J[..], J0, old_, new_, cs, i0)
      invariant Agree(J0, m, |new_|) ==> J[i0 - 1] == i0 - 1
    {
      ReadySame(J[..], J0, old_, new_, cs, i0);
      i0 := i0 + 1;
    }
    AgreeAt(J[..], J0, old_, new_, cs, i0);
  }

  lemma AgreeAt(J: seq<int>, J0: seq<int>, old_: seq<Text>, new_: seq<Text>, cs: seq<Change>, i: int)
    requires Ready(J, J0, old_, new_, cs, i)
    ensures Agree(J0, |old_|, |new_|) && 1 <= i <= |old_| ==> J[i] == i
  {
  }

  /** One turn of the loop of output: the matched lines, and the change after them. */
  method ForwardStep(J: array<int>, old_: seq<Text>, new_: seq<Text>, i: int, cs: seq<Change>, ghost J0: seq<int>)
    returns (next: int, cs': seq<Change>)
    requires J.Length == |old_| + 2 && 1 <= i <= |old_| && Ready(J[..], J0, old_, new_, cs, i)
    requires Agree(J0, |old_|, |new_|) ==> J[i - 1] == i - 1
    modifies J
    ensures i < next <= |old_| + 1 || (next == i && old(J[i - 1]) + 1 != old(J[i]))
    ensures 1 <= next <= |old_| + 1 && Ready(J[..], J0, old_, new_, cs', next) && (next == |old_| + 1 ==> J[|old_|] == |new_|)
    ensures next <= |old_| ==> J[next] == J[next - 1] + 1
    ensures Agree(J0, |old_|, |new_|) ==> cs' == cs && J[next - 1] == next - 1
  {
    hide Ready, Agree, Marked, Forward, Pairs, Touched, InOrder, Built;
    var m := |old_|;
    var i0 := SkipUp(J, m, i, J0, old_, new_, cs);
    var j0 := J[i0 - 1] + 1;
    var i1 := ZerosUp(J, m, i0);
    var j1 := J[i1 + 1] - 1;
    ReadyFacts(J[..], J0, old_, new_, cs, i0);
    AgreeSize(J0, m, |new_|);
    ReadyChange(J[..], J0, old_, new_, cs, i0, i1);
    ghost var J1 := J[..];
    J[i1] := j1;
    assert J[..] == J1[i1 := j1];
    cs' := Emit(cs, i0, i1, j0, j1);
    next := i1 + 1;
  }

  /** output without -e: the changes in the order of the lines. */
  method OutputForward(J: array<int>, old_: seq<Text>, new_: seq<Text>) returns (cs: seq<Change>)
    requires J.Length == |old_| + 2 && Pairs(J[..], old_, new_)
    modifies J
    ensures InOrder(cs, |old_|, |new_|) && Patched(old_, new_, cs) == new_ && TouchesRest(cs, old(J[..]), |old_|)
    ensures Agree(old(J[..]), |old_|, |new_|) ==> cs == []
  {
    hide Ready, Forward, InOrder, Built, Patched, Pairs, Agree, Marked, Touched;
    var m := |old_|;
    ghost var J0 := J[..];
    J[0] := 0;
    J[m + 1] := |new_| + 1;
    cs := [];
    ReadyStart(J[..], J0, old_, new_);
    AgreeSize(J0, m, |new_|);
    var i0 := 1;
    while i0 <= m
      invariant 1 <= i0 <= m + 1 && Ready(J[..], J0, old_, new_, cs, i0)
      invariant i0 == m + 1 && m > 0 ==> J[m] == |new_|
      invariant Agree(J0, m, |new_|) ==> cs == [] && J[i0 - 1] == i0 - 1
      decreases m + 1 - i0, if J[i0] == J[i0 - 1] + 1 then 0 else 1
    {
      i0, cs := ForwardStep(J, old_, new_, i0, cs, J0);
    }
    if m == 0 {
      ForwardStart(old_, new_);
      ForwardChange(old_, new_, [], 0, 0, 0, |new_|);
      cs := Emit([], 1, 0, 1, |new_|);
    } else {
      ReadyFacts(J[..], J0, old_, new_, cs, i0);
      MarkedAll(cs, J0, m);
    }
    ForwardEnd(old_, new_, cs);
  }

  lemma MarkedAll(cs: seq<Change>, J: seq<int>, m: int)
    requires Marked(cs, J, m + 1) && m < |J|
    ensures TouchesRest(cs, J, m)
  {
    hide Touched;
  }

  lemma AgreeSize(J: seq<int>, m: int, n: int)
    ensures Agree(J, m, n) ==> m == n
  {
  }

  lemma ReadyStart(J: seq<int>, J0: seq<int>, old_: seq<Text>, new_: seq<Text>)
    requires |J0| == |old_| + 2 && Pairs(J0, old_, new_) && J == J0[0 := 0][|old_| + 1 := |new_| + 1]
    ensures Ready(J, J0, old_, new_, [], 1)
  {
    ForwardStart(old_, new_);
  }

  lemma ReadyFacts(J: seq<int>, J0: seq<int>, old_: seq<Text>, new_: seq<Text>, cs: seq<Change>, i: int)
    requires Ready(J, J0, old_, new_, cs, i)
    ensures J[|old_| + 1] == |new_| + 1 && Forward(old_, new_, cs, i - 1, J[i - 1]) && Marked(cs, J0, i)
    ensures forall x :: i <= x <= |old_| ==> J[x] == J0[x]
  {
  }

  // ---- output -e ----

  /** What the -e loop keeps: the buffer is the first i old lines and then the new lines from the one after them on. */
  ghost predicate EdReady(J: seq<int>, J0: seq<int>, old_: seq<Text>, new_: seq<Text>, buf: seq<Text>, i: int) {
    && |J| == |J0| == |old_| + 2 && 0 <= i <= |old_|
    && Pairs(J0, old_, new_)
    && J[0] == 0 && 1 <= J[i + 1] <= |new_| + 1
    && (forall x :: 1 <= x <= i ==> J[x] == J0[x])
    && (forall x :: 1 <= x <= i && J[x] != 0 ==> J[x] < J[i + 1])
    && buf == old_[..i] + new_[J[i + 1] - 1..]
  }

  /** The commands so far are for lines after i, and touch exactly those that J pairs with none. */
  ghost predicate EdMarked(cs: seq<Change>, J: seq<int>, i: int, m: int) {
    && 0 <= i <= m < |J|
    && (forall k :: 0 <= k < |cs| ==> cs[k].a > i)
    && (forall x :: i < x <= m ==> (Touched(cs, x) <==> J[x] == 0))
  }

  lemma EdMarkedSame(cs: seq<Change>, J: seq<int>, i: int, m: int)
    requires EdMarked(cs, J, i, m) && i >= 1 && J[i] != 0
    ensures EdMarked(cs, J, i - 1, m)
  {
  }

  lemma EdMarkedChange(cs: seq<Change>, J: seq<int>, i: int, m: int, k: int, c: int, d: int)
    requires EdMarked(cs, J, i, m) && 1 <= k <= i + 1 && forall x :: k <= x <= i ==> J[x] == 0
    ensures EdMarked(Emit(cs, k, i, c, d), J, k - 1, m)
  {
    TouchedMore(cs, k, i, c, d);
    hide Emit, Touched;
  }

  lemma EdMarkedStart(J: seq<int>, m: int)
    requires 0 <= m < |J|
    ensures EdMarked([], J, m, m)
  {
  }

  lemma EdMarkedAll(cs: seq<Change>, J: seq<int>, m: int)
    requires EdMarked(cs, J, 0, m)
    ensures TouchesRest(cs, J, m)
  {
    hide Touched;
  }

  lemma EdReadySame(J: seq<int>, J0: seq<int>, old_: seq<Text>, new_: seq<Text>, buf: seq<Text>, i: int)
    requires EdReady(J, J0, old_, new_, buf, i) && i >= 1 && J[i] == J[i + 1] - 1 && J[i] != 0
    ensures EdReady(J, J0, old_, new_, buf, i - 1)
  {
    assert old_[..i] == old_[..i - 1] + [old_[i - 1]];
    assert new_[J[i] - 1..] == [new_[J[i] - 1]] + new_[J[i]..];
  }

  /** The buffer after the command for the unmatched lines k..i. */
  lemma EdBuffer(old_: seq<Text>, new_: seq<Text>, buf: seq<Text>, k: int, i: int, j: int, w: int)
    requires 1 <= k <= i + 1 <= |old_| + 1 && 0 <= j <= w <= |new_| && buf == old_[..i] + new_[w..]
    ensures Fits(Change(k, i, j + 1, w), |buf|, |new_|)
    ensures Edit(buf, new_, Change(k, i, j + 1, w)) == old_[..k - 1] + new_[j..]
  {
    assert buf[..k - 1] == old_[..k - 1];
    assert buf[i..] == new_[w..];
    assert new_[j..w] + new_[w..] == new_[j..];
  }

  /** The entries below a match are below it. */
  lemma BelowMatch(J: seq<int>, J0: seq<int>, old_: seq<Text>, new_: seq<Text>, buf: seq<Text>, i: int, k: int)
    requires EdReady(J, J0, old_, new_, buf, i) && 1 <= k <= i + 1 && (k > 1 ==> J[k - 1] != 0)
    ensures 0 <= J[k - 1] < J[i + 1] && forall x :: 1 <= x <= k - 1 && J[x] != 0 ==> J[x] < J[k - 1] + 1
  {
    forall x | 1 <= x <= k - 1 && J[x] != 0
      ensures J[x] < J[k - 1] + 1
    {
      assert J0[x] != 0 && J0[k - 1] != 0;
    }
  }

  lemma EdReadySize(J: seq<int>, J0: seq<int>, old_: seq<Text>, new_: seq<Text>, buf: seq<Text>, i: int)
    requires EdReady(J, J0, old_, new_, buf, i)
    ensures |J| == |J0| == |old_| + 2 && 0 <= i <= |old_| && 1 <= J[i + 1] <= |new_| + 1
    ensures buf == old_[..i] + new_[J[i + 1] - 1..]
  {
  }

  lemma EdReadyIs(J: seq<int>, J0: seq<int>, old_: seq<Text>, new_: seq<Text>, buf: seq<Text>, i: int, k: int, c: int, buf': seq<Text>)
    requires EdReady(J, J0, old_, new_, buf, i) && 1 <= k <= i + 1 && c == J[k - 1] + 1 && 0 <= J[k - 1] < J[i + 1]
    requires forall x :: 1 <= x <= k - 1 && J[x] != 0 ==> J[x] < c
    requires buf' == old_[..k - 1] + new_[c - 1..]
    ensures EdReady(J[k := c], J0, old_, new_, buf', k - 1)
  {
    hide Pairs;
  }

  /** Unmatched lines k..i, down to the next match, make one command. */
  lemma EdReadyChange(J: seq<int>, J0: seq<int>, old_: seq<Text>, new_: seq<Text>, buf: seq<Text>, i: int, k: int)
    requires EdReady(J, J0, old_, new_, buf, i) && 1 <= k <= i + 1
    requires (forall x :: k <= x <= i ==> J[x] == 0) && (k > 1 ==> J[k - 1] != 0)
    ensures var c := Change(k, i, J[k - 1] + 1, J[i + 1] - 1);
            && Fits(c, |buf|, |new_|)
            && EdReady(J[k := c.c], J0, old_, new_, Edit(buf, new_, c), k - 1)
  {
    hide EdReady, Edit, Fits;
    EdReadySize(J, J0, old_, new_, buf, i);
    BelowMatch(J, J0, old_, new_, buf, i, k);
    var w, j := J[i + 1] - 1, J[k - 1];
    EdBuffer(old_, new_, buf, k, i, j, w);
    EdReadyIs(J, J0, old_, new_, buf, i, k, j + 1, Edit(buf, new_, Change(k, i, j + 1, w)));
  }

  lemma EditedAppend(old_: seq<Text>, new_: seq<Text>, cs: seq<Change>, buf: seq<Text>, c: Change)
    requires Edited(old_, new_, cs, buf) && Fits(c, |buf|, |new_|)
    ensures Edited(old_, new_, cs + [c], Edit(buf, new_, c))
  {
    assert (cs + [c])[..|cs|] == cs;
  }

  /** An empty command would change nothing. */
  lemma EditEmpty(buf: seq<Text>, new_: seq<Text>, c: Change)
    requires Fits(c, |buf|, |new_|) && c.a > c.b && c.c > c.d
    ensures Edit(buf, new_, c) == buf
  {
  }

  /** The loop over matched lines, downwards. */
  method SkipDown(J: array<int>, m: int, i: int, ghost J0: seq<int>, ghost old_: seq<Text>, ghost new_: seq<Text>, ghost buf: seq<Text>,
                  ghost cs: seq<Change>)
    returns (i0: int)
    requires J.Length == |old_| + 2 && m == |old_| && 1 <= i <= m && EdReady(J[..], J0, old_, new_, buf, i) && EdMarked(cs, J0, i, m)
    requires Agree(J0, m, |new_|) ==> J[i + 1] == i + 1
    ensures EdMarked(cs, J0, i0, m)
    ensures 0 <= i0 <= i && EdReady(J[..], J0, old_, new_, buf, i0) && (i0 >= 1 ==> J[i0] != J[i0 + 1] - 1 || J[i0] == 0)
    ensures Agree(J0, m, |new_|) ==> i0 == 0 && J[1] == 1
  {
    hide EdReady, Agree, EdMarked;
    i0 := i;
    while i0 >= 1 && J[i0] == J[i0 + 1] - 1 && J[i0] != 0
      invariant 0 <= i0 <= i && EdReady(J[..], J0, old_, new_, buf, i0) && EdMarked(cs, J0, i0, m)
      invariant Agree(J0, m, |new_|) ==> J[i0 + 1] == i0 + 1
      decreases i0
    {
      EdReadyFacts(J[..], J0, old_, new_, buf, i0);
      EdMarkedSame(cs, J0, i0, m);
      EdReadySame(J[..], J0, old_, new_, buf, i0);
      i0 := i0 - 1;
    }
    EdAgreeAt(J[..], J0, old_, new_, buf, i0);
  }

  lemma EdAgreeAt(J: seq<int>, J0: seq<int>, old_: seq<Text>, new_: seq<Text>, buf: seq<Text>, i: int)
    requires EdReady(J, J0, old_, new_, buf, i)
    ensures Agree(J0, |old_|, |new_|) && 1 <= i <= |old_| ==> J[i] == i
  {
  }

  /** One turn of the loop of output -e: the matched lines, and the command before them. */
  method EdStep(J: array<int>, old_: seq<Text>, new_: seq<Text>, i: int, cs: seq<Change>, ghost J0: seq<int>, ghost buf: seq<Text>)
    returns (next: int, cs': seq<Change>, ghost buf': seq<Text>)
    requires J.Length == |old_| + 2 && 1 <= i <= |old_| && EdReady(J[..], J0, old_, new_, buf, i) && EdMarked(cs, J0, i, |old_|)
    requires Edited(old_, new_, cs, buf) && Proper(cs, |new_|)
    requires Agree(J0, |old_|, |new_|) ==> J[i + 1] == i + 1
    modifies J
    ensures next < i || (next == i && old(J[i + 1]) - 1 != old(J[i]))
    ensures 0 <= next && EdReady(J[..], J0, old_, new_, buf', next) && (next == 0 ==> J[1] == 1)
    ensures next >= 1 ==> J[next] == J[next + 1] - 1
    ensures Edited(old_, new_, cs', buf') && Proper(cs', |new_|) && EdMarked(cs', J0, next, |old_|)
    ensures Agree(J0, |old_|, |new_|) ==> cs' == cs && J[next + 1] == next + 1
  {
    hide EdReady, Edited, Edit, Agree, Proper, EdMarked;
    var m := |old_|;
    AgreeSize(J0, m, |new_|);
    var i0 := SkipDown(J, m, i, J0, old_, new_, buf, cs);
    var j0 := J[i0 + 1] - 1;
    var i1 := ZerosDown(J, i0);
    var j1 := J[i1 - 1] + 1;
    EdReadyFacts(J[..], J0, old_, new_, buf, i0);
    EdReadyChange(J[..], J0, old_, new_, buf, i0, i1);
    ghost var c := Change(i1, i0, j1, j0);
    EditedAppend(old_, new_, cs, buf, c);
    EdMarkedChange(cs, J0, i0, m, i1, j1, j0);
    EmitProper(cs, |new_|, i1, i0, j1, j0);
    if i1 > i0 && j1 > j0 {
      EditEmpty(buf, new_, c);
    }
    ghost var J1 := J[..];
    J[i1] := j1;
    assert J[..] == J1[i1 := j1];
    cs' := Emit(cs, i1, i0, j1, j0);
    buf' := Edit(buf, new_, c);
    next := i1 - 1;
  }

  /** output -e: editor commands from the last line to the first. */
  method OutputEd(J: array<int>, old_: seq<Text>, new_: seq<Text>) returns (cs: seq<Change>)
    requires J.Length == |old_| + 2 && Pairs(J[..], old_, new_)
    modifies J
    ensures Edited(old_, new_, cs, new_) && Proper(cs, |new_|) && TouchesRest(cs, old(J[..]), |old_|)
    ensures Agree(old(J[..]), |old_|, |new_|) ==> cs == []
  {
    hide EdReady, Edited, Edit, Pairs, Agree, Proper, EdMarked, Touched;
    var m := |old_|;
    ghost var J0 := J[..];
    J[0] := 0;
    J[m + 1] := |new_| + 1;
    cs := [];
    ghost var buf := old_;
    EdReadyStart(J[..], J0, old_, new_);
    EdMarkedStart(J0, m);
    var i0 := m;
    AgreeSize(J0, m, |new_|);
    while i0 >= 1
      invariant 0 <= i0 <= m && EdReady(J[..], J0, old_, new_, buf, i0)
      invariant Edited(old_, new_, cs, buf) && Proper(cs, |new_|) && EdMarked(cs, J0, i0, m)
      invariant i0 == 0 && m > 0 ==> J[1] == 1
      invariant Agree(J0, m, |new_|) ==> cs == [] && J[i0 + 1] == i0 + 1
      decreases i0, if J[i0] == J[i0 + 1] - 1 then 0 else 1
    {
      i0, cs, buf := EdStep(J, old_, new_, i0, cs, J0, buf);
    }
    EdReadyFacts(J[..], J0, old_, new_, buf, i0);
    EdMarkedAll(cs, J0, m);
    if m == 0 {
      EditedFromNothing(old_, new_);
      EmitProper([], |new_|, 1, 0, 1, |new_|);
      cs := Emit([], 1, 0, 1, |new_|);
    }
  }

  lemma EdReadyStart(J: seq<int>, J0: seq<int>, old_: seq<Text>, new_: seq<Text>)
    requires |J0| == |old_| + 2 && Pairs(J0, old_, new_) && J == J0[0 := 0][|old_| + 1 := |new_| + 1]
    ensures EdReady(J, J0, old_, new_, old_, |old_|) && Edited(old_, new_, [], old_) && Proper([], |new_|)
  {
  }

  lemma EdReadyFacts(J: seq<int>, J0: seq<int>, old_: seq<Text>, new_: seq<Text>, buf: seq<Text>, i: int)
    requires EdReady(J, J0, old_, new_, buf, i)
    ensures J[0] == 0 && (i == 0 && J[1] == 1 ==> buf == new_)
    ensures forall x :: 1 <= x <= i ==> J[x] == J0[x]
  {
    assert new_[0..] == new_;
  }

  lemma EditedFromNothing(old_: seq<Text>, new_: seq<Text>)
    requires old_ == []
    ensures Edited(old_, new_, Emit([], 1, 0, 1, |new_|), new_)
  {
    var c := Change(1, 0, 1, |new_|);
    NothingEdited(new_);
    if new_ != [] {
      assert Edit([], new_, c) == new_;
      hide Edited, Edit;
      EditedAppend([], new_, [], [], c);
      assert [] + [c] == [c];
    }
  }

  lemma NothingEdited(new_: seq<Text>)
    ensures Edited([], new_, [], [])
  {
  }
}
