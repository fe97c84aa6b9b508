/**
 * The script that diff -e prints, line by line (change of
 * usr/src/cmd/diff.c), and what an editor takes from it: the text of a
 * command goes on to the first line that is a dot alone.
 */
module DiffEd {
  import opened DiffOutput

  /** A line that ends the text of a command. */
  const DOT: Text := [46]

  datatype Order = Append(at: int) | Delete(a: int, b: int) | Replace(a: int, b: int)

  datatype Out = Command(o: Order) | Line(t: Text)

  // ---- what is printed ----

  function OrderOf(c: Change): Order {
    if c.a > c.b then Append(c.b) else if c.c > c.d then Delete(c.a, c.b) else Replace(c.a, c.b)
  }

  function Lines(ts: seq<Text>): (s: seq<Out>)
    ensures |s| == |ts| && forall k :: 0 <= k < |ts| ==> s[k] == Line(ts[k])
  {
    seq(|ts|, k requires 0 <= k < |ts| => Line(ts[k]))
  }

  function Printed(cs: seq<Change>, new_: seq<Text>): seq<Out>
    requires Proper(cs, |new_|)
  {
    if cs == [] then [] else
    var c := cs[0];
    [Command(OrderOf(c))] + Lines(new_[c.c - 1..c.d]) + (if c.c <= c.d then [Line(DOT)] else []) + Printed(cs[1..], new_)
  }

  // ---- what is read ----

  datatype Heard = Heard(o: Order, text: seq<Out>)

  /** The commands that were read, and what is left when a line is no command. */
  datatype Script = Script(hs: seq<Heard>, rest: seq<Out>)

  /** How many lines there are before the first dot. */
  function TextLen(ls: seq<Out>): (n: int)
    ensures 0 <= n <= |ls|
  {
    if ls == [] || ls[0] == Line(DOT) then 0 else 1 + TextLen(ls[1..])
  }

  function After(h: Heard, s: Script): Script { Script([h] + s.hs, s.rest) }

  function Listen(ls: seq<Out>): Script
    decreases |ls|
  {
    if ls == [] || ls[0].Line? then Script([], ls)
    else if ls[0].o.Delete? then After(Heard(ls[0].o, []), Listen(ls[1..]))
    else
      var n := TextLen(ls[1..]);
      After(Heard(ls[0].o, ls[1..n + 1]), if n + 1 < |ls| then Listen(ls[n + 2..]) else Script([], []))
  }

  /** The commands with their whole texts. */
  function Meant(cs: seq<Change>, new_: seq<Text>): seq<Heard>
    requires Proper(cs, |new_|)
  {
    if cs == [] then [] else [Heard(OrderOf(cs[0]), Lines(new_[cs[0].c - 1..cs[0].d]))] + Meant(cs[1..], new_)
  }

  /** The buffer after a command. */
  ghost function Done(buf: seq<Text>, o: Order, ts: seq<Text>): seq<Text>
    requires match o case Append(at) => 0 <= at <= |buf| case Delete(a, b) => 1 <= a <= b <= |buf| case Replace(a, b) => 1 <= a <= b <= |buf|
  {
    match o
    case Append(at) => buf[..at] + ts + buf[at..]
    case Delete(a, b) => buf[..a - 1] + buf[b..]
    case Replace(a, b) => buf[..a - 1] + ts + buf[b..]
  }

  /** The command printed for a change does what the change says. */
  lemma OrderDoes(buf: seq<Text>, new_: seq<Text>, c: Change)
    requires Fits(c, |buf|, |new_|) && !(c.a > c.b && c.c > c.d)
    ensures Done(buf, OrderOf(c), new_[c.c - 1..c.d]) == Edit(buf, new_, c)
  {
    if c.c > c.d {
      assert new_[c.c - 1..c.d] == [];
    }
  }

  /** No new line that the changes bring is a dot alone. */
  ghost predicate NoDot(cs: seq<Change>, new_: seq<Text>)
    requires Proper(cs, |new_|)
  {
    forall k, x :: 0 <= k < |cs| && cs[k].c - 1 <= x < cs[k].d ==> new_[x] != DOT
  }

  lemma {:induction false} TextLenIs(ts: seq<Text>, rest: seq<Out>)
    ensures var n := TextLen(Lines(ts) + [Line(DOT)] + rest); n <= |ts| && (n == |ts| <==> DOT !in ts)
  {
    var ls := Lines(ts) + [Line(DOT)] + rest;
    if ts != [] {
      TextLenIs(ts[1..], rest);
      assert ls[1..] == Lines(ts[1..]) + [Line(DOT)] + rest;
      assert ts == [ts[0]] + ts[1..];
    }
  }

  /** One command of the script: its whole text is read exactly when no line of it is a dot. */
  lemma ListenOne(o: Order, ts: seq<Text>, rest: seq<Out>)
    requires !o.Delete?
    ensures var s := Listen([Command(o)] + Lines(ts) + [Line(DOT)] + rest);
            if DOT in ts then s.hs != [] && s.hs[0] != Heard(o, Lines(ts)) else s == After(Heard(o, Lines(ts)), Listen(rest))
  {
    hide TextLen;
    var ls := [Command(o)] + Lines(ts) + [Line(DOT)] + rest;
    assert ls[1..] == Lines(ts) + [Line(DOT)] + rest;
    TextLenIs(ts, rest);
    var n := TextLen(ls[1..]);
    if DOT in ts {
      assert |ls[1..n + 1]| == n;
    } else {
      assert ls[1..n + 1] == Lines(ts);
      assert ls[n + 2..] == rest;
    }
  }

  lemma ListenDelete(o: Order, rest: seq<Out>)
    requires o.Delete?
    ensures Listen([Command(o)] + rest) == After(Heard(o, []), Listen(rest))
  {
    assert ([Command(o)] + rest)[1..] == rest;
  }

  lemma NoDotSplit(cs: seq<Change>, new_: seq<Text>)
    requires Proper(cs, |new_|) && cs != []
    ensures Proper(cs[1..], |new_|)
    ensures NoDot(cs, new_) <==> DOT !in new_[cs[0].c - 1..cs[0].d] && NoDot(cs[1..], new_)
  {
    var ts := new_[cs[0].c - 1..cs[0].d];
    if NoDot(cs, new_) {
      assert forall x :: 0 <= x < |ts| ==> ts[x] == new_[cs[0].c - 1 + x];
      assert forall k :: 0 <= k < |cs[1..]| ==> cs[1..][k] == cs[k + 1];
    }
    if DOT !in ts && NoDot(cs[1..], new_) {
      forall k, x | 0 <= k < |cs| && cs[k].c - 1 <= x < cs[k].d
        ensures new_[x] != DOT
      {
        if k == 0 {
          assert ts[x - (cs[0].c - 1)] == new_[x];
        } else {
          assert cs[1..][k - 1] == cs[k];
        }
      }
    }
  }

  /** An editor takes the printed script as it is meant exactly when no new line in it is a dot alone. */
  lemma {:induction false} HeardIff(cs: seq<Change>, new_: seq<Text>)
    requires Proper(cs, |new_|)
    ensures Listen(Printed(cs, new_)) == Script(Meant(cs, new_), []) <==> NoDot(cs, new_)
    decreases |cs|
  {
    hide Listen, NoDot;
    if cs == [] {
      NoneHeard(new_);
    } else {
      NoDotSplit(cs, new_);
      HeardIff(cs[1..], new_);
      var c := cs[0];
      var o, ts, rest := OrderOf(c), new_[c.c - 1..c.d], Printed(cs[1..], new_);
      HeadFacts(c, ts);
      if o.Delete? {
        assert [Command(o)] + Lines(ts) + [] + rest == [Command(o)] + rest;
        ListenDelete(o, rest);
      } else {
        ListenOne(o, ts, rest);
      }
      AfterFacts(Heard(o, Lines(ts)), Listen(rest), Meant(cs[1..], new_));
    }
  }

  lemma HeadFacts(c: Change, ts: seq<Text>)
    requires 1 <= c.c <= c.d + 1 && |ts| == c.d - c.c + 1 && !(c.a > c.b && c.c > c.d)
    ensures OrderOf(c).Delete? <==> c.c > c.d
    ensures OrderOf(c).Delete? ==> ts == [] && Lines(ts) == []
  {
  }

  lemma AfterFacts(h: Heard, s: Script, hs: seq<Heard>)
    ensures After(h, s) == Script([h] + hs, []) <==> s == Script(hs, [])
  {
    if After(h, s) == Script([h] + hs, []) {
      assert ([h] + s.hs)[1..] == s.hs && ([h] + hs)[1..] == hs;
    }
  }

  lemma NoneHeard(new_: seq<Text>)
    ensures Listen(Printed([], new_)) == Script(Meant([], new_), []) && NoDot([], new_)
  {
  }

  /** A file of one line, a dot, in place of an empty one: the line is not taken. */
  lemma LostDot()
    ensures var cs, new_ := [Change(1, 0, 1, 1)], [['.' as int]];
            && Proper(cs, 1) && Edited([], new_, cs, new_)
            && Listen(Printed(cs, new_)) == Script([Heard(Append(0), [])], [Line(DOT)])
  {
    hide Listen, Edited;
    var cs, new_ := [Change(1, 0, 1, 1)], [DOT];
    EditedFromNothing([], new_);
    assert Emit([], 1, 0, 1, |new_|) == cs;
    var ls := Printed(cs, new_);
    assert Printed(cs[1..], new_) == [];
    assert ls == [Command(Append(0)), Line(DOT), Line(DOT)];
    DotsHeard();
  }

  lemma DotsHeard()
    ensures Listen([Command(Append(0)), Line(DOT), Line(DOT)]) == Script([Heard(Append(0), [])], [Line(DOT)])
  {
    var ls := [Command(Append(0)), Line(DOT), Line(DOT)];
    assert TextLen(ls[1..]) == 0;
    assert ls[1..1] == [] && ls[2..] == [Line(DOT)];
    assert Listen(ls[2..]) == Script([], [Line(DOT)]);
  }
}
