/**
 * What usr/src/cmd/fgrep.c selects, for a list of keywords and a text that are
 * given line by line.
 */
module FgrepLines {
  import opened FgrepSpec
  import opened FgrepBuild
  import opened Fgrep

  /** Lines without their newlines. */
  ghost predicate AreLines(ls: seq<Str>) { forall k :: 0 <= k < |ls| ==> NoNewline(ls[k]) }

  ghost predicate NoNewline(s: Str) { forall i :: 0 <= i < |s| ==> s[i] != '\n' as int }

  /** The lines as they are in a file. */
  function Joined(ls: seq<Str>): Str { if ls == [] then [] else ls[0] + ['\n' as int] + Joined(ls[1..]) }

  /** From a on, arg is w. */
  ghost predicate At(arg: Str, a: int, w: Str) { 0 <= a <= |arg| && arg[a..] == w }

  lemma LineAt(arg: Str, a: int, line: Str, rest: Str)
    requires At(arg, a, line + [NL] + rest) && NoNewline(line)
    ensures var e := LineEnd(arg, a); e == a + |line| && e < |arg| && arg[a..e] == line && At(arg, e + 1, rest)
  {
    var w := line + [NL] + rest;
    assert forall k :: a <= k < |arg| ==> arg[k] == arg[a..][k - a];
    assert forall i :: 0 <= i < |line| ==> w[i] == line[i];
    assert w[|line|] == NL;
    assert w[|line| + 1..] == rest;
    var e := LineEnd(arg, a);
    assert arg[a + |line|] == NL;
    assert forall k :: a <= k < a + |line| ==> arg[k] == line[k - a];
    assert arg[e + 1..] == arg[a..][|line| + 1..];
    assert arg[a..e] == w[..|line|];
  }

  lemma LastAt(arg: Str, a: int, last: Str)
    requires At(arg, a, last) && NoNewline(last)
    ensures LineEnd(arg, a) == |arg| && arg[a..|arg|] == last
  {
    assert forall k :: a <= k < |arg| ==> arg[k] == last[k - a];
  }

  lemma JoinedOne(ls: seq<Str>, last: Str)
    requires ls != []
    ensures Joined(ls) + last == ls[0] + [NL] + (Joined(ls[1..]) + last)
  {
  }

  lemma TailLines(ls: seq<Str>)
    requires ls != [] && AreLines(ls)
    ensures NoNewline(ls[0]) && AreLines(ls[1..])
  {
    hide NoNewline;
  }

  /** The list of keywords: those with a newline, and the last one if it is not empty. */
  lemma {:induction false} KeywordsAre(arg: Str, a: int, ks: seq<Str>, last: Str)
    requires At(arg, a, Joined(ks) + last) && AreLines(ks) && NoNewline(last)
    ensures Last(arg, a) == last && forall u :: u in Ended(arg, a) <==> u in ks
    ensures forall u :: u in Keywords(arg, a) <==> u in ks || (last != [] && u == last)
    decreases |ks|
  {
    hide At, AreLines, NoNewline;
    AtSize(arg, a, Joined(ks) + last);
    if ks == [] {
      assert Joined(ks) + last == last;
      LastAt(arg, a, last);
      AtSize(arg, a, last);
    } else {
      TailLines(ks);
      JoinedOne(ks, last);
      LineAt(arg, a, ks[0], Joined(ks[1..]) + last);
      var e := LineEnd(arg, a);
      KeywordsAre(arg, e + 1, ks[1..], last);
      hide Joined;
      FirstKeyword(arg, a, ks[0]);
      hide Keywords, Ended, Last, LineEnd;
      assert ks == [ks[0]] + ks[1..];
    }
  }

  lemma FirstKeyword(arg: Str, a: int, word: Str)
    requires 0 <= a <= |arg| && LineEnd(arg, a) < |arg| && arg[a..LineEnd(arg, a)] == word
    ensures var e := LineEnd(arg, a) + 1;
            Keywords(arg, a) == {word} + Keywords(arg, e) && Ended(arg, a) == {word} + Ended(arg, e) && Last(arg, a) == Last(arg, e)
  {
    hide LineEnd;
  }

  lemma AtSize(arg: Str, a: int, w: Str)
    requires At(arg, a, w)
    ensures 0 <= a <= |arg| && |w| == |arg| - a
  {
  }

  /** n is the number of a line that holds one of the keywords; lines are numbered from lnum on. */
  ghost predicate Holds(ls: seq<Str>, ks: set<Str>, lnum: int, n: int) {
    lnum <= n < lnum + |ls| && ContainsOne(ls[n - lnum], ks)
  }

  ghost predicate Ascending(w: seq<int>) { forall i, j :: 0 <= i < j < |w| ==> w[i] < w[j] }

  lemma {:induction false} WantedAre(ks: set<Str>, text: Str, a: int, lnum: int, ls: seq<Str>)
    requires At(text, a, Joined(ls)) && AreLines(ls)
    ensures Ascending(Wanted(ks, text, a, lnum)) && forall n :: n in Wanted(ks, text, a, lnum) <==> Holds(ls, ks, lnum, n)
    decreases |ls|
  {
    hide At, AreLines, NoNewline, ContainsOne;
    AtSize(text, a, Joined(ls));
    if ls != [] {
      TailLines(ls);
      assert Joined(ls) == ls[0] + [NL] + Joined(ls[1..]);
      LineAt(text, a, ls[0], Joined(ls[1..]));
      var e := LineEnd(text, a);
      WantedAre(ks, text, e + 1, lnum + 1, ls[1..]);
      hide Joined;
      AddOne(Wanted(ks, text, a, lnum), Wanted(ks, text, e + 1, lnum + 1), ls, ks, lnum);
    }
  }

  lemma AddOne(w: seq<int>, v: seq<int>, ls: seq<Str>, ks: set<Str>, lnum: int)
    requires ls != [] && w == (if ContainsOne(ls[0], ks) then [lnum] else []) + v
    requires Ascending(v) && forall n :: n in v <==> Holds(ls[1..], ks, lnum + 1, n)
    ensures Ascending(w) && forall n :: n in w <==> Holds(ls, ks, lnum, n)
  {
    hide ContainsOne;
    forall n
      ensures n in w <==> Holds(ls, ks, lnum, n)
    {
      assert Holds(ls[1..], ks, lnum + 1, n) <==> n != lnum && Holds(ls, ks, lnum, n);
    }
    forall i, j | 0 <= i < j < |w|
      ensures w[i] < w[j]
    {
      assert w[j] in v;
    }
  }

  lemma JoinedWhole(ls: seq<Str>)
    ensures Whole(Joined(ls))
  {
  }

  /** Keyword k is somewhere in the line. */
  ghost predicate In(k: Str, line: Str) { exists v, w :: line == v + k + w }

  /**
   * Keywords of which none is empty, each on a line of its own, or the last
   * without a newline and not the start of another: the numbers of exactly the
   * lines that hold one of them are selected, in order.
   */
  lemma LinesSelected(ks: seq<Str>, last: Str, ls: seq<Str>)
    requires AreLines(ks) && NoNewline(last) && AreLines(ls)
    requires forall j :: 0 <= j < |ks| ==> ks[j] != [] && (last == [] || !(last <= ks[j]) || In(ks[j], last))
    ensures var w := Chosens(Joined(ks) + last, Joined(ls));
            && (forall i, j :: 0 <= i < j < |w| ==> w[i] < w[j])
            && forall n :: n in w <==> 1 <= n <= |ls| && ((last != [] && In(last, ls[n - 1])) || exists j :: 0 <= j < |ks| && In(ks[j], ls[n - 1]))
  {
    hide AreLines, NoNewline, Joined, Sound, Chosens, Keywords, Wanted, In;
    var arg, text := Joined(ks) + last, Joined(ls);
    assert At(arg, 0, arg) && At(text, 0, text);
    KeywordsAre(arg, 0, ks, last);
    ListSound(arg, ks, last);
    JoinedWhole(ls);
    RightIff(arg);
    var all := Keywords(arg, 0);
    WantedAre(all, text, 0, 1, ls);
    forall n
      ensures Holds(ls, all, 1, n) <==>
              1 <= n <= |ls| && ((last != [] && In(last, ls[n - 1])) || exists j :: 0 <= j < |ks| && In(ks[j], ls[n - 1]))
    {
      if 1 <= n <= |ls| {
        OneOf(ls[n - 1], all, ks, last);
      }
    }
  }

  lemma OneOf(line: Str, all: set<Str>, ks: seq<Str>, last: Str)
    requires forall u :: u in all <==> u in ks || (last != [] && u == last)
    ensures ContainsOne(line, all) <==> (last != [] && In(last, line)) || exists j :: 0 <= j < |ks| && In(ks[j], line)
  {
    forall u
      ensures Contains(line, u) <==> In(u, line)
    {
      InIs(u, line);
    }
    hide Contains, In;
    if ContainsOne(line, all) {
      var u :| u in all && Contains(line, u);
      if u in ks {
        var j :| 0 <= j < |ks| && ks[j] == u;
      }
    }
    if last != [] && In(last, line) {
      assert last in all && Contains(line, last);
    }
    if j :| 0 <= j < |ks| && In(ks[j], line) {
      assert ks[j] in all && Contains(line, ks[j]);
    }
  }

  lemma InIs(u: Str, line: Str)
    ensures Contains(line, u) <==> In(u, line)
  {
    if Contains(line, u) {
      var i :| Occurs(line, u, i);
      assert line == line[..i] + u + line[i + |u|..];
    }
    if In(u, line) {
      var v, w :| line == v + u + w;
      assert Occurs(line, u, |v|);
    }
  }

  lemma ListSound(arg: Str, ks: seq<Str>, last: Str)
    requires Last(arg, 0) == last && forall u :: u in Ended(arg, 0) <==> u in ks
    requires forall u :: u in Keywords(arg, 0) <==> u in ks || (last != [] && u == last)
    requires forall j :: 0 <= j < |ks| ==> ks[j] != [] && (last == [] || !(last <= ks[j]) || In(ks[j], last))
    ensures Sound(arg)
  {
    hide Ended, Keywords, Last, In, Contains;
    assert [] !in Keywords(arg, 0);
    if last != [] && PrefixOfOne(last, Ended(arg, 0)) {
      var v :| v in Ended(arg, 0) && last <= v;
      var j :| 0 <= j < |ks| && ks[j] == v;
      InIs(v, last);
    }
  }
}
