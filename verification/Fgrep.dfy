/** The scan of usr/src/cmd/fgrep.c, without the options -v and -x: which lines of a text are selected. */
module Fgrep {
  import opened FgrepSpec
  import opened FgrepTable
  import opened FgrepBuild
  import opened FgrepFail

  // ---- the state of the scan ----

  /** Node c stands for state u: it is the first node of its list, or the last one of the root's. */
  ghost predicate At(t: seq<Node>, g: Layout, c: int, u: Str) {
    && 0 <= c < |t| == |g.path| == |g.head|
    && g.path[c] == u
    && (g.head[c] || (u == [] && t[c].link == 0))
  }

  /** The walk along a list from node c: the node for character ch, or the last node. */
  method Along(m: Machine, c: int, ch: int) returns (x: int, found: bool)
    requires m.Table() && Shape(m.T(), m.g) && 0 <= c <= m.smax
    ensures c <= x <= m.smax && m.g.path[x] == m.g.path[c]
    ensures found ==> ch != 0 && x == Find(m.T(), c, ch)
    ensures !found ==> m.T()[x].link == 0 && (ch != 0 ==> Find(m.T(), c, ch) == -1)
  {
    x := c;
    while true
      invariant c <= x <= m.smax && m.g.path[x] == m.g.path[c]
      invariant Find(m.T(), c, ch) == Find(m.T(), x, ch) || ch == 0
      decreases m.smax - x
    {
      NodeFacts(m.T(), m.g, x);
      if ch != 0 && m.w[x].inp == ch {
        return x, true;
      }
      if m.w[x].link == 0 {
        return x, false;
      }
      x := m.w[x].link;
    }
  }

  /** A walk from a node of state u that finds the character leads to u and the character; one from the first node fails only if there is no such state. */
  lemma AlongFacts(t: seq<Node>, g: Layout, c: int, ch: int, u: Str)
    requires Shape(t, g) && At(t, g, c, u)
    ensures ch != 0 && Find(t, c, ch) >= 0 ==>
              var n := t[Find(t, c, ch)].nst; 0 < n < |t| && At(t, g, n, u + [ch]) && u + [ch] in Paths(g)
    ensures g.head[c] && (ch == 0 || Find(t, c, ch) == -1) ==> u + [ch] !in Paths(g)
  {
    hide Find, Shape, Paths;
    NoZero(t, g, u);
    FindPath(t, g, c, ch);
    if ch != 0 && Find(t, c, ch) >= 0 {
      NodeFacts(t, g, Find(t, c, ch));
      PathIn(g, t[Find(t, c, ch)].nst);
    }
    if g.head[c] && ch != 0 {
      Lookup(t, g, c, ch);
    }
  }

  /** From the label istate on: the next state from the root. */
  method Istate(m: Machine, ch: int, ghost ms: set<Str>) returns (c: int)
    requires m.Table() && Complete(m.T(), m.g, ms)
    ensures At(m.T(), m.g, c, Next(Paths(m.g), [], ch))
    ensures Next(Paths(m.g), [], ch) == [] ==> m.T()[c].link == 0
  {
    hide Shape, Find, Next, Paths, Border, Complete, Closed;
    ghost var t, g := m.T(), m.g;
    CompleteFacts(t, g, ms);
    RootFacts(t, g);
    var x, found := Along(m, 0, ch);
    AlongFacts(t, g, 0, ch, []);
    NextFacts(Paths(g), [], ch);
    if found {
      c := m.w[x].nst;
    } else {
      c := x;
    }
  }

  /** From the label nstate on: the next state, along the fail links, and from the root when there are none left. */
  method Nstate(m: Machine, c0: int, ch: int, ghost u0: Str, ghost ms: set<Str>) returns (c: int)
    requires m.Table() && Complete(m.T(), m.g, ms) && At(m.T(), m.g, c0, u0)
    ensures At(m.T(), m.g, c, Next(Paths(m.g), u0, ch))
    ensures Next(Paths(m.g), u0, ch) == [] ==> m.T()[c].link == 0
  {
    hide Shape, Find, Next, Paths, Border, Complete, Closed;
    ghost var t, g, ps, u := m.T(), m.g, Paths(m.g), u0;
    CompleteFacts(t, g, ms);
    c := c0;
    while true
      invariant At(t, g, c, u) && Next(ps, u, ch) == Next(ps, u0, ch)
      decreases |u|
    {
      var x, found := Along(m, c, ch);
      AlongFacts(t, g, c, ch, u);
      NextFacts(ps, u, ch);
      if found {
        c := m.w[x].nst;
        return;
      }
      FailFacts(t, g, ms, x);
      c := m.w[x].fail;
      if c == 0 {
        assert Next(ps, [], ch) == Next(ps, u0, ch);
        break;
      }
      u := Border(ps, u);
    }
    c := Istate(m, ch, ms);
  }

  lemma CompleteFacts(t: seq<Node>, g: Layout, ms: set<Str>)
    requires Complete(t, g, ms)
    ensures Shape(t, g) && [] in Paths(g) && ms <= Paths(g) && Closed(Paths(g))
  {
    PathsClosed(t, g);
  }

  lemma FailFacts(t: seq<Node>, g: Layout, ms: set<Str>, x: int)
    requires Complete(t, g, ms) && 0 <= x < |t|
    ensures if g.path[x] == [] then t[x].fail == 0 else FailOk(g, t[x].fail, Border(Paths(g), g.path[x]))
  {
    assert Stage(t[x], g, ms, x, true);
    hide Shape, Border, Paths;
  }

  // ---- when a state is marked ----

  /** The root has at most one node, so its last node is its first. */
  predicate Solo(t: seq<Node>) { t != [] && t[0].link == 0 }

  /** After the text x of a line the scan has found a keyword. */
  ghost predicate Fires(ps: set<Str>, ms: set<Str>, solo: bool, x: Str)
    requires [] in ps
  {
    Hit(ms, x) || (solo && [] in ms && Longest(ps, x) == [])
  }

  lemma OutFires(t: seq<Node>, g: Layout, ms: set<Str>, c: int, x: Str)
    requires Complete(t, g, ms) && At(t, g, c, Longest(Paths(g), x))
    requires Longest(Paths(g), x) == [] ==> t[c].link == 0
    ensures t[c].out <==> Fires(Paths(g), ms, Solo(t), x)
  {
    hide Shape, Paths, Longest;
    HitState(Paths(g), ms, x);
    RootFacts(t, g);
    assert Stage(t[c], g, ms, c, true);
    if Longest(Paths(g), x) == [] {
      if c != 0 && t[0].link == 0 {
        NoneBetween(t, g, 0, c);
      }
      if c != 0 && g.head[c] {
        SameState(t, g, 0, c);
      }
    }
  }

  lemma SoloEdge(t: seq<Node>, g: Layout, c: int)
    requires Shape(t, g) && Solo(t) && [c] in Paths(g)
    ensures t[0].inp == c
  {
    hide Unique;
    var h :| 0 <= h < |t| && g.head[h] && g.path[h] == [c];
    NodeFacts(t, g, h);
    var y := g.up[h];
    NodeFacts(t, g, y);
    assert g.path[h][0] == c && g.path[y] == [];
    if y != 0 {
      NoneBetween(t, g, 0, y);
    }
  }

  /** The root has one node exactly when all keywords that are not empty begin with the same character. */
  lemma SoloIff(t: seq<Node>, g: Layout, ws: set<Str>)
    requires Shape(t, g) && Grown(Paths(g), ws) && Full(t, g, -1)
    ensures Solo(t) <==> forall u, v :: u in ws && v in ws && u != [] && v != [] ==> u[0] == v[0]
  {
    hide Closed, Shape, Paths;
    RootFacts(t, g);
    PathsClosed(t, g);
    if Solo(t) {
      forall u | u in ws && u != []
        ensures u[0] == t[0].inp
      {
        ClosedPrefix(Paths(g), u[..1], u);
        assert u[..1] == [u[0]];
        SoloEdge(t, g, u[0]);
      }
    } else {
      var u := RootKeyword(t, g, ws, 0);
      var v := RootKeyword(t, g, ws, t[0].link);
      RootDiffers(t, g);
      assert u[0] != v[0];
    }
  }

  lemma RootDiffers(t: seq<Node>, g: Layout)
    requires Shape(t, g) && !Solo(t)
    ensures 0 < t[0].link < |t| && (t[0].inp != t[t[0].link].inp || t[0].inp == 0)
  {
    NodeFacts(t, g, 0);
  }

  lemma RootKeyword(t: seq<Node>, g: Layout, ws: set<Str>, x: int) returns (u: Str)
    requires Shape(t, g) && Grown(Paths(g), ws) && Full(t, g, -1) && !Solo(t) && (x == 0 || x == t[0].link)
    ensures 0 <= x < |t| && u in ws && u != [] && u[0] == t[x].inp != 0
  {
    hide Unique, Paths;
    NodeFacts(t, g, 0);
    NodeFacts(t, g, x);
    PathIn(g, t[x].nst);
    assert g.path[t[x].nst] == [t[x].inp];
    assert PrefixOfOne([t[x].inp], ws);
    u :| u in ws && [t[x].inp] <= u;
  }

  // ---- the lines of a text ----

  /** Where the next line starts. */
  function NextLine(text: Str, a: int): (n: int)
    requires 0 <= a < |text|
    ensures a < n <= |text|
  {
    var e := LineEnd(text, a);
    if e < |text| then e + 1 else e
  }

  /** The scan finds something in the line at a, its newline included. */
  ghost predicate LineFires(ps: set<Str>, ms: set<Str>, solo: bool, text: Str, a: int)
    requires [] in ps && 0 <= a < |text|
  {
    exists k :: a < k <= NextLine(text, a) && Fires(ps, ms, solo, text[a..k])
  }

  /** The numbers of the lines that the scan finds something in. */
  ghost function Selected(ps: set<Str>, ms: set<Str>, solo: bool, text: Str, a: int, lnum: int): seq<int>
    requires [] in ps && 0 <= a <= |text|
    decreases |text| - a
  {
    if a == |text| then []
    else (if LineFires(ps, ms, solo, text, a) then [lnum] else []) + Selected(ps, ms, solo, text, NextLine(text, a), lnum + 1)
  }

  /** Nothing was found in the line up to p. */
  ghost predicate Quiet(ps: set<Str>, ms: set<Str>, solo: bool, text: Str, a: int, p: int)
    requires [] in ps && 0 <= a <= p <= |text|
  {
    forall k :: a < k <= p ==> !Fires(ps, ms, solo, text[a..k])
  }

  lemma Fired(ps: set<Str>, ms: set<Str>, solo: bool, text: Str, a: int, p: int)
    requires [] in ps && 0 <= a < p <= |text| && p <= NextLine(text, a)
    ensures Fires(ps, ms, solo, text[a..p]) ==> LineFires(ps, ms, solo, text, a)
    ensures Quiet(ps, ms, solo, text, a, p - 1) && !Fires(ps, ms, solo, text[a..p]) ==> Quiet(ps, ms, solo, text, a, p)
    ensures p == NextLine(text, a) && Quiet(ps, ms, solo, text, a, p) ==> !LineFires(ps, ms, solo, text, a)
  {
    hide Fires;
  }

  /** One turn of the loop. */
  method ScanOne(m: Machine, text: Str, a: int, p: int, c0: int, ghost ms: set<Str>) returns (c: int)
    requires m.Table() && Complete(m.T(), m.g, ms) && [] in Paths(m.g) && 0 <= a <= p < |text|
    requires At(m.T(), m.g, c0, Longest(Paths(m.g), text[a..p]))
    ensures At(m.T(), m.g, c, Longest(Paths(m.g), text[a..p + 1]))
    ensures m.w[c].out <==> Fires(Paths(m.g), ms, Solo(m.T()), text[a..p + 1])
  {
    hide Complete, Paths, Fires, Next, Longest, Closed;
    CompleteFacts(m.T(), m.g, ms);
    c := Nstate(m, c0, text[p], Longest(Paths(m.g), text[a..p]), ms);
    NextStep(Paths(m.g), text[a..p], text[p]);
    assert text[a..p] + [text[p]] == text[a..p + 1];
    OutFires(m.T(), m.g, ms, c, text[a..p + 1]);
  }

  /** The loop over one line: it stops at the first keyword found and goes on to the end of the line. */
  method ScanLine(m: Machine, text: Str, a: int, ghost ms: set<Str>) returns (found: bool, p: int)
    requires m.Table() && Complete(m.T(), m.g, ms) && [] in Paths(m.g) && 0 <= a < |text|
    ensures p == NextLine(text, a)
    ensures found <==> LineFires(Paths(m.g), ms, Solo(m.T()), text, a)
  {
    hide Complete, Paths, Fires, LineFires, LineEnd, Longest, At;
    ghost var ps, solo := Paths(m.g), Solo(m.T());
    var c := 0;
    p := a;
    StartLine(m.T(), m.g, ms);
    assert text[a..p] == [];
    while p < |text|
      invariant a <= p <= NextLine(text, a) && (p == NextLine(text, a) ==> p == |text| && p > a)
      invariant At(m.T(), m.g, c, Longest(ps, text[a..p])) && Quiet(ps, ms, solo, text, a, p)
      decreases |text| - p
    {
      c := ScanOne(m, text, a, p, c, ms);
      Fired(ps, ms, solo, text, a, p + 1);
      AtNode(m.T(), m.g, c, Longest(ps, text[a..p + 1]));
      hide Quiet;
      if m.w[c].out {
        p := SkipLine(text, a, p);
        return true, p;
      }
      p := p + 1;
      if text[p - 1] == NL {
        return false, p;
      }
    }
    Fired(ps, ms, solo, text, a, p);
    found := false;
  }

  lemma AtNode(t: seq<Node>, g: Layout, c: int, u: Str)
    requires At(t, g, c, u)
    ensures 0 <= c < |t|
  {
  }

  lemma StartLine(t: seq<Node>, g: Layout, ms: set<Str>)
    requires Complete(t, g, ms)
    ensures At(t, g, 0, Longest(Paths(g), []))
  {
    RootFacts(t, g);
    hide Shape;
  }

  /** The loop to the end of a line. */
  method SkipLine(text: Str, a: int, p0: int) returns (p: int)
    requires 0 <= a <= p0 < |text| && forall k :: a <= k < p0 ==> text[k] != NL
    ensures p == NextLine(text, a)
  {
    p := p0;
    while p < |text|
      invariant p0 <= p <= |text| && forall k :: a <= k < p ==> text[k] != NL
    {
      p := p + 1;
      if text[p - 1] == NL {
        break;
      }
    }
  }

  lemma SelectedStep(ps: set<Str>, ms: set<Str>, solo: bool, text: Str, a: int, lnum: int, before: seq<int>)
    requires [] in ps && 0 <= a < |text|
    ensures before + Selected(ps, ms, solo, text, a, lnum) ==
            (if LineFires(ps, ms, solo, text, a) then before + [lnum] else before) +
            Selected(ps, ms, solo, text, NextLine(text, a), lnum + 1)
  {
    hide LineFires, NextLine;
  }

  /** execute on a text. */
  method Execute(m: Machine, text: Str, ghost ms: set<Str>) returns (lines: seq<int>)
    requires m.Table() && Complete(m.T(), m.g, ms) && [] in Paths(m.g)
    ensures lines == Selected(Paths(m.g), ms, Solo(m.T()), text, 0, 1)
  {
    hide Complete, Paths, LineFires, NextLine, Selected;
    lines := [];
    var p, lnum := 0, 1;
    ghost var ps, solo := Paths(m.g), Solo(m.T());
    while p < |text|
      invariant 0 <= p <= |text| && lines + Selected(ps, ms, solo, text, p, lnum) == Selected(ps, ms, solo, text, 0, 1)
      decreases |text| - p
    {
      SelectedStep(ps, ms, solo, text, p, lnum, lines);
      var found;
      found, p := ScanLine(m, text, p, ms);
      if found {
        lines := lines + [lnum];
      }
      lnum := lnum + 1;
    }
    SelectedEnd(ps, ms, solo, text, lnum);
    assert lines + [] == lines;
  }

  lemma SelectedEnd(ps: set<Str>, ms: set<Str>, solo: bool, text: Str, lnum: int)
    requires [] in ps
    ensures Selected(ps, ms, solo, text, |text|, lnum) == []
  {
  }

  // ---- what is selected ----

  ghost predicate Plain(ks: set<Str>) { forall k, i :: k in ks && 0 <= i < |k| ==> k[i] != NL }

  ghost predicate Occurs(line: Str, k: Str, i: int) { 0 <= i <= |line| - |k| && line[i..i + |k|] == k }

  ghost predicate Contains(line: Str, k: Str) { exists i :: Occurs(line, k, i) }

  ghost predicate ContainsOne(line: Str, ks: set<Str>) { exists k :: k in ks && Contains(line, k) }

  ghost predicate Alike(ks: set<Str>) { forall u, v :: u in ks && v in ks && u != [] && v != [] ==> u[0] == v[0] }

  /** No end of x is the start of a keyword. */
  ghost predicate Clear(x: Str, ws: set<Str>) { forall u :: Suffix(u, x) && u != [] ==> !PrefixOfOne(u, ws) }

  /** Somewhere in the line, its newline included, the scan is not in the middle of a keyword. */
  ghost predicate Rests(line: Str, ws: set<Str>) { exists k :: 0 < k <= |line| && Clear(line[..k], ws) }

  /** The line at a holds a marked keyword that is not empty, or the empty keyword counts. */
  ghost predicate Chosen(text: Str, a: int, ms: set<Str>, ws: set<Str>)
    requires 0 <= a < |text|
  {
    ContainsOne(text[a..LineEnd(text, a)], ms - {[]}) || ([] in ms && Alike(ws) && Rests(text[a..NextLine(text, a)], ws))
  }

  lemma HitContains(ms: set<Str>, text: Str, a: int, k: int)
    requires Plain(ms) && 0 <= a < k <= |text| && k <= NextLine(text, a) && Hit(ms, text[a..k])
    ensures ContainsOne(text[a..LineEnd(text, a)], ms - {[]})
  {
    hide LineEnd, Contains, Plain;
    var m :| m in ms && m != [] && Suffix(m, text[a..k]);
    BeforeEnd(ms, m, text, a, k);
    SuffixOccurs(m, text, a, k, LineEnd(text, a));
    assert m in ms - {[]};
  }

  /** A keyword that ends at k ends before the newline of the line. */
  lemma BeforeEnd(ms: set<Str>, m: Str, text: Str, a: int, k: int)
    requires Plain(ms) && m in ms && m != [] && 0 <= a < k <= |text| && k <= NextLine(text, a) && Suffix(m, text[a..k])
    ensures k <= LineEnd(text, a)
  {
    hide LineEnd;
    assert text[k - 1] == text[a..k][k - a - 1] == m[|m| - 1];
  }

  lemma SuffixOccurs(m: Str, text: Str, a: int, k: int, e: int)
    requires 0 <= a <= k <= e <= |text| && Suffix(m, text[a..k])
    ensures Contains(text[a..e], m)
  {
    var i := k - a - |m|;
    SliceSlice(text, a, e, i, |m|);
    Ending(text, a, k, |m|);
    assert Occurs(text[a..e], m, i);
  }

  lemma Ending(text: Str, a: int, k: int, n: int)
    requires 0 <= a <= k <= |text| && 0 <= n <= k - a
    ensures text[a..k][k - a - n..] == text[k - n..k]
  {
  }

  lemma SliceSlice(text: Str, a: int, e: int, i: int, n: int)
    requires 0 <= a <= e <= |text| && 0 <= i && 0 <= n && i + n <= e - a
    ensures text[a..e][i..i + n] == text[a + i..a + i + n]
  {
    var x, y := text[a..e][i..i + n], text[a + i..a + i + n];
    assert |x| == |y| && forall k :: 0 <= k < n ==> x[k] == text[a + i + k] == y[k];
  }

  lemma ContainsHit(ms: set<Str>, text: Str, a: int) returns (k: int)
    requires 0 <= a < |text| && ContainsOne(text[a..LineEnd(text, a)], ms - {[]})
    ensures a < k <= NextLine(text, a) && Hit(ms, text[a..k])
  {
    hide LineEnd;
    var line := text[a..LineEnd(text, a)];
    var m :| m in ms - {[]} && Contains(line, m);
    var i :| Occurs(line, m, i);
    k := a + i + |m|;
    var x := text[a..k];
    SliceSlice(text, a, LineEnd(text, a), i, |m|);
    assert x[i..] == text[a + i..k];
    assert |x| - |m| == i;
    assert Suffix(m, x);
  }

  /** The scan is not in the middle of a keyword when its state is the root. */
  lemma LongestClear(ps: set<Str>, ws: set<Str>, x: Str)
    requires Closed(ps) && Grown(ps, ws)
    ensures Longest(ps, x) == [] <==> Clear(x, ws)
  {
    hide Longest;
    LongestSuffix(ps, x);
    if Longest(ps, x) == [] {
      forall u | Suffix(u, x) && u != []
        ensures !PrefixOfOne(u, ws)
      {
        if PrefixOfOne(u, ws) {
          var v :| v in ws && u <= v;
          ClosedPrefix(ps, u, v);
          LongestIsLongest(ps, x, u);
        }
      }
    }
  }

  /** Which lines are selected. */
  lemma LineChosen(ps: set<Str>, ms: set<Str>, ws: set<Str>, text: Str, a: int)
    requires Closed(ps) && Grown(ps, ws) && Plain(ps) && ms <= ps && 0 <= a < |text|
    ensures LineFires(ps, ms, Alike(ws), text, a) <==> Chosen(text, a, ms, ws)
  {
    hide Longest, LineEnd, Hit, ContainsOne, Plain, Grown, Alike, Clear;
    var n := NextLine(text, a);
    PlainSubset(ps, ms);
    if LineFires(ps, ms, Alike(ws), text, a) {
      var k :| a < k <= n && Fires(ps, ms, Alike(ws), text[a..k]);
      if Hit(ms, text[a..k]) {
        HitContains(ms, text, a, k);
      } else {
        LongestClear(ps, ws, text[a..k]);
        Slice(text, a, k, n);
      }
    }
    if ContainsOne(text[a..LineEnd(text, a)], ms - {[]}) {
      var k := ContainsHit(ms, text, a);
      assert Fires(ps, ms, Alike(ws), text[a..k]);
    }
    if [] in ms && Alike(ws) && Rests(text[a..n], ws) {
      var k :| 0 < k <= n - a && Clear(text[a..n][..k], ws);
      Slice(text, a, a + k, n);
      LongestClear(ps, ws, text[a..a + k]);
      assert Fires(ps, ms, Alike(ws), text[a..a + k]);
    }
  }

  lemma PlainSubset(ps: set<Str>, ms: set<Str>)
    requires Plain(ps) && ms <= ps
    ensures Plain(ms)
  {
  }

  /** The numbers of the lines that are chosen. */
  ghost function ChosenLines(ms: set<Str>, ws: set<Str>, text: Str, a: int, lnum: int): seq<int>
    requires 0 <= a <= |text|
    decreases |text| - a
  {
    if a == |text| then []
    else
      (if Chosen(text, a, ms, ws) then [lnum] else []) + ChosenLines(ms, ws, text, NextLine(text, a), lnum + 1)
  }

  lemma {:induction false} SelectedChosen(ps: set<Str>, ms: set<Str>, ws: set<Str>, text: Str, a: int, lnum: int)
    requires Closed(ps) && Grown(ps, ws) && Plain(ps) && ms <= ps && 0 <= a <= |text|
    ensures Selected(ps, ms, Alike(ws), text, a, lnum) == ChosenLines(ms, ws, text, a, lnum)
    decreases |text| - a
  {
    hide LineEnd, LineFires, Chosen, Plain, Grown, Alike;
    if a < |text| {
      LineChosen(ps, ms, ws, text, a);
      SelectedChosen(ps, ms, ws, text, NextLine(text, a), lnum + 1);
    }
  }

  lemma {:induction false} KeywordsPlain(arg: Str, a: int)
    requires 0 <= a <= |arg|
    ensures Plain(Keywords(arg, a))
    decreases |arg| - a
  {
    if a < |arg| {
      var e := LineEnd(arg, a);
      if e < |arg| {
        KeywordsPlain(arg, e + 1);
      }
      hide LineEnd;
    }
  }

  lemma GrownPlain(ps: set<Str>, ws: set<Str>)
    requires Grown(ps, ws) && Plain(ws)
    ensures Plain(ps)
  {
    forall u, i | u in ps && 0 <= i < |u|
      ensures u[i] != NL
    {
      var v :| v in ws && u <= v;
      assert v[i] == u[i];
    }
  }

  /** What the program selects. */
  ghost function Chosens(arg: Str, text: Str): seq<int> {
    ChosenLines(Marked(arg, 0, {}), Keywords(arg, 0), text, 0, 1)
  }

  /** The whole program: cgotofn, cfail and execute. */
  method Run(arg: Str, text: Str) returns (ok: bool, lines: seq<int>)
    requires IsText(arg)
    ensures ok <==> Needed(Starts(Keywords(arg, 0))) <= MAXSIZ
    ensures 2 * |arg| < MAXSIZ ==> ok
    ensures ok ==> lines == Chosens(arg, text)
  {
    hide Complete, Paths, Grown, Marked, Keywords, Selected, ChosenLines, Built, Closed, Alike;
    lines := [];
    var m;
    m, ok := Cgotofn(arg);
    if ok {
      ghost var ms, ws := Marked(arg, 0, {}), Keywords(arg, 0);
      BuiltSolo(m.T(), m.g, ms, ws);
      ghost var t := m.T();
      Cfail(m, ms);
      assert t[0].link == m.T()[0].link;
      CompleteFacts(m.T(), m.g, ms);
      KeywordsPlain(arg, 0);
      GrownPlain(Paths(m.g), ws);
      lines := Execute(m, text, ms);
      SelectedChosen(Paths(m.g), ms, ws, text, 0, 1);
    }
  }

  lemma BuiltSolo(t: seq<Node>, g: Layout, ms: set<Str>, ws: set<Str>)
    requires Built(t, g, ms, -1) && Grown(Paths(g), ws)
    ensures Solo(t) <==> Alike(ws)
  {
    hide Shape, Marks, Paths, Grown;
    SoloIff(t, g, ws);
  }

  // ---- what is asked for ----

  /** The numbers of the lines that hold one of the keywords: what is asked for. */
  ghost function Wanted(ks: set<Str>, text: Str, a: int, lnum: int): seq<int>
    requires 0 <= a <= |text|
    decreases |text| - a
  {
    if a == |text| then []
    else
      (if ContainsOne(text[a..LineEnd(text, a)], ks) then [lnum] else []) + Wanted(ks, text, NextLine(text, a), lnum + 1)
  }

  /** All lines of the text end in a newline. */
  ghost predicate Whole(text: Str) { text != [] ==> text[|text| - 1] == NL }

  /**
   * The last keyword, if no newline ends it, is not the start of an earlier
   * one, or holds an earlier one; and there is no empty keyword, or all
   * others begin with the same character.
   */
  ghost predicate Sound(arg: Str) {
    && (Last(arg, 0) == [] || !PrefixOfOne(Last(arg, 0), Ended(arg, 0)) || ContainsOne(Last(arg, 0), Ended(arg, 0)))
    && ([] !in Keywords(arg, 0) || Alike(Keywords(arg, 0)))
  }

  lemma SelfIn(line: Str)
    ensures Contains(line, []) && Contains(line, line)
  {
    var none: Str := [];
    assert Occurs(line, none, 0) && Occurs(line, line, 0);
  }

  lemma ContainsTrans(line: Str, u: Str, v: Str)
    requires Contains(line, u) && Contains(u, v)
    ensures Contains(line, v)
  {
    var i :| Occurs(line, u, i);
    var j :| Occurs(u, v, j);
    SliceSlice(line, i, i + |u|, j, |v|);
    assert Occurs(line, v, i + j);
  }

  /** The lists as sets: es are the keywords ended by a newline, last is the last one or empty. */
  lemma MarkedSets(arg: Str)
    ensures var es, last := Ended(arg, 0), Last(arg, 0);
            && Keywords(arg, 0) == es + (if last == [] then {} else {last})
            && Marked(arg, 0, {}) == es + if last == [] || PrefixOfOne(last, es) then {} else {last}
  {
    MarkedIs(arg, 0, {});
    hide PrefixOfOne, Marked, Keywords, Last, Ended;
    assert {} + Ended(arg, 0) == Ended(arg, 0);
    assert {} + Keywords(arg, 0) == Keywords(arg, 0);
  }

  /** With such a list of keywords a line holds a marked one if it holds any. */
  lemma MarkedEnough(line: Str, arg: Str)
    requires Sound(arg)
    ensures ContainsOne(line, Marked(arg, 0, {})) <==> ContainsOne(line, Keywords(arg, 0))
  {
    hide Marked, Keywords, Last, Ended, Contains, Alike;
    MarkedSets(arg);
    var ms, ws, last := Marked(arg, 0, {}), Keywords(arg, 0), Last(arg, 0);
    if ContainsOne(line, ms) {
      var k :| k in ms && Contains(line, k);
      assert k in ws;
    }
    if ContainsOne(line, ws) {
      var k :| k in ws && Contains(line, k);
      if k !in ms {
        assert k == last;
        var v :| v in Ended(arg, 0) && Contains(last, v);
        ContainsTrans(line, last, v);
        assert v in ms;
      }
    }
  }

  lemma WholeLine(text: Str, a: int, ws: set<Str>)
    requires Whole(text) && 0 <= a < |text| && Plain(ws)
    ensures LineEnd(text, a) < |text| && Whole(text[a..NextLine(text, a)]) && Rests(text[a..NextLine(text, a)], ws)
  {
    var e := LineEnd(text, a);
    assert e < |text|;
    var raw := text[a..e + 1];
    assert raw[|raw| - 1] == NL && raw[..|raw|] == raw;
    forall u | Suffix(u, raw) && u != []
      ensures !PrefixOfOne(u, ws)
    {
      NewlineEnds(u, raw, ws);
    }
    assert Clear(raw[..|raw|], ws);
  }

  lemma NewlineEnds(u: Str, x: Str, ws: set<Str>)
    requires Plain(ws) && Suffix(u, x) && u != [] && x[|x| - 1] == NL
    ensures !PrefixOfOne(u, ws)
  {
    assert u[|u| - 1] == x[|x| - |u|..][|u| - 1] == NL;
  }

  lemma ContainsLess(line: Str, ms: set<Str>)
    requires [] !in ms
    ensures ContainsOne(line, ms - {[]}) <==> ContainsOne(line, ms)
  {
    assert ms - {[]} == ms;
  }

  /** One line is chosen exactly when it is asked for. */
  lemma ChosenRight(arg: Str, text: Str, a: int)
    requires Sound(arg) && Whole(text) && 0 <= a < |text|
    ensures Chosen(text, a, Marked(arg, 0, {}), Keywords(arg, 0)) <==> ContainsOne(text[a..LineEnd(text, a)], Keywords(arg, 0))
  {
    hide Marked, Keywords, Last, Ended, Contains, Alike, LineEnd, PrefixOfOne, NextLine, Plain, Rests, Whole;
    var line, ms, ws := text[a..LineEnd(text, a)], Marked(arg, 0, {}), Keywords(arg, 0);
    KeywordsPlain(arg, 0);
    WholeLine(text, a, ws);
    MarkedSets(arg);
    MarkedEnough(line, arg);
    if [] in ws {
      SelfIn(line);
      assert [] in ms;
    } else {
      ContainsLess(line, ms);
    }
  }

  lemma {:induction false} ChosenWanted(arg: Str, text: Str, a: int, lnum: int)
    requires Sound(arg) && Whole(text) && 0 <= a <= |text|
    ensures ChosenLines(Marked(arg, 0, {}), Keywords(arg, 0), text, a, lnum) == Wanted(Keywords(arg, 0), text, a, lnum)
    decreases |text| - a
  {
    hide Marked, Keywords, Sound, LineEnd, Chosen, ContainsOne, Whole;
    if a < |text| {
      ChosenRight(arg, text, a);
      ChosenWanted(arg, text, NextLine(text, a), lnum + 1);
    }
  }

  /** The program selects what is asked for, in all texts of whole lines, exactly for such lists of keywords. */
  lemma RightIff(arg: Str)
    ensures (forall text {:trigger Chosens(arg, text)} :: Whole(text) ==> Chosens(arg, text) == Wanted(Keywords(arg, 0), text, 0, 1)) <==>
            Sound(arg)
  {
    hide Marked, Keywords, Sound, Wanted, ChosenLines, Whole;
    if Sound(arg) {
      forall text | Whole(text)
        ensures Chosens(arg, text) == Wanted(Keywords(arg, 0), text, 0, 1)
      {
        ChosenWanted(arg, text, 0, 1);
      }
    } else {
      var text := Missed(arg);
    }
  }

  /** One line, given as a text. */
  lemma OneLine(line: Str, ms: set<Str>, ws: set<Str>)
    requires forall k :: 0 <= k < |line| ==> line[k] != NL
    ensures var text := line + [NL];
            && Whole(text)
            && Wanted(ws, text, 0, 1) == (if ContainsOne(line, ws) then [1] else [])
            && ChosenLines(ms, ws, text, 0, 1) == if Chosen(text, 0, ms, ws) then [1] else []
    ensures Chosen(line + [NL], 0, ms, ws) ==> ContainsOne(line, ms - {[]}) || ([] in ms && Alike(ws))
  {
    hide ContainsOne, Alike, Rests;
    var text := line + [NL];
    var e := LineEnd(text, 0);
    assert text[|line|] == NL;
    assert forall k :: 0 <= k < |line| ==> text[k] != NL;
    assert text[0..e] == line && NextLine(text, 0) == |text|;
    assert Wanted(ws, text, |text|, 2) == [];
    assert ChosenLines(ms, ws, text, |text|, 2) == [];
  }

  /** For any other list: the last keyword as a line, or an empty line, is asked for and not selected. */
  lemma Missed(arg: Str) returns (text: Str)
    requires !Sound(arg)
    ensures Whole(text) && Wanted(Keywords(arg, 0), text, 0, 1) == [1] && Chosens(arg, text) == []
  {
    hide Marked, Keywords, Last, Ended, Contains, Alike, PrefixOfOne, Whole, Chosen;
    MarkedSets(arg);
    KeywordsPlain(arg, 0);
    var ms, ws, es, last := Marked(arg, 0, {}), Keywords(arg, 0), Ended(arg, 0), Last(arg, 0);
    var line: Str := if [] in ws && !Alike(ws) then [] else last;
    text := line + [NL];
    SelfIn(line);
    assert line in ws && ContainsOne(line, ws);
    OneLine(line, ms, ws);
    if line == last != [] {
      assert ms == es && !ContainsOne(last, es);
      SelfIn(last);
      assert [] !in es;
      ContainsLess(line, ms);
    } else {
      NoneInEmpty(ms);
    }
  }

  lemma NoneInEmpty(ms: set<Str>)
    ensures !ContainsOne([], ms - {[]})
  {
  }

  /** For the keywords ab and a, given as two lines without a last newline, the line a is not selected. */
  lemma LostKeyword()
    ensures var arg := [97, 98, NL, 97];
            Keywords(arg, 0) == {[97, 98], [97]} && Wanted(Keywords(arg, 0), [97, NL], 0, 1) == [1] && Chosens(arg, [97, NL]) == []
  {
    var arg, line: Str := [97, 98, NL, 97], [97];
    assert LineEnd(arg, 3) == 4 && LineEnd(arg, 0) == LineEnd(arg, 1) == LineEnd(arg, 2) == 2;
    assert arg[3..4] == [97] && arg[0..2] == [97, 98];
    var ws: set<Str>, ms: set<Str> := {[97, 98], [97]}, {[97, 98]};
    assert Keywords(arg, 3) == {[97]};
    assert Keywords(arg, 0) == ws;
    assert PrefixOfOne([97], ms);
    assert Marked(arg, 3, ms) == ms;
    assert Marked(arg, 0, {}) == ms by { assert {} + {[97, 98]} == ms; }
    SelfIn(line);
    assert line in ws && ContainsOne(line, ws);
    OneLine(line, ms, ws);
    assert !ContainsOne(line, ms - {[]});
    assert line + [NL] == [97, NL];
  }
}
