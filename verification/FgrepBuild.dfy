/** cgotofn of usr/src/cmd/fgrep.c: the table of states for a list of keywords. */
module FgrepBuild {
  import opened FgrepSpec
  import opened FgrepTable

  const NL := 10

  // ---- the list of keywords ----

  ghost predicate IsText(arg: Str) { forall k :: 0 <= k < |arg| ==> arg[k] != 0 }

  /** Where the line that position a is in ends. */
  function LineEnd(arg: Str, a: int): (e: int)
    requires 0 <= a <= |arg|
    ensures a <= e <= |arg| && (e < |arg| ==> arg[e] == NL) && forall k :: a <= k < e ==> arg[k] != NL
    decreases |arg| - a
  {
    if a == |arg| || arg[a] == NL then a else LineEnd(arg, a + 1)
  }

  /** All lines from position a on: the keywords. */
  ghost function Keywords(arg: Str, a: int): set<Str>
    requires 0 <= a <= |arg|
    decreases |arg| - a
  {
    if a == |arg| then {}
    else
      var e := LineEnd(arg, a);
      {arg[a..e]} + if e < |arg| then Keywords(arg, e + 1) else {}
  }

  ghost predicate PrefixOfOne(u: Str, ws: set<Str>) { exists v :: v in ws && u <= v }

  /** The keywords that are marked, from position a on, with ms before: a last one without a newline may be lost. */
  ghost function Marked(arg: Str, a: int, ms: set<Str>): set<Str>
    requires 0 <= a <= |arg|
    decreases |arg| - a
  {
    if a == |arg| then ms
    else
      var e := LineEnd(arg, a);
      if e < |arg| then Marked(arg, e + 1, ms + {arg[a..e]})
      else if PrefixOfOne(arg[a..e], ms) then ms
      else ms + {arg[a..e]}
  }

  /** The last line, if no newline ends it. */
  function Last(arg: Str, a: int): (r: Str)
    requires 0 <= a <= |arg|
    decreases |arg| - a
  {
    var e := LineEnd(arg, a);
    if e < |arg| then Last(arg, e + 1) else arg[a..e]
  }

  ghost function Ended(arg: Str, a: int): set<Str>
    requires 0 <= a <= |arg|
    decreases |arg| - a
  {
    var e := LineEnd(arg, a);
    if e < |arg| then {arg[a..e]} + Ended(arg, e + 1) else {}
  }

  /** Every keyword is marked, unless the last has no newline and is the start of an earlier one without being one itself. */
  lemma {:induction false} AllMarked(arg: Str, a: int, ms: set<Str>)
    requires 0 <= a <= |arg|
    ensures Marked(arg, a, ms) == ms + Keywords(arg, a) <==>
            Last(arg, a) == [] || Last(arg, a) in ms + Ended(arg, a) || !PrefixOfOne(Last(arg, a), ms + Ended(arg, a))
    decreases |arg| - a
  {
    var e := LineEnd(arg, a);
    if e < |arg| {
      var word := arg[a..e];
      AllMarked(arg, e + 1, ms + {word});
      assert ms + {word} + Keywords(arg, e + 1) == ms + ({word} + Keywords(arg, e + 1));
      assert ms + {word} + Ended(arg, e + 1) == ms + ({word} + Ended(arg, e + 1));
    } else {
      assert ms + {} == ms;
      if a < |arg| {
        assert {arg[a..e]} + {} == {arg[a..e]};
        assert arg[a..e] in {arg[a..e]};
      }
    }
  }

  /** The keywords, and those of them that are marked, by the list without its last line and that line. */
  lemma {:induction false} MarkedIs(arg: Str, a: int, ms: set<Str>)
    requires 0 <= a <= |arg|
    ensures var last, all := Last(arg, a), ms + Ended(arg, a);
            && ms + Keywords(arg, a) == all + (if last == [] then {} else {last})
            && Marked(arg, a, ms) == all + if last == [] || PrefixOfOne(last, all) then {} else {last}
    decreases |arg| - a
  {
    hide PrefixOfOne;
    var e := LineEnd(arg, a);
    if e < |arg| {
      var word := arg[a..e];
      MarkedIs(arg, e + 1, ms + {word});
      Gathered(ms, word, Keywords(arg, e + 1));
      Gathered(ms, word, Ended(arg, e + 1));
    } else if a < |arg| {
      assert {arg[a..e]} + {} == {arg[a..e]};
    }
  }

  lemma Gathered(ms: set<Str>, word: Str, more: set<Str>)
    ensures ms + {word} + more == ms + ({word} + more)
  {
  }

  // ---- the table ----

  /** A node that is first in its list is marked when its text is a keyword. */
  ghost predicate Marks(t: seq<Node>, g: Layout, ms: set<Str>)
    requires |t| == |g.head| == |g.path|
  {
    ms <= Paths(g) && forall x {:trigger t[x]} :: 0 <= x < |t| ==> (t[x].out <==> g.head[x] && g.path[x] in ms)
  }

  ghost predicate NoFail(t: seq<Node>) { forall x {:trigger t[x]} :: 0 <= x < |t| ==> t[x].fail == 0 }

  /** All states are there for the keywords ws. */
  ghost predicate Grown(ps: set<Str>, ws: set<Str>) {
    ws <= ps && forall u :: u in ps ==> u == [] || PrefixOfOne(u, ws)
  }

  ghost function WithEdge(g: Layout, s: int, c: int): Layout
    requires 0 <= s < |g.path|
  {
    Layout(g.path + [g.path[s] + [c]], g.head + [true], g.up + [s])
  }

  ghost function WithLink(g: Layout, s: int): Layout
    requires 0 <= s < |g.path|
  {
    Layout(g.path + [g.path[s]], g.head + [false], g.up + [s])
  }

  function AddEdge(t: seq<Node>, s: int, c: int): seq<Node>
    requires 0 <= s < |t|
  {
    t[s := t[s].(inp := c, nst := |t|)] + [Blank]
  }

  function AddLink(t: seq<Node>, s: int): seq<Node>
    requires 0 <= s < |t|
  {
    t[s := t[s].(link := |t|)] + [Blank]
  }

  lemma EdgeUnique(t: seq<Node>, g: Layout, s: int, c: int)
    requires Shape(t, g) && 0 <= s < |t| && t[s].inp == 0 && g.path[s] + [c] !in Paths(g)
    ensures Unique(AddEdge(t, s, c), WithEdge(g, s, c))
  {
    forall x | 0 <= x < |t| && t[x].inp != 0 && g.path[x] == g.path[s]
      ensures t[x].inp != c
    {
      NodeFacts(t, g, x);
      assert g.path[t[x].nst] in Paths(g);
    }
    hide Paths, NodeOk;
  }

  lemma EdgeNode(t: seq<Node>, g: Layout, s: int, c: int, x: int)
    requires Shape(t, g) && 0 <= s < |t| && t[s].inp == 0 && c != 0 && 0 <= x <= |t|
    ensures NodeOk(AddEdge(t, s, c), WithEdge(g, s, c), x)
  {
    NodeFacts(t, g, s);
    if x < |t| {
      NodeFacts(t, g, x);
    }
    hide Shape;
  }

  lemma EdgeShape(t: seq<Node>, g: Layout, s: int, c: int)
    requires Shape(t, g) && 0 <= s < |t| && t[s].inp == 0 && c != 0 && g.path[s] + [c] !in Paths(g)
    ensures Shape(AddEdge(t, s, c), WithEdge(g, s, c))
    ensures Paths(WithEdge(g, s, c)) == Paths(g) + {g.path[s] + [c]}
  {
    hide NodeOk, Unique, Paths;
    EdgeUnique(t, g, s, c);
    forall x | 0 <= x <= |t|
      ensures NodeOk(AddEdge(t, s, c), WithEdge(g, s, c), x)
    {
      EdgeNode(t, g, s, c, x);
    }
    PathsMore(g, WithEdge(g, s, c));
  }

  lemma PathsMore(g: Layout, g': Layout)
    requires |g.path| == |g.head| && |g'.path| == |g'.head| == |g.path| + 1
    requires g.path == g'.path[..|g.path|] && g.head == g'.head[..|g.path|]
    ensures Paths(g') == Paths(g) + if g'.head[|g.path|] then {g'.path[|g.path|]} else {}
  {
    var n := |g.path|;
    assert forall x :: 0 <= x < n ==> g'.path[x] == g.path[x] && g'.head[x] == g.head[x];
    forall u
      ensures u in Paths(g') <==> u in Paths(g) || (g'.head[n] && u == g'.path[n])
    {
      if u in Paths(g) {
        var x :| 0 <= x < n && g.head[x] && g.path[x] == u;
        assert g'.head[x] && g'.path[x] == u;
      }
      if u in Paths(g') {
        var x :| 0 <= x <= n && g'.head[x] && g'.path[x] == u;
        assert x < n ==> g.head[x] && g.path[x] == u;
      }
    }
  }

  lemma LinkUnique(t: seq<Node>, g: Layout, s: int)
    requires |t| == |g.path| && Unique(t, g) && 0 <= s < |t|
    ensures Unique(AddLink(t, s), WithLink(g, s))
  {
  }

  lemma LinkNode(t: seq<Node>, g: Layout, s: int, x: int)
    requires Shape(t, g) && 0 <= s < |t| && t[s].inp != 0 && t[s].link == 0 && 0 <= x <= |t|
    ensures NodeOk(AddLink(t, s), WithLink(g, s), x)
  {
    NodeFacts(t, g, s);
    if x < |t| {
      NodeFacts(t, g, x);
    }
    hide Shape;
  }

  lemma LinkShape(t: seq<Node>, g: Layout, s: int)
    requires Shape(t, g) && 0 <= s < |t| && t[s].inp != 0 && t[s].link == 0
    ensures Shape(AddLink(t, s), WithLink(g, s))
    ensures Paths(WithLink(g, s)) == Paths(g)
  {
    hide NodeOk, Unique, Paths;
    LinkUnique(t, g, s);
    forall x | 0 <= x <= |t|
      ensures NodeOk(AddLink(t, s), WithLink(g, s), x)
    {
      LinkNode(t, g, s, x);
    }
    PathsMore(g, WithLink(g, s));
  }

  lemma EdgeMarks(t: seq<Node>, g: Layout, ms: set<Str>, s: int, c: int)
    requires Shape(t, g) && 0 <= s < |t| && Marks(t, g, ms) && NoFail(t) && g.path[s] + [c] !in Paths(g)
    requires Paths(g) <= Paths(WithEdge(g, s, c))
    ensures Marks(AddEdge(t, s, c), WithEdge(g, s, c), ms) && NoFail(AddEdge(t, s, c))
  {
    hide Paths;
  }

  lemma LinkMarks(t: seq<Node>, g: Layout, ms: set<Str>, s: int)
    requires Shape(t, g) && 0 <= s < |t| && Marks(t, g, ms) && NoFail(t)
    requires Paths(g) == Paths(WithLink(g, s))
    ensures Marks(AddLink(t, s), WithLink(g, s), ms) && NoFail(AddLink(t, s))
  {
    hide Paths;
  }

  lemma OutMarks(t: seq<Node>, g: Layout, ms: set<Str>, s: int)
    requires Shape(t, g) && 0 <= s < |t| && g.head[s] && Marks(t, g, ms) && NoFail(t)
    ensures Shape(t[s := t[s].(out := true)], g)
    ensures Marks(t[s := t[s].(out := true)], g, ms + {g.path[s]}) && NoFail(t[s := t[s].(out := true)])
  {
    var t' := t[s := t[s].(out := true)];
    ShapeSame(t, t', g);
    forall x | 0 <= x < |t|
      ensures t'[x].out <==> g.head[x] && g.path[x] in ms + {g.path[s]}
    {
      if g.head[x] && g.path[x] == g.path[s] {
        SameState(t, g, x, s);
      }
    }
    assert g.path[s] in Paths(g);
    hide NodeOk, Unique;
  }

  // ---- how many nodes ----

  /** All starts of the keywords: the states there will be. */
  ghost function Starts(ws: set<Str>): set<Str> { {[]} + set w, k | w in ws && 0 <= k <= |w| :: w[..k] }

  lemma StartsIs(ps: set<Str>, ws: set<Str>)
    ensures Closed(Starts(ws)) && ws <= Starts(ws)
    ensures Closed(ps) && Grown(ps, ws) ==> ps == Starts(ws)
  {
    var qs := Starts(ws);
    forall u | u in qs
      ensures Parent(u) in qs
    {
      if u != [] {
        var w, k :| w in ws && 0 <= k <= |w| && u == w[..k];
        assert Parent(u) == w[..k - 1];
      }
    }
    forall w | w in ws
      ensures w in qs
    {
      assert w == w[..|w|];
    }
    if Closed(ps) && Grown(ps, ws) {
      forall u
        ensures u in qs <==> u in ps
      {
        StartIn(ps, ws, u);
      }
    }
  }

  lemma StartIn(ps: set<Str>, ws: set<Str>, u: Str)
    requires Closed(ps) && Grown(ps, ws)
    ensures u in Starts(ws) <==> u in ps
  {
    if u in Starts(ws) && u != [] {
      var w, k :| w in ws && 0 <= k <= |w| && u == w[..k];
      ClosedPrefix(ps, u, w);
    }
    if u in ps && u != [] {
      var v :| v in ws && u <= v;
      assert u == v[..|u|];
    }
  }

  /** There are n nodes: what the states need, and one for the state u if others have been reached from it. */
  ghost predicate Sized(n: int, ps: set<Str>, u: Str) { n == Needed(ps) + if Leaf(ps, u) then 0 else 1 }

  /** Of the states full the table has ps so far, and the line u is still to come. */
  ghost predicate Within(ps: set<Str>, full: set<Str>, u: Str) { Closed(full) && ps <= full && u in full }

  /** One more state takes the next node. */
  lemma SizedMore(ps: set<Str>, full: set<Str>, u: Str, c: int, word: Str)
    requires Closed(ps) && u in ps && u + [c] !in ps && Within(ps, full, word) && u + [c] <= word
    ensures Within(ps + {u + [c]}, full, word) && Leaf(ps + {u + [c]}, u + [c])
    ensures Needed(ps + {u + [c]}) == Needed(ps) + (if Leaf(ps, u) then 1 else 2) <= Needed(full)
  {
    ClosedPrefix(full, u + [c], word);
    NeededMore(ps, u, c);
    NeededMono(ps + {u + [c]}, full);
  }

  /** The last node of a list has no character exactly when its state leads nowhere. */
  lemma LeafIff(t: seq<Node>, g: Layout, ms: set<Str>, x: int)
    requires Built(t, g, ms, -1) && 0 <= x < |t| && t[x].link == 0
    ensures x < |g.path| && (t[x].inp == 0 <==> Leaf(Paths(g), g.path[x]))
  {
    hide Unique, Marks, Paths, Closed;
    NodeFacts(t, g, x);
    if t[x].inp != 0 {
      PathIn(g, t[x].nst);
      assert g.path[x] + [t[x].inp] in Paths(g);
    } else {
      forall c
        ensures g.path[x] + [c] !in Paths(g)
      {
        NoEdge(t, g, x, c);
      }
    }
  }

  lemma NoEdge(t: seq<Node>, g: Layout, x: int, c: int)
    requires Shape(t, g) && 0 <= x < |t| && g.head[x] && t[x].inp == 0 && t[x].link == 0
    ensures g.path[x] + [c] !in Paths(g)
  {
    hide Unique, Paths;
    if c == 0 {
      NoZero(t, g, g.path[x]);
    } else {
      Lookup(t, g, x, c);
    }
  }

  lemma NoZero(t: seq<Node>, g: Layout, u: Str)
    requires Shape(t, g)
    ensures u + [0] !in Paths(g)
  {
    forall h | 0 <= h < |t| && g.head[h] && h != 0
      ensures g.path[h] != u + [0]
    {
      NodeFacts(t, g, h);
      NodeFacts(t, g, g.up[h]);
      assert (u + [0])[|u|] == 0 && g.path[h][|g.path[h]| - 1] != 0;
    }
  }

  // ---- the program ----

  /** Every node that is not the first of its list has a character, but for node s. */
  ghost predicate Full(t: seq<Node>, g: Layout, s: int) {
    |t| == |g.head| && forall x {:trigger t[x]} :: 0 <= x < |t| && !g.head[x] && x != s ==> t[x].inp != 0
  }

  ghost predicate Ready(m: Machine, ms: set<Str>, s: int)
    reads m, m.w
  {
    m.Table() && Built(m.T(), m.g, ms, s)
  }

  ghost predicate Built(t: seq<Node>, g: Layout, ms: set<Str>, s: int) {
    Shape(t, g) && Marks(t, g, ms) && NoFail(t) && Full(t, g, s)
  }

  /** A new state after node s, for character c. */
  method NewEdge(m: Machine, s: int, c: int, ghost ms: set<Str>) returns (ok: bool)
    requires Ready(m, ms, s) && 0 <= s <= m.smax && m.T()[s].inp == 0 && c != 0 && m.g.path[s] + [c] !in Paths(m.g)
    modifies m, m.w
    ensures ok <==> old(m.smax) < MAXSIZ - 1
    ensures ok ==> Ready(m, ms, -1) && m.smax == old(m.smax) + 1 && m.g == WithEdge(old(m.g), s, c)
    ensures ok ==> Paths(m.g) == old(Paths(m.g)) + {old(m.g).path[s] + [c]}
    ensures ok ==> m.T()[m.smax] == Blank
  {
    hide Shape, Marks, NoFail, Full, Paths;
    ShapeSize(m.T(), m.g);
    ghost var t, g := m.T(), m.g;
    if m.smax >= MAXSIZ - 1 {
      return false;
    }
    m.smax := m.smax + 1;
    m.w[s] := m.w[s].(inp := c, nst := m.smax);
    m.g := WithEdge(g, s, c);
    assert m.T() == AddEdge(t, s, c);
    EdgeShape(t, g, s, c);
    EdgeMarks(t, g, ms, s, c);
    EdgeFull(t, g, s, c);
    ok := true;
  }

  lemma EdgeFull(t: seq<Node>, g: Layout, s: int, c: int)
    requires Full(t, g, s) && 0 <= s < |t| == |g.path| && c != 0
    ensures Full(AddEdge(t, s, c), WithEdge(g, s, c), -1)
  {
  }

  lemma LinkFull(t: seq<Node>, g: Layout, s: int)
    requires Full(t, g, -1) && 0 <= s < |t| == |g.path|
    ensures Full(AddLink(t, s), WithLink(g, s), |t|)
  {
  }

  lemma OutFull(t: seq<Node>, g: Layout, s: int)
    requires Full(t, g, -1) && 0 <= s < |t|
    ensures Full(t[s := t[s].(out := true)], g, -1)
  {
  }

  lemma BuiltSize(t: seq<Node>, g: Layout, ms: set<Str>, s: int)
    requires Built(t, g, ms, s)
    ensures |t| == |g.path| == |g.head| == |g.up| && t != [] && Closed(Paths(g))
  {
    PathsClosed(t, g);
  }

  lemma BuiltShape(t: seq<Node>, g: Layout, ms: set<Str>, s: int)
    requires Built(t, g, ms, s)
    ensures Shape(t, g)
  {
  }

  lemma FullLess(t: seq<Node>, g: Layout, ms: set<Str>, s: int)
    requires Built(t, g, ms, -1)
    ensures Built(t, g, ms, s)
  {
  }

  lemma ShapeSize(t: seq<Node>, g: Layout)
    requires Shape(t, g)
    ensures |t| == |g.path| == |g.head| == |g.up| && t != []
  {
  }

  /** A new node at the end of the list of node s. */
  method NewLink(m: Machine, s: int, ghost ms: set<Str>) returns (ok: bool)
    requires Ready(m, ms, -1) && 0 <= s <= m.smax && m.T()[s].inp != 0 && m.T()[s].link == 0
    modifies m, m.w
    ensures ok <==> old(m.smax) < MAXSIZ - 1
    ensures ok ==> Ready(m, ms, m.smax) && m.smax == old(m.smax) + 1 && m.g == WithLink(old(m.g), s)
    ensures ok ==> Paths(m.g) == old(Paths(m.g))
    ensures ok ==> m.T()[m.smax] == Blank
  {
    hide Shape, Marks, NoFail, Full, Paths;
    ShapeSize(m.T(), m.g);
    ghost var t, g := m.T(), m.g;
    if m.smax >= MAXSIZ - 1 {
      return false;
    }
    m.smax := m.smax + 1;
    m.w[s] := m.w[s].(link := m.smax);
    m.g := WithLink(g, s);
    assert m.T() == AddLink(t, s);
    LinkShape(t, g, s);
    LinkMarks(t, g, ms, s);
    LinkFull(t, g, s);
    ok := true;
  }

  method SetOut(m: Machine, s: int, ghost ms: set<Str>)
    requires Ready(m, ms, -1) && 0 <= s <= m.smax && m.g.head[s]
    modifies m.w
    ensures Ready(m, ms + {m.g.path[s]}, -1)
  {
    hide Shape, Marks, NoFail, Full, Paths;
    ghost var t := m.T();
    ShapeSize(t, m.g);
    m.w[s] := m.w[s].(out := true);
    assert m.T() == t[s := t[s].(out := true)];
    OutMarks(t, m.g, ms, s);
    OutFull(t, m.g, s);
  }

  /** The search of the list of a state for a character: its node, or the last node of the list. */
  method Locate(m: Machine, s: int, c: int) returns (x: int, found: bool)
    requires m.Table() && Shape(m.T(), m.g) && 0 <= s <= m.smax && c != 0
    ensures 0 <= x <= m.smax && m.g.path[x] == m.g.path[s]
    ensures found ==> x == Find(m.T(), s, c)
    ensures !found ==> Find(m.T(), s, c) == -1 && m.T()[x].link == 0
  {
    x := s;
    while true
      invariant 0 <= x <= m.smax && m.g.path[x] == m.g.path[s]
      invariant Find(m.T(), s, c) == Find(m.T(), x, c)
      decreases m.smax - x
    {
      NodeFacts(m.T(), m.g, x);
      if m.w[x].inp == c {
        return x, true;
      }
      if m.w[x].inp == 0 || m.w[x].link == 0 {
        return x, false;
      }
      x := m.w[x].link;
    }
  }

  lemma {:induction false} ClosedPrefix(ps: set<Str>, u: Str, v: Str)
    requires Closed(ps) && v in ps && u <= v
    ensures u in ps
    decreases |v|
  {
    if u != v {
      ClosedPrefix(ps, u, Parent(v));
    }
  }

  /** After a new state there is nothing yet. */
  lemma FreshPath(ps: set<Str>, u: Str, c: int)
    requires Closed(ps) && u !in ps
    ensures u + [c] !in ps + {u}
  {
    Shorter(ps, u, c);
    assert |u + [c]| != |u|;
  }

  /** One more state of a line. */
  lemma EnterStep(ps: set<Str>, ms: set<Str>, arg: Str, a: int, e: int, i: int)
    requires Closed(ps) && 0 <= a <= i < e <= |arg| && arg[a..i + 1] !in ps && Growing(ps, ms, arg[a..e])
    ensures arg[a..i] + [arg[i]] == arg[a..i + 1]
    ensures Growing(ps + {arg[a..i + 1]}, ms, arg[a..e])
    ensures i + 1 < e ==> arg[a..i + 2] !in ps + {arg[a..i + 1]}
  {
    hide Growing, Closed;
    assert arg[a..i + 1] <= arg[a..e];
    GrowingMore(ps, ms, arg[a..e], arg[a..i + 1]);
    if i + 1 < e {
      FreshPath(ps, arg[a..i + 1], arg[i + 1]);
      assert arg[a..i + 1] + [arg[i + 1]] == arg[a..i + 2];
    }
  }

  ghost predicate Growing(ps: set<Str>, ms: set<Str>, word: Str) {
    ms <= ps && forall u :: u in ps ==> u == [] || PrefixOfOne(u, ms + {word})
  }

  lemma GrowingMore(ps: set<Str>, ms: set<Str>, word: Str, u: Str)
    requires Growing(ps, ms, word) && u <= word
    ensures Growing(ps + {u}, ms, word)
  {
    assert word in ms + {word};
  }

  lemma GrownGrowing(ps: set<Str>, ms: set<Str>, word: Str)
    requires Grown(ps, ms)
    ensures Growing(ps, ms, word)
  {
    forall u | u in ps
      ensures u == [] || PrefixOfOne(u, ms + {word})
    {
      if u != [] {
        var v :| v in ms && u <= v;
        assert v in ms + {word};
      }
    }
  }

  /** Node s has no character yet and is to get the next one of the line from a to e. */
  ghost predicate Entering(t: seq<Node>, g: Layout, ms: set<Str>, s: int, arg: Str, a: int, e: int, i: int) {
    && Built(t, g, ms, s) && 0 <= s < |t| == |g.path| && t[s].inp == 0
    && 0 <= a <= i < e <= |arg| && g.path[s] == arg[a..i]
    && arg[a..i + 1] !in Paths(g) && Growing(Paths(g), ms, arg[a..e])
  }

  /** Node s is the state for the line up to i. */
  ghost predicate Entered(t: seq<Node>, g: Layout, ms: set<Str>, s: int, arg: Str, a: int, e: int, i: int) {
    && Built(t, g, ms, -1) && 0 <= s < |t| == |g.path| == |g.head| && g.head[s]
    && 0 <= a <= i <= e <= |arg| && g.path[s] == arg[a..i] && Growing(Paths(g), ms, arg[a..e])
  }

  /** One turn of the loop at the label enter. */
  method EnterOne(m: Machine, s: int, arg: Str, a: int, ghost e: int, i: int, ghost ms: set<Str>, ghost full: set<Str>)
    returns (ok: bool)
    requires m.Table() && Entering(m.T(), m.g, ms, s, arg, a, e, i) && arg[i] != 0
    requires Within(Paths(m.g), full, arg[a..e]) && arg[a..i] in Paths(m.g) && Sized(m.smax + 1, Paths(m.g), arg[a..i])
    modifies m, m.w
    ensures ok ==> Within(Paths(m.g), full, arg[a..e]) && arg[a..i + 1] in Paths(m.g)
    ensures ok ==> m.smax + 1 == Needed(Paths(m.g)) && Sized(m.smax + 1, Paths(m.g), arg[a..i + 1])
    ensures !ok ==> Needed(full) > MAXSIZ
    ensures ok <==> old(m.smax) < MAXSIZ - 1
    ensures ok ==> m.Table() && m.smax == old(m.smax) + 1 && Entered(m.T(), m.g, ms, m.smax, arg, a, e, i + 1)
    ensures ok && i + 1 < e ==> Entering(m.T(), m.g, ms, m.smax, arg, a, e, i + 1)
  {
    hide Built, Paths, Growing, Closed, Within, Needed, Leaf;
    BuiltSize(m.T(), m.g, ms, s);
    EnterStep(Paths(m.g), ms, arg, a, e, i);
    Slice(arg, a, i + 1, e);
    SizedMore(Paths(m.g), full, arg[a..i], arg[i], arg[a..e]);
    ok := NewEdge(m, s, arg[i], ms);
    if ok {
      BuiltSize(m.T(), m.g, ms, -1);
      FullLess(m.T(), m.g, ms, m.smax);
    }
  }

  /** The part of cgotofn from the label enter: new states for the rest of a line, and its mark. */
  method Enter(m: Machine, s0: int, arg: Str, a: int, i0: int, ghost ms: set<Str>, ghost full: set<Str>) returns (ok: bool, i: int)
    requires IsText(arg) && 0 <= a <= i0 < |arg| && m.Table() && Entering(m.T(), m.g, ms, s0, arg, a, LineEnd(arg, a), i0)
    requires Within(Paths(m.g), full, arg[a..LineEnd(arg, a)])
    requires arg[a..i0] in Paths(m.g) && Sized(m.smax + 1, Paths(m.g), arg[a..i0])
    modifies m, m.w
    ensures ok ==> m.smax + 1 == Needed(Paths(m.g))
    ensures !ok ==> Needed(full) > MAXSIZ
    ensures ok ==> i == LineEnd(arg, a) && Ready(m, ms + {arg[a..i]}, -1) && Growing(Paths(m.g), ms, arg[a..i])
    ensures ok ==> m.smax == old(m.smax) + i - i0
    ensures !ok ==> old(m.smax) + (LineEnd(arg, a) - i0) >= MAXSIZ
  {
    hide Built, Entering, LineEnd, Growing, Paths, Within, Sized, Needed;
    i := i0;
    var s := s0;
    ghost var e := LineEnd(arg, a);
    EnteringFacts(m.T(), m.g, ms, s, arg, a, e, i);
    while true
      invariant m.Table() && i0 <= i < e && m.smax == old(m.smax) + i - i0
      invariant Entering(m.T(), m.g, ms, s, arg, a, e, i) && Within(Paths(m.g), full, arg[a..e])
      invariant arg[a..i] in Paths(m.g) && Sized(m.smax + 1, Paths(m.g), arg[a..i])
      decreases e - i
    {
      ok := EnterOne(m, s, arg, a, e, i, ms, full);
      if !ok {
        return;
      }
      s := m.smax;
      i := i + 1;
      if i >= |arg| || arg[i] == NL {
        break;
      }
    }
    SetOut(m, s, ms);
  }

  lemma EnteringFacts(t: seq<Node>, g: Layout, ms: set<Str>, s: int, arg: Str, a: int, e: int, i: int)
    requires Entering(t, g, ms, s, arg, a, e, i)
    ensures 0 <= a <= i < e <= |arg|
  {
  }

  lemma GrowingGrown(ps: set<Str>, ms: set<Str>, word: Str)
    requires Growing(ps, ms, word) && word in ps
    ensures Grown(ps, ms + {word})
  {
  }

  /** A word that leaves the states there are is not the start of a keyword; one that does not is. */
  lemma WordLeaves(ps: set<Str>, ms: set<Str>, word: Str, k: nat)
    requires Closed(ps) && Grown(ps, ms) && k <= |word|
    ensures word[..k] !in ps ==> !PrefixOfOne(word, ms)
    ensures word in ps && word != [] ==> PrefixOfOne(word, ms)
  {
    if PrefixOfOne(word, ms) {
      var v :| v in ms && word <= v;
      ClosedPrefix(ps, word[..k], v);
    }
  }

  lemma PathIn(g: Layout, x: int)
    requires |g.path| == |g.head| && 0 <= x < |g.path| && g.head[x]
    ensures g.path[x] in Paths(g)
  {
  }

  /** The loop of cgotofn as long as it finds states: all of the line, or up to a character that node x could not be followed for. */
  method Walk(m: Machine, arg: Str, a: int) returns (s: int, x: int, i: int, found: bool)
    requires m.Table() && Shape(m.T(), m.g) && IsText(arg) && 0 <= a < |arg|
    ensures a <= i <= LineEnd(arg, a) && (found <==> i == LineEnd(arg, a))
    ensures 0 <= s <= m.smax && m.g.head[s] && m.g.path[s] == arg[a..i]
    ensures !found ==> 0 <= x <= m.smax && m.g.path[x] == arg[a..i] && m.T()[x].link == 0 && arg[a..i + 1] !in Paths(m.g)
  {
    hide Shape, Paths, LineEnd;
    RootFacts(m.T(), m.g);
    ghost var e := LineEnd(arg, a);
    s, x, found := 0, 0, true;
    i := a;
    while i < |arg| && arg[i] != NL
      invariant a <= i <= e && 0 <= s <= m.smax && m.g.head[s] && m.g.path[s] == arg[a..i]
      invariant found
      decreases e - i
    {
      assert arg[a..i] + [arg[i]] == arg[a..i + 1];
      x, found := Locate(m, s, arg[i]);
      Lookup(m.T(), m.g, s, arg[i]);
      if !found {
        break;
      }
      s := m.w[x].nst;
      i := i + 1;
    }
  }

  /** From where the states end: a node to enter from, and the rest of the line. */
  method Branch(m: Machine, x: int, arg: Str, a: int, i0: int, ghost ms: set<Str>, ghost full: set<Str>) returns (ok: bool, i: int)
    requires Ready(m, ms, -1) && IsText(arg) && 0 <= a <= i0 < |arg| && i0 < LineEnd(arg, a)
    requires 0 <= x <= m.smax && m.T()[x].link == 0 && m.g.path[x] == arg[a..i0] && arg[a..i0 + 1] !in Paths(m.g)
    requires Growing(Paths(m.g), ms, arg[a..LineEnd(arg, a)]) && Within(Paths(m.g), full, arg[a..LineEnd(arg, a)])
    requires arg[a..i0] in Paths(m.g) && m.smax + 1 == Needed(Paths(m.g))
    modifies m, m.w
    ensures ok ==> m.smax + 1 == Needed(Paths(m.g))
    ensures !ok ==> Needed(full) > MAXSIZ
    ensures ok ==> i == LineEnd(arg, a) && Ready(m, ms + {arg[a..i]}, -1) && Grown(Paths(m.g), ms + {arg[a..i]})
    ensures ok ==> old(m.smax) <= m.smax <= old(m.smax) + 1 + i - i0
    ensures !ok ==> old(m.smax) + 1 + (LineEnd(arg, a) - i0) >= MAXSIZ
  {
    hide Built, Paths, Growing, Grown, LineEnd, Closed, Within, Needed, Leaf;
    BuiltSize(m.T(), m.g, ms, -1);
    i := i0;
    LeafIff(m.T(), m.g, ms, x);
    Slice(arg, a, i0 + 1, LineEnd(arg, a));
    assert arg[a..i0] + [arg[i0]] == arg[a..i0 + 1];
    SizedMore(Paths(m.g), full, arg[a..i0], arg[i0], arg[a..LineEnd(arg, a)]);
    var s := x;
    if m.w[x].inp != 0 {
      ok := NewLink(m, x, ms);
      if !ok {
        return;
      }
      BuiltSize(m.T(), m.g, ms, m.smax);
      s := m.smax;
    } else {
      FullLess(m.T(), m.g, ms, s);
    }
    ok, i := Enter(m, s, arg, a, i0, ms, full);
    if ok {
      MarksIn(m, ms + {arg[a..i]}, arg[a..i]);
      GrowingGrown(Paths(m.g), ms, arg[a..i]);
    }
  }

  lemma Slice(arg: Str, a: int, k: int, e: int)
    requires 0 <= a <= k <= e <= |arg|
    ensures arg[a..e][..k - a] == arg[a..k]
  {
  }

  /** cgotofn on one line: along the states there are, then into new ones. */
  method Line(m: Machine, arg: Str, a: int, ghost ms: set<Str>, ghost full: set<Str>)
    returns (ok: bool, i: int, ghost ms': set<Str>)
    requires Ready(m, ms, -1) && Grown(Paths(m.g), ms) && IsText(arg) && 0 <= a < |arg|
    requires Within(Paths(m.g), full, arg[a..LineEnd(arg, a)]) && m.smax + 1 == Needed(Paths(m.g))
    modifies m, m.w
    ensures ok ==> m.smax + 1 == Needed(Paths(m.g))
    ensures !ok ==> Needed(full) > MAXSIZ
    ensures ok ==> i == LineEnd(arg, a) && Ready(m, ms', -1) && Grown(Paths(m.g), ms + {arg[a..i]})
    ensures ok ==> ms' == if i < |arg| || !PrefixOfOne(arg[a..i], ms) then ms + {arg[a..i]} else ms
    ensures ok ==> old(m.smax) <= m.smax <= old(m.smax) + 2 * (i - a)
    ensures !ok ==> old(m.smax) + 2 * (LineEnd(arg, a) - a) >= MAXSIZ
  {
    hide Built, Shape, Paths, Growing, Grown, LineEnd, Closed, PrefixOfOne, IsText, Within, Needed;
    BuiltSize(m.T(), m.g, ms, -1);
    BuiltShape(m.T(), m.g, ms, -1);
    ghost var word, ps := arg[a..LineEnd(arg, a)], Paths(m.g);
    GrownGrowing(ps, ms, word);
    var s, x, found;
    s, x, i, found := Walk(m, arg, a);
    if found {
      ok := true;
      PathIn(m.g, s);
      WordLeaves(ps, ms, word, 0);
      GrowingGrown(ps, ms, word);
      ms' := ms;
      if i < |arg| {
        SetOut(m, s, ms);
        ms' := ms + {word};
      }
    } else {
      Slice(arg, a, i + 1, LineEnd(arg, a));
      WordLeaves(ps, ms, word, i + 1 - a);
      ms' := ms + {word};
      PathIn(m.g, s);
      ok, i := Branch(m, x, arg, a, i, ms, full);
    }
  }

  lemma RootFacts(t: seq<Node>, g: Layout)
    requires Shape(t, g)
    ensures |t| == |g.path| == |g.head| && t != [] && g.path[0] == [] && g.head[0]
  {
    NodeFacts(t, g, 0);
  }

  lemma MarksIn(m: Machine, ms: set<Str>, word: Str)
    requires Ready(m, ms, -1) && word in ms
    ensures word in Paths(m.g)
  {
  }

  lemma StartFacts(m: Machine)
    requires m.Table() && m.T() == [Blank] && m.g == Layout([[]], [true], [0]) && Shape(m.T(), m.g)
    ensures Ready(m, {}, -1) && Grown(Paths(m.g), {}) && Needed(Paths(m.g)) == 1
  {
    assert Paths(m.g) == {[]};
    assert Leaves({[]}) == {[]};
  }

  /** Up to the line from a to e the states are among those of all keywords. */
  lemma WithinAll(ps: set<Str>, ws: set<Str>, arg: Str, a: int)
    requires Grown(ps, ws) && 0 <= a < |arg| && ws <= Keywords(arg, 0) && Keywords(arg, a) <= Keywords(arg, 0)
    ensures Within(ps, Starts(Keywords(arg, 0)), arg[a..LineEnd(arg, a)])
  {
    var full := Starts(Keywords(arg, 0));
    StartsIs(ps, Keywords(arg, 0));
    assert arg[a..LineEnd(arg, a)] in Keywords(arg, a);
    hide Keywords, LineEnd;
    forall u | u in ps
      ensures u in full
    {
      if u != [] {
        var v :| v in ws && u <= v;
        ClosedPrefix(full, u, v);
      }
    }
  }

  /**
   * cgotofn: the states and the marks for a list of keywords. It fails exactly
   * for a list that needs more than MAXSIZ nodes.
   */
  method Cgotofn(arg: Str) returns (m: Machine, ok: bool)
    requires IsText(arg)
    ensures fresh(m) && fresh(m.w)
    ensures ok ==> Ready(m, Marked(arg, 0, {}), -1) && Grown(Paths(m.g), Keywords(arg, 0))
    ensures ok <==> Needed(Starts(Keywords(arg, 0))) <= MAXSIZ
    ensures 2 * |arg| < MAXSIZ ==> ok
  {
    hide Shape, Marks, NoFail, Full, Paths, Grown, LineEnd, Blank, Needed, Within, Starts;
    ghost var full := Starts(Keywords(arg, 0));
    m := new Machine();
    ok := true;
    ghost var ms: set<Str>, ws: set<Str> := {}, {};
    StartFacts(m);
    var a := 0;
    while a < |arg|
      invariant 0 <= a <= |arg| && m.Table() && m.smax <= 2 * a
      invariant Ready(m, ms, -1) && Grown(Paths(m.g), ws) && (a < |arg| ==> ws == ms)
      invariant m.smax + 1 == Needed(Paths(m.g))
      invariant Marked(arg, a, ms) == Marked(arg, 0, {}) && ws + Keywords(arg, a) == Keywords(arg, 0)
    {
      var i;
      WithinAll(Paths(m.g), ws, arg, a);
      ws := ws + {arg[a..LineEnd(arg, a)]};
      ok, i, ms := Line(m, arg, a, ms, full);
      if !ok {
        return;
      }
      ShapeSize(m.T(), m.g);
      a := if i < |arg| then i + 1 else i;
    }
    BuiltSize(m.T(), m.g, ms, -1);
    assert ws + Keywords(arg, |arg|) == ws;
    StartsIs(Paths(m.g), ws);
  }
}
