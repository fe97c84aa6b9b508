/** cfail of usr/src/cmd/fgrep.c: the fail links, breadth first, with the marks carried along them. */
module FgrepFail {
  import opened FgrepSpec
  import opened FgrepTable
  import opened FgrepBuild

  // ---- breadth first ----

  ghost predicate Sorted(qs: seq<Str>) { forall i, j :: 0 <= i <= j < |qs| ==> |qs[i]| <= |qs[j]| }

  ghost predicate Distinct(qs: seq<Str>) { forall i, j :: 0 <= i < j < |qs| ==> qs[i] != qs[j] }

  /**
   * The states that were put on the queue, the root first; those before f are
   * done, and of the one at f the children in seen.
   */
  ghost predicate Bfs(ps: set<Str>, qs: seq<Str>, f: int, seen: set<Str>) {
    && 0 <= f < |qs| && qs[0] == []
    && Sorted(qs) && Distinct(qs)
    && (forall i {:trigger qs[i]} :: 0 <= i < |qs| ==> qs[i] in ps && |qs[i]| <= |qs[f]| + 1)
    && Children(ps, qs, f, seen)
  }

  ghost predicate Children(ps: set<Str>, qs: seq<Str>, f: int, seen: set<Str>)
    requires 0 <= f < |qs|
  {
    forall v {:trigger v in ps} :: v in ps && v != [] ==>
      (v in qs <==> Parent(v) in qs[..f] || (Parent(v) == qs[f] && v in seen))
  }

  lemma ChildrenNext(ps: set<Str>, qs: seq<Str>, f: int, seen: set<Str>)
    requires 0 <= f && f + 1 < |qs| && Children(ps, qs, f, seen)
    requires forall v :: v in ps && v != [] && Parent(v) == qs[f] ==> v in seen
    ensures Children(ps, qs, f + 1, {})
  {
    assert qs[..f + 1] == qs[..f] + [qs[f]];
    forall v | v in ps && v != []
      ensures v in qs <==> Parent(v) in qs[..f + 1]
    {
      assert Parent(v) in qs[..f + 1] <==> Parent(v) in qs[..f] || Parent(v) == qs[f];
    }
  }

  /** All states that are no longer than the one at work have been on the queue. */
  lemma {:induction false} Shallow(ps: set<Str>, qs: seq<Str>, f: int, seen: set<Str>, w: Str)
    requires Closed(ps) && Bfs(ps, qs, f, seen) && w in ps && |w| <= |qs[f]|
    ensures w in qs
    decreases |w|
  {
    if w != [] {
      Shallow(ps, qs, f, seen, Parent(w));
      var i :| 0 <= i < |qs| && qs[i] == Parent(w);
      assert i < f;
      assert qs[..f][i] == Parent(w);
    }
  }

  lemma BfsPush(ps: set<Str>, qs: seq<Str>, f: int, seen: set<Str>, v: Str)
    requires Bfs(ps, qs, f, seen) && v in ps && v != [] && Parent(v) == qs[f] && v !in seen
    ensures Bfs(ps, qs + [v], f, seen + {v}) && v !in qs
  {
    var qs' := qs + [v];
    assert qs'[..f] == qs[..f];
    assert Parent(v) !in qs[..f];
    assert v !in qs;
    assert |v| == |qs[f]| + 1;
  }

  lemma BfsNext(ps: set<Str>, qs: seq<Str>, f: int, seen: set<Str>)
    requires Bfs(ps, qs, f, seen) && f + 1 < |qs|
    requires forall v :: v in ps && v != [] && Parent(v) == qs[f] ==> v in seen
    ensures Bfs(ps, qs, f + 1, {})
  {
    ChildrenNext(ps, qs, f, seen);
    assert |qs[f]| <= |qs[f + 1]|;
    hide Sorted, Distinct, Children;
  }

  /** The queue never holds more states than there are nodes, so it does not wrap. */
  lemma {:induction false} QueueBound(ns: seq<int>, n: nat)
    requires forall i :: 0 <= i < |ns| ==> 0 <= ns[i] < n
    requires forall i, j :: 0 <= i < j < |ns| ==> ns[i] != ns[j]
    ensures |ns| <= n
    decreases n
  {
    assert |ns| > 0 ==> ns[0] < n;
    if k :| 0 <= k < |ns| && ns[k] == n - 1 {
      var rest := ns[..k] + ns[k + 1..];
      forall i, j | 0 <= i < j < |rest|
        ensures rest[i] != rest[j]
      {
        assert rest[i] == ns[if i < k then i else i + 1] && rest[j] == ns[if j < k then j else j + 1];
      }
      forall i | 0 <= i < |rest|
        ensures 0 <= rest[i] < n - 1
      {
        assert rest[i] == ns[if i < k then i else i + 1];
      }
      QueueBound(rest, n - 1);
    } else if n > 0 {
      QueueBound(ns, n - 1);
    }
  }

  // ---- the nodes of a state ----

  /** No node of a list lies between a node and its link. */
  lemma {:induction false} NoneBetween(t: seq<Node>, g: Layout, x: int, y: int)
    requires Shape(t, g) && 0 <= x < y < |t| && g.path[x] == g.path[y]
    ensures x < t[x].link <= y
    decreases y
  {
    hide Unique;
    NodeFacts(t, g, y);
    if g.head[y] {
      var h := Top(t, g, x);
      SameState(t, g, h, y);
    } else {
      var z := g.up[y];
      NodeFacts(t, g, z);
      if z > x {
        NoneBetween(t, g, x, z);
      } else if z < x {
        NoneBetween(t, g, z, x);
      }
    }
  }

  // ---- what is right for a node ----

  ghost predicate FailOk(g: Layout, fail: int, b: Str)
    requires |g.path| == |g.head|
  {
    if b == [] then fail == 0 else 0 < fail < |g.path| && g.head[fail] && g.path[fail] == b
  }

  /** A state that has been on the queue has its fail link and its final mark; another is as it was built. */
  ghost predicate Stage(n: Node, g: Layout, ms: set<Str>, x: int, done: bool)
    requires |g.path| == |g.head| && 0 <= x < |g.path| && [] in Paths(g)
  {
    if done && g.path[x] != [] then
      FailOk(g, n.fail, Border(Paths(g), g.path[x])) && (g.head[x] ==> (n.out <==> Hit(ms, g.path[x])))
    else n.fail == 0 && (n.out <==> g.head[x] && g.path[x] in ms)
  }

  ghost predicate Stages(t: seq<Node>, g: Layout, ms: set<Str>, qs: seq<Str>) {
    && |t| == |g.path| == |g.head| && [] in Paths(g)
    && forall x {:trigger t[x]} :: 0 <= x < |t| ==> Stage(t[x], g, ms, x, g.path[x] in qs)
  }

  lemma StageAt(t: seq<Node>, g: Layout, ms: set<Str>, qs: seq<Str>, x: int)
    requires Stages(t, g, ms, qs) && 0 <= x < |t|
    ensures Stage(t[x], g, ms, x, g.path[x] in qs)
  {
  }

  /** The nodes of state v with their fail link. */
  ghost predicate Failed(t: seq<Node>, t': seq<Node>, g: Layout, v: Str, to: int)
    requires |g.path| == |t| && 0 <= to < |t|
  {
    && |t'| == |t|
    && forall x {:trigger t'[x]} :: 0 <= x < |t| ==>
        t'[x] == if g.path[x] == v then t[x].(fail := to, out := t[x].out || t[to].out) else t[x]
  }

  /** One state more is right, when its nodes get the state of its border. */
  lemma StagesFailed(t: seq<Node>, t': seq<Node>, g: Layout, ms: set<Str>, qs: seq<Str>, v: Str, to: int)
    requires Stages(t, g, ms, qs) && v in Paths(g) && v != [] && v !in qs && ms <= Paths(g)
    requires 0 < to < |t| && Failed(t, t', g, v, to) && FailOk(g, to, Border(Paths(g), v)) && Border(Paths(g), v) in qs
    requires Border(Paths(g), v) != []
    ensures Stages(t', g, ms, qs + [v])
  {
    hide Paths, Border, Hit;
    HitBorder(Paths(g), ms, v);
    StageAt(t, g, ms, qs, to);
    forall x | 0 <= x < |t|
      ensures Stage(t'[x], g, ms, x, g.path[x] in qs + [v])
    {
      StageAt(t, g, ms, qs, x);
      assert g.path[x] in qs + [v] <==> g.path[x] in qs || g.path[x] == v;
    }
  }

  /** One state more is right as it is, when its border is empty. */
  lemma StagesPlain(t: seq<Node>, g: Layout, ms: set<Str>, qs: seq<Str>, v: Str)
    requires Stages(t, g, ms, qs) && v in Paths(g) && v != [] && v !in qs && ms <= Paths(g)
    requires Border(Paths(g), v) == []
    ensures Stages(t, g, ms, qs + [v])
  {
    hide Paths, Border;
    HitBorder(Paths(g), ms, v);
    assert !Hit(ms, []);
    hide Hit;
    forall x | 0 <= x < |t|
      ensures Stage(t[x], g, ms, x, g.path[x] in qs + [v])
    {
      StageAt(t, g, ms, qs, x);
      assert g.path[x] in qs + [v] <==> g.path[x] in qs || g.path[x] == v;
    }
  }

  // ---- the children of a state, in the order of its list ----

  /** The children that the nodes before x lead to. */
  ghost function Seen(t: seq<Node>, g: Layout, u: Str, x: int): set<Str>
    requires |t| == |g.path|
  {
    set y | 0 <= y < x && y < |t| && g.path[y] == u && t[y].inp != 0 :: g.path[y] + [t[y].inp]
  }

  function After(t: seq<Node>, x: int): int
    requires 0 <= x < |t|
  {
    if t[x].link == 0 then |t| else t[x].link
  }

  lemma FirstNode(t: seq<Node>, g: Layout, h: int)
    requires Shape(t, g) && 0 <= h < |t| && g.head[h]
    ensures forall y {:trigger g.path[y]} :: 0 <= y < h ==> g.path[y] != g.path[h]
  {
    forall y | 0 <= y < h
      ensures g.path[y] != g.path[h]
    {
      if g.path[y] == g.path[h] {
        SameState(t, g, Top(t, g, y), h);
      }
    }
  }

  lemma NoOther(t: seq<Node>, g: Layout, x: int)
    requires Shape(t, g) && 0 <= x < |t|
    ensures forall y {:trigger g.path[y]} :: x < y < After(t, x) && y < |t| ==> g.path[y] != g.path[x]
  {
    forall y | x < y < After(t, x) && y < |t|
      ensures g.path[y] != g.path[x]
    {
      if g.path[y] == g.path[x] {
        NoneBetween(t, g, x, y);
      }
    }
  }

  lemma SeenMore(t: seq<Node>, g: Layout, u: Str, x: int)
    requires Shape(t, g) && 0 <= x < |t| && g.path[x] == u
    ensures t[x].inp != 0 ==> u + [t[x].inp] !in Seen(t, g, u, x)
    ensures Seen(t, g, u, After(t, x)) == Seen(t, g, u, x) + if t[x].inp == 0 then {} else {u + [t[x].inp]}
  {
    NodeFacts(t, g, x);
    NoOther(t, g, x);
    forall y | 0 <= y < x && g.path[y] == u && t[y].inp != 0
      ensures u + [t[y].inp] != u + [t[x].inp]
    {
      assert (u + [t[y].inp])[|u|] == t[y].inp && (u + [t[x].inp])[|u|] == t[x].inp;
    }
    hide Shape;
    var a, b := Seen(t, g, u, After(t, x)), Seen(t, g, u, x);
    forall v | v in a
      ensures v in b || (t[x].inp != 0 && v == u + [t[x].inp])
    {
      var y :| 0 <= y < After(t, x) && y < |t| && g.path[y] == u && t[y].inp != 0 && g.path[y] + [t[y].inp] == v;
      assert y <= x;
    }
  }

  lemma SeenFirst(t: seq<Node>, g: Layout, h: int)
    requires Shape(t, g) && 0 <= h < |t| && g.head[h]
    ensures Seen(t, g, g.path[h], h) == {}
  {
    FirstNode(t, g, h);
  }

  lemma SeenAll(t: seq<Node>, g: Layout, u: Str, v: Str)
    requires Shape(t, g) && v in Paths(g) && v != [] && Parent(v) == u
    ensures v in Seen(t, g, u, |t|)
  {
    var h :| 0 <= h < |t| && g.head[h] && g.path[h] == v;
    NodeFacts(t, g, h);
    NodeFacts(t, g, g.up[h]);
    assert g.path[g.up[h]] == u;
  }

  // ---- the program ----

  /** The queue: the nodes of the states after the root. */
  ghost predicate Queued(g: Layout, q: seq<int>, qs: seq<Str>) {
    && |qs| == |q| + 1 && |g.path| == |g.head|
    && forall i {:trigger q[i]} :: 0 <= i < |q| ==> 0 < q[i] < |g.path| && g.head[q[i]] && g.path[q[i]] == qs[i + 1]
  }

  lemma QueuedPush(g: Layout, q: seq<int>, qs: seq<Str>, h: int)
    requires Queued(g, q, qs) && 0 < h < |g.path| && g.head[h]
    ensures Queued(g, q + [h], qs + [g.path[h]])
  {
  }

  lemma QueuedBound(g: Layout, q: seq<int>, qs: seq<Str>)
    requires Queued(g, q, qs) && Distinct(qs) && |g.path| > 0
    ensures |q| < |g.path|
  {
    var ns := q + [0];
    forall i, j | 0 <= i < j < |ns|
      ensures ns[i] != ns[j]
    {
      if j < |q| {
        assert qs[i + 1] != qs[j + 1];
      }
    }
    QueueBound(ns, |g.path|);
  }

  /** The table in the course of cfail; t is how it was built. */
  ghost predicate During(m: Machine, t: seq<Node>, g: Layout, ms: set<Str>, qs: seq<Str>)
    reads m, m.w
  {
    && m.Table() && m.g == g && Shape(t, g) && SameEdges(t, m.T()) && ms <= Paths(g)
    && Stages(m.T(), g, ms, qs)
  }

  /** Of the nodes of state v those below upto have been done. */
  ghost predicate DoneTo(t: seq<Node>, t': seq<Node>, g: Layout, v: Str, to: int, upto: int) {
    && |t'| == |t| == |g.path| && 0 <= to < |t| && upto <= |t|
    && forall x {:trigger t'[x]} :: 0 <= x < |t| ==>
        t'[x] == if g.path[x] == v && x < upto then t[x].(fail := to, out := t[x].out || t[to].out) else t[x]
  }

  lemma DoneStep(t: seq<Node>, t': seq<Node>, g: Layout, v: Str, to: int, y: int, next: int)
    requires DoneTo(t, t', g, v, to, y) && 0 <= y < next <= |t| && g.path[y] == v != g.path[to]
    requires forall x {:trigger g.path[x]} :: y < x < next ==> g.path[x] != v
    ensures t'[y] == t[y] && t'[to] == t[to]
    ensures DoneTo(t, t'[y := t[y].(fail := to, out := t[y].out || t[to].out)], g, v, to, next)
  {
  }

  lemma DoneStart(t: seq<Node>, g: Layout, v: Str, to: int, q: int)
    requires |t| == |g.path| && 0 <= to < |t| && q <= |t| && forall y {:trigger g.path[y]} :: 0 <= y < q ==> g.path[y] != v
    ensures DoneTo(t, t, g, v, to, q)
  {
  }

  lemma DoneAll(t: seq<Node>, t': seq<Node>, g: Layout, v: Str, to: int)
    requires DoneTo(t, t', g, v, to, |t|)
    ensures SameEdges(t, t') && Failed(t, t', g, v, to)
  {
  }

  /** The loop at the label qloop: fail and out for the list of node q. */
  method SetFail(m: Machine, q: int, to: int)
    requires m.Table() && Shape(m.T(), m.g) && 0 <= q <= m.smax && 0 <= to <= m.smax && m.g.head[q]
    requires m.g.path[to] != m.g.path[q]
    modifies m.w
    ensures m.Table() && SameEdges(old(m.T()), m.T())
    ensures Failed(old(m.T()), m.T(), m.g, m.g.path[q], to)
  {
    hide Shape, Find, DoneTo, SameEdges, Failed;
    ghost var t, g := m.T(), m.g;
    ShapeSize(t, g);
    ghost var v := g.path[q];
    FirstNode(t, g, q);
    DoneStart(t, g, v, to, q);
    var y, more := q, true;
    ghost var upto := q;
    while more
      invariant m.Table() && |t| == |m.T()| && upto <= |t|
      invariant more ==> upto == y && 0 <= y < |t| && g.path[y] == v
      invariant !more ==> upto == |t|
      invariant DoneTo(t, m.T(), g, v, to, upto)
      decreases |t| - upto
    {
      NodeFacts(t, g, y);
      NoOther(t, g, y);
      ghost var before := m.T();
      upto := After(t, y);
      DoneStep(t, before, g, v, to, y, upto);
      assert m.w[y] == before[y] && m.w[to] == before[to];
      m.w[y] := m.w[y].(fail := to, out := m.w[y].out || m.w[to].out);
      assert m.T() == before[y := t[y].(fail := to, out := t[y].out || t[to].out)];
      if m.w[y].link == 0 {
        more := false;
      } else {
        y := m.w[y].link;
      }
    }
    DoneAll(t, m.T(), g, v, to);
  }

  /** The loop at the label floop: the state for the border of the state that node x leads to; 0 if that is empty. */
  method FindFail(m: Machine, x: int, ghost t: seq<Node>, ghost ms: set<Str>, ghost qs: seq<Str>, ghost f: int, ghost seen: set<Str>)
    returns (to: int)
    requires During(m, t, m.g, ms, qs) && Bfs(Paths(m.g), qs, f, seen) && 0 < f < |qs|
    requires 0 <= x < |t| && t[x].inp != 0 && m.g.path[x] == qs[f] && [] in Paths(m.g)
    ensures FailOk(m.g, to, Border(Paths(m.g), qs[f] + [t[x].inp]))
  {
    hide Shape, Bfs, Paths, Closed, Border, Next, Stages, Stage;
    ghost var g, ps, u := m.g, Paths(m.g), qs[f];
    var c := m.w[x].inp;
    FailForFacts(m, x, t, ms, qs, f, seen);
    BorderStep(ps, u, c);
    var state := m.w[x].fail;
    ghost var b := Border(ps, u);
    while true
      invariant FailOk(g, state, b) && b in ps && |b| < |u| && Next(ps, b, c) == Border(ps, u + [c])
      decreases |b|
    {
      RootFacts(m.T(), g);
      Lookup(m.T(), g, state, c);
      NextFacts(ps, b, c);
      var y := Search(m, state, c);
      if y >= 0 {
        return m.w[y].nst;
      }
      if state == 0 {
        return 0;
      }
      ShallowAll(t, g, qs, f, seen, b);
      StageFail(m.T(), g, ms, qs, state);
      b := Border(ps, b);
      state := m.w[state].fail;
    }
  }

  /** The fail link of the state that node x leads to. */
  method FailFor(m: Machine, x: int, ghost t: seq<Node>, ghost ms: set<Str>, ghost qs: seq<Str>, ghost f: int, ghost seen: set<Str>)
    requires During(m, t, m.g, ms, qs) && Bfs(Paths(m.g), qs, f, seen) && 0 < f < |qs|
    requires 0 <= x < |t| && t[x].inp != 0 && m.g.path[x] == qs[f] && qs[f] + [t[x].inp] !in qs
    modifies m.w
    ensures During(m, t, m.g, ms, qs + [qs[f] + [t[x].inp]])
  {
    hide Shape, Bfs, Paths, Closed, Border, Stages, Stage, Failed;
    ghost var g, v := m.g, qs[f] + [t[x].inp];
    FailForFacts(m, x, t, ms, qs, f, seen);
    var to := FindFail(m, x, t, ms, qs, f, seen);
    if to != 0 {
      ShallowAll(t, g, qs, f, seen, Border(Paths(g), v));
      ghost var before := m.T();
      SetFail(m, m.w[x].nst, to);
      SameEdgesTrans(t, before, m.T());
      StagesFailed(before, m.T(), g, ms, qs, v, to);
    } else {
      StagesPlain(m.T(), g, ms, qs, v);
    }
  }

  /** The list of a state is searched for a character. */
  method Search(m: Machine, s: int, c: int) returns (x: int)
    requires m.Table() && Shape(m.T(), m.g) && 0 <= s <= m.smax && c != 0
    ensures x == Find(m.T(), s, c)
  {
    x := s;
    while m.w[x].inp != c
      invariant 0 <= x <= m.smax
      invariant Find(m.T(), s, c) == Find(m.T(), x, c)
      decreases m.smax - x
    {
      NodeFacts(m.T(), m.g, x);
      if m.w[x].link == 0 {
        return -1;
      }
      x := m.w[x].link;
    }
  }

  lemma NextFacts(ps: set<Str>, b: Str, c: int)
    requires [] in ps
    ensures b + [c] in ps ==> Next(ps, b, c) == b + [c]
    ensures b + [c] !in ps ==> Next(ps, b, c) == if b == [] then [] else Next(ps, Border(ps, b), c)
  {
    hide Border;
  }

  lemma SameEdgesTrans(t: seq<Node>, a: seq<Node>, b: seq<Node>)
    requires SameEdges(t, a) && SameEdges(a, b)
    ensures SameEdges(t, b)
  {
  }

  lemma ShallowAll(t: seq<Node>, g: Layout, qs: seq<Str>, f: int, seen: set<Str>, w: Str)
    requires Shape(t, g) && Bfs(Paths(g), qs, f, seen) && w in Paths(g) && |w| <= |qs[f]|
    ensures w in qs
  {
    PathsClosed(t, g);
    Shallow(Paths(g), qs, f, seen, w);
  }

  lemma StageFail(t: seq<Node>, g: Layout, ms: set<Str>, qs: seq<Str>, x: int)
    requires Stages(t, g, ms, qs) && 0 <= x < |t| && g.path[x] in qs && g.path[x] != []
    ensures FailOk(g, t[x].fail, Border(Paths(g), g.path[x]))
  {
    StageAt(t, g, ms, qs, x);
  }

  lemma FailForFacts(m: Machine, x: int, t: seq<Node>, ms: set<Str>, qs: seq<Str>, f: int, seen: set<Str>)
    requires During(m, t, m.g, ms, qs) && Bfs(Paths(m.g), qs, f, seen) && 0 < f < |qs|
    requires 0 <= x < |t| && t[x].inp != 0 && m.g.path[x] == qs[f]
    ensures Shape(m.T(), m.g) && Closed(Paths(m.g)) && [] in Paths(m.g) && qs[f] != []
    ensures FailOk(m.g, m.T()[x].fail, Border(Paths(m.g), qs[f]))
    ensures m.T()[x] == m.w[x] && m.w[x].inp == t[x].inp && 0 <= m.w[x].nst <= m.smax
    ensures m.g.head[m.w[x].nst] && m.g.path[m.w[x].nst] == qs[f] + [t[x].inp] && qs[f] + [t[x].inp] in Paths(m.g)
  {
    ShapeSame(t, m.T(), m.g);
    PathsClosed(t, m.g);
    assert qs[0] != qs[f];
    NodeFacts(t, m.g, x);
    PathIn(m.g, t[x].nst);
    StageFail(m.T(), m.g, ms, qs, x);
  }

  const QSIZE := MAXSIZ

  /** The child that node x leads to goes to the end of the queue, which has room for it. */
  lemma Push(t: seq<Node>, g: Layout, q: seq<int>, qs: seq<Str>, f: int, x: int)
    requires Shape(t, g) && 0 <= x < |t| && t[x].inp != 0 && 0 <= f < |qs| && g.path[x] == qs[f]
    requires Queued(g, q, qs) && Bfs(Paths(g), qs, f, Seen(t, g, qs[f], x))
    ensures var v := qs[f] + [t[x].inp];
            && v !in qs
            && Queued(g, q + [t[x].nst], qs + [v])
            && Bfs(Paths(g), qs + [v], f, Seen(t, g, qs[f], After(t, x)))
    ensures |q| + 1 < |t|
  {
    hide Paths, Seen;
    var v := qs[f] + [t[x].inp];
    NodeFacts(t, g, x);
    PathIn(g, t[x].nst);
    SeenMore(t, g, qs[f], x);
    assert Parent(v) == qs[f];
    BfsPush(Paths(g), qs, f, Seen(t, g, qs[f], x), v);
    hide Shape, Children;
    QueuedPush(g, q, qs, t[x].nst);
    QueuedBound(g, q + [t[x].nst], qs + [v]);
  }

  /** No child at node x. */
  lemma Skip(t: seq<Node>, g: Layout, qs: seq<Str>, f: int, x: int)
    requires Shape(t, g) && 0 <= x < |t| && t[x].inp == 0 && 0 <= f < |qs| && g.path[x] == qs[f]
    requires Bfs(Paths(g), qs, f, Seen(t, g, qs[f], x))
    ensures Bfs(Paths(g), qs, f, Seen(t, g, qs[f], After(t, x)))
  {
    SeenMore(t, g, qs[f], x);
  }

  ghost predicate InList(t: seq<Node>, g: Layout, u: Str, x: int) {
    0 <= x < |t| == |g.path| && g.path[x] == u
  }

  lemma LinkIn(t: seq<Node>, g: Layout, x: int)
    requires Shape(t, g) && 0 <= x < |t|
    ensures t[x].link != 0 ==> x < t[x].link && InList(t, g, g.path[x], t[x].link)
  {
    NodeFacts(t, g, x);
  }

  /** The loop at the label cloop: the children of the state at the front of the queue. */
  method Expand(m: Machine, queue: array<int>, rear0: int, s: int, ghost t: seq<Node>, ghost ms: set<Str>, ghost qs0: seq<Str>, ghost f: int)
    returns (rear: int, ghost qs: seq<Str>)
    requires During(m, t, m.g, ms, qs0) && Bfs(Paths(m.g), qs0, f, {}) && 0 < f < |qs0|
    requires InList(t, m.g, qs0[f], s) && m.g.head[s]
    requires queue.Length == QSIZE && 0 <= rear0 <= QSIZE && Queued(m.g, queue[..rear0], qs0)
    modifies m.w, queue
    ensures During(m, t, m.g, ms, qs) && qs0 <= qs && Bfs(Paths(m.g), qs, f, Seen(t, m.g, qs0[f], |t|))
    ensures rear0 <= rear <= QSIZE && Queued(m.g, queue[..rear], qs)
  {
    hide Shape, Bfs, Paths, Stages, Queued, Seen;
    ghost var g, u := m.g, qs0[f];
    rear, qs := rear0, qs0;
    SeenFirst(t, g, s);
    var x, more := s, true;
    ghost var upto := s;
    while more
      invariant During(m, t, g, ms, qs) && qs0 <= qs && 0 <= upto <= |t| && Bfs(Paths(g), qs, f, Seen(t, g, u, upto))
      invariant rear0 <= rear <= QSIZE && Queued(g, queue[..rear], qs)
      invariant if more then upto == x && InList(t, g, u, x) else upto == |t|
      decreases |t| - upto
    {
      assert m.w[x] == m.T()[x];
      if m.w[x].inp != 0 {
        Push(t, g, queue[..rear], qs, f, x);
        ghost var q := queue[..rear];
        queue[rear] := m.w[x].nst;
        rear := rear + 1;
        assert queue[..rear] == q + [t[x].nst];
        FailFor(m, x, t, ms, qs, f, Seen(t, g, u, x));
        qs := qs + [u + [t[x].inp]];
      } else {
        Skip(t, g, qs, f, x);
      }
      assert m.w[x] == m.T()[x];
      LinkIn(t, g, x);
      upto := After(t, x);
      if m.w[x].link == 0 {
        more := false;
      } else {
        x := m.w[x].link;
      }
    }
  }

  /** The first loop takes as many nodes for its list as it puts states on the queue, so it does not fill it. */
  lemma RootBound(g: Layout, q: seq<int>, qs: seq<Str>, xs: seq<int>)
    requires Queued(g, q, qs) && Distinct(qs) && qs[0] == []
    requires forall i :: 0 <= i < |xs| ==> 0 <= xs[i] < |g.path| && g.path[xs[i]] == []
    requires forall i, j :: 0 <= i < j < |xs| ==> xs[i] < xs[j]
    ensures |xs| + |q| <= |g.path|
  {
    var ns := xs + q;
    forall i, j | 0 <= i < j < |ns|
      ensures ns[i] != ns[j]
    {
      if i >= |xs| {
        assert qs[i - |xs| + 1] != qs[j - |xs| + 1];
        assert ns[i] == q[i - |xs|] && ns[j] == q[j - |xs|];
      } else if j >= |xs| {
        assert ns[j] == q[j - |xs|];
        assert qs[j - |xs| + 1] != qs[0];
      }
    }
    QueueBound(ns, |g.path|);
  }

  lemma BfsFacts(ps: set<Str>, qs: seq<Str>, f: int, seen: set<Str>)
    requires Bfs(ps, qs, f, seen)
    ensures 0 <= f < |qs| && Distinct(qs) && qs[0] == []
  {
  }

  /** A state of one character has an empty border. */
  lemma PlainChild(t: seq<Node>, g: Layout, ms: set<Str>, qs: seq<Str>, x: int, cur: seq<Node>)
    requires Shape(t, g) && 0 <= x < |t| && t[x].inp != 0 && g.path[x] == []
    requires Stages(cur, g, ms, qs) && ms <= Paths(g) && [t[x].inp] !in qs
    ensures Stages(cur, g, ms, qs + [[t[x].inp]])
  {
    hide Stages, Paths, Border;
    NodeFacts(t, g, x);
    PathIn(g, t[x].nst);
    PathsClosed(t, g);
    assert [] + [t[x].inp] == [t[x].inp];
    BorderStep(Paths(g), [], t[x].inp);
    StagesPlain(cur, g, ms, qs, [t[x].inp]);
  }

  /** The loop at the label init: the states of one character. */
  method Start(m: Machine, queue: array<int>, ghost t: seq<Node>, ghost ms: set<Str>)
    returns (rear: int, ghost qs: seq<Str>)
    requires During(m, t, m.g, ms, [[]]) && Bfs(Paths(m.g), [[]], 0, {})
    requires queue.Length == QSIZE && Queued(m.g, [], [[]])
    modifies queue
    ensures During(m, t, m.g, ms, qs) && Bfs(Paths(m.g), qs, 0, Seen(t, m.g, [], |t|))
    ensures 0 <= rear < QSIZE - 1 && Queued(m.g, queue[..rear], qs)
  {
    hide Shape, Bfs, Paths, Stages, Queued, Seen;
    ghost var g := m.g;
    rear, qs := 0, [[]];
    RootFacts(t, g);
    SeenFirst(t, g, 0);
    var x, more := 0, true;
    ghost var upto, xs: seq<int> := 0, [];
    assert queue[..rear] == [];
    while more
      invariant During(m, t, g, ms, qs) && 0 <= upto <= |t| && Bfs(Paths(g), qs, 0, Seen(t, g, [], upto))
      invariant 0 <= rear < QSIZE - 1 && Queued(g, queue[..rear], qs) && |xs| == rear
      invariant forall i :: 0 <= i < |xs| ==> 0 <= xs[i] < upto && g.path[xs[i]] == []
      invariant forall i, j :: 0 <= i < j < |xs| ==> xs[i] < xs[j]
      invariant if more then upto == x && InList(t, g, [], x) else upto == |t|
      decreases |t| - upto
    {
      assert m.w[x] == m.T()[x];
      BfsFacts(Paths(g), qs, 0, Seen(t, g, [], upto));
      if m.w[x].inp != 0 {
        Push(t, g, queue[..rear], qs, 0, x);
        ghost var q := queue[..rear];
        queue[rear] := m.w[x].nst;
        rear := rear + 1;
        assert queue[..rear] == q + [t[x].nst];
        assert [] + [t[x].inp] == [t[x].inp];
        PlainChild(t, g, ms, qs, x, m.T());
        qs := qs + [[t[x].inp]];
        xs := xs + [x];
        BfsFacts(Paths(g), qs, 0, Seen(t, g, [], After(t, x)));
        RootBound(g, queue[..rear], qs, xs);
      } else {
        Skip(t, g, qs, 0, x);
      }
      LinkIn(t, g, x);
      upto := After(t, x);
      if m.w[x].link == 0 {
        more := false;
      } else {
        x := m.w[x].link;
      }
    }
  }

  lemma NextItem(t: seq<Node>, g: Layout, q: seq<int>, qs: seq<Str>, f: int)
    requires Shape(t, g) && 0 <= f && f + 1 < |qs| && Bfs(Paths(g), qs, f, Seen(t, g, qs[f], |t|)) && Queued(g, q, qs)
    ensures Bfs(Paths(g), qs, f + 1, {}) && InList(t, g, qs[f + 1], q[f]) && g.head[q[f]]
  {
    hide Paths, Seen;
    forall v | v in Paths(g) && v != [] && Parent(v) == qs[f]
      ensures v in Seen(t, g, qs[f], |t|)
    {
      SeenAll(t, g, qs[f], v);
    }
    BfsNext(Paths(g), qs, f, Seen(t, g, qs[f], |t|));
  }

  /** When the queue is empty every state has been on it. */
  lemma {:induction false} AllQueued(t: seq<Node>, g: Layout, qs: seq<Str>, v: Str)
    requires Shape(t, g) && qs != [] && Bfs(Paths(g), qs, |qs| - 1, Seen(t, g, qs[|qs| - 1], |t|)) && v in Paths(g)
    ensures v in qs
    decreases |v|
  {
    hide Paths, Seen, Bfs;
    var f := |qs| - 1;
    var seen := Seen(t, g, qs[f], |t|);
    hide Shape;
    if v == [] {
      RootQueued(Paths(g), qs, f, seen);
    } else {
      PathsClosed(t, g);
      AllQueued(t, g, qs, Parent(v));
      var i :| 0 <= i < |qs| && qs[i] == Parent(v);
      if i == f {
        SeenAll(t, g, qs[f], v);
      }
      ChildQueued(Paths(g), qs, f, seen, v, i);
    }
  }

  lemma RootQueued(ps: set<Str>, qs: seq<Str>, f: int, seen: set<Str>)
    requires Bfs(ps, qs, f, seen)
    ensures [] in qs
  {
  }

  lemma ChildQueued(ps: set<Str>, qs: seq<Str>, f: int, seen: set<Str>, v: Str, i: int)
    requires Bfs(ps, qs, f, seen) && f == |qs| - 1 && v in ps && v != [] && 0 <= i <= f && qs[i] == Parent(v) && (i == f ==> v in seen)
    ensures v in qs
  {
    if i < f {
      assert qs[..f][i] == Parent(v);
    }
  }

  /** Every fail link leads to the border of its state, and a state is marked when a keyword is a suffix of its text. */
  ghost predicate Complete(t: seq<Node>, g: Layout, ms: set<Str>) {
    && Shape(t, g) && [] in Paths(g) && ms <= Paths(g)
    && forall x {:trigger t[x]} :: 0 <= x < |t| ==> Stage(t[x], g, ms, x, true)
  }

  lemma CompleteAtEnd(t: seq<Node>, cur: seq<Node>, g: Layout, ms: set<Str>, qs: seq<Str>)
    requires Shape(t, g) && SameEdges(t, cur) && Stages(cur, g, ms, qs) && ms <= Paths(g)
    requires qs != [] && Bfs(Paths(g), qs, |qs| - 1, Seen(t, g, qs[|qs| - 1], |t|))
    ensures Complete(cur, g, ms)
  {
    hide Paths, Seen, Bfs, Stage;
    ShapeSame(t, cur, g);
    forall x | 0 <= x < |t|
      ensures Stage(cur[x], g, ms, x, true)
    {
      var h := Top(t, g, x);
      PathIn(g, h);
      AllQueued(t, g, qs, g.path[h]);
      StageAt(cur, g, ms, qs, x);
    }
    hide Shape;
  }

  lemma StartStages(t: seq<Node>, g: Layout, ms: set<Str>)
    requires Shape(t, g) && Marks(t, g, ms) && NoFail(t)
    ensures Stages(t, g, ms, [[]]) && Bfs(Paths(g), [[]], 0, {}) && Queued(g, [], [[]])
  {
    RootFacts(t, g);
    PathIn(g, 0);
    hide Shape, Paths;
  }

  /** cfail: breadth first over all states. */
  method Cfail(m: Machine, ghost ms: set<Str>)
    requires Ready(m, ms, -1)
    modifies m.w
    ensures m.Table() && SameEdges(old(m.T()), m.T()) && Complete(m.T(), m.g, ms)
  {
    hide Shape, Bfs, Paths, Stages, Queued, Seen, Complete;
    ghost var t, g := m.T(), m.g;
    ShapeSize(t, g);
    StartStages(t, g, ms);
    MarksPaths(t, g, ms);
    var queue := new int[QSIZE];
    var front := 0;
    ghost var qs;
    var rear;
    rear, qs := Start(m, queue, t, ms);
    QueuedSize(g, queue[..rear], qs);
    BfsFacts(Paths(g), qs, 0, Seen(t, g, [], |t|));
    ghost var f := 0;
    while front != rear
      invariant During(m, t, g, ms, qs) && 0 <= f == front <= rear <= QSIZE && |qs| == rear + 1
      invariant Bfs(Paths(g), qs, f, Seen(t, g, qs[f], |t|)) && Queued(g, queue[..rear], qs)
      decreases QSIZE - front
    {
      var s := queue[front];
      NextItem(t, g, queue[..rear], qs, f);
      front := front + 1;
      f := f + 1;
      rear, qs := Expand(m, queue, rear, s, t, ms, qs, f);
      QueuedSize(g, queue[..rear], qs);
    }
    CompleteAtEnd(t, m.T(), g, ms, qs);
  }

  lemma QueuedSize(g: Layout, q: seq<int>, qs: seq<Str>)
    requires Queued(g, q, qs)
    ensures |qs| == |q| + 1
  {
  }

  lemma MarksPaths(t: seq<Node>, g: Layout, ms: set<Str>)
    requires |t| == |g.head| == |g.path| && Marks(t, g, ms)
    ensures ms <= Paths(g)
  {
  }
}
