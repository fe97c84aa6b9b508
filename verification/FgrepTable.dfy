/**
 * The table w of usr/src/cmd/fgrep.c. A state is a list of nodes; each node
 * has one character and the state that it leads to.
 */
module FgrepTable {
  import opened FgrepSpec

  const MAXSIZ := 6000

  /** Nodes by their index in w; 0 stands for no node, since nothing leads back to w[0]. */
  datatype Node = Node(inp: int, out: bool, nst: int, link: int, fail: int)

  const Blank := Node(0, false, 0, 0, 0)

  /**
   * How the table is laid out: for each node the text that leads to its
   * state, whether it is the first node of its list, and the node that has it
   * as nst or as link.
   */
  datatype Layout = Layout(path: seq<Str>, head: seq<bool>, up: seq<int>)

  // ---- one node ----

  ghost predicate EdgeOk(t: seq<Node>, g: Layout, x: int)
    requires |t| == |g.path| == |g.head| && 0 <= x < |t|
  {
    if t[x].inp == 0 then t[x].nst == 0 && t[x].link == 0
    else x < t[x].nst < |t| && g.head[t[x].nst] && g.path[t[x].nst] == g.path[x] + [t[x].inp]
  }

  ghost predicate LinkOk(t: seq<Node>, g: Layout, x: int)
    requires |t| == |g.path| == |g.head| && 0 <= x < |t|
  {
    t[x].link != 0 ==> x < t[x].link < |t| && !g.head[t[x].link] && g.path[t[x].link] == g.path[x]
  }

  ghost predicate UpOk(t: seq<Node>, g: Layout, x: int)
    requires |t| == |g.up| == |g.head| && 0 <= x < |t|
  {
    if x == 0 then g.head[x]
    else
      && 0 <= g.up[x] < x
      && t[g.up[x]].inp != 0
      && (if g.head[x] then t[g.up[x]].nst == x else t[g.up[x]].link == x)
  }

  ghost predicate NodeOk(t: seq<Node>, g: Layout, x: int)
    requires |t| == |g.path| == |g.head| == |g.up| && 0 <= x < |t|
  {
    EdgeOk(t, g, x) && LinkOk(t, g, x) && UpOk(t, g, x)
  }

  ghost predicate Shape(t: seq<Node>, g: Layout) {
    && |t| == |g.path| == |g.head| == |g.up| && t != []
    && g.path[0] == []
    && (forall x {:trigger NodeOk(t, g, x)} :: 0 <= x < |t| ==> NodeOk(t, g, x))
    && Unique(t, g)
  }

  /** A state has at most one node for a character. */
  ghost predicate Unique(t: seq<Node>, g: Layout)
    requires |t| == |g.path|
  {
    forall x, y :: 0 <= x < |t| && 0 <= y < |t| && t[x].inp != 0 && t[x].inp == t[y].inp && g.path[x] == g.path[y] ==> x == y
  }

  lemma NodeFacts(t: seq<Node>, g: Layout, x: int)
    requires Shape(t, g) && 0 <= x < |t|
    ensures EdgeOk(t, g, x) && LinkOk(t, g, x) && UpOk(t, g, x)
  {
    assert NodeOk(t, g, x);
  }

  // ---- states ----

  /** The texts that lead to states. */
  ghost function Paths(g: Layout): set<Str> {
    set x | 0 <= x < |g.path| && x < |g.head| && g.head[x] :: g.path[x]
  }

  /** The first node of the list of x. */
  ghost function Top(t: seq<Node>, g: Layout, x: int): (h: int)
    requires Shape(t, g) && 0 <= x < |t|
    ensures 0 <= h <= x && g.head[h] && g.path[h] == g.path[x]
    decreases x
  {
    if g.head[x] then x
    else
      NodeFacts(t, g, x);
      NodeFacts(t, g, g.up[x]);
      Top(t, g, g.up[x])
  }

  lemma SameState(t: seq<Node>, g: Layout, x: int, y: int)
    requires Shape(t, g) && 0 <= x < |t| && 0 <= y < |t| && g.head[x] && g.head[y] && g.path[x] == g.path[y]
    ensures x == y
  {
    NodeFacts(t, g, x);
    NodeFacts(t, g, y);
    if x != 0 {
      NodeFacts(t, g, g.up[x]);
    }
    if y != 0 {
      NodeFacts(t, g, g.up[y]);
    }
    if x != 0 && y != 0 {
      var a, b := g.up[x], g.up[y];
      assert g.path[a] + [t[a].inp] == g.path[b] + [t[b].inp];
      assert g.path[a] == (g.path[a] + [t[a].inp])[..|g.path[x]| - 1] == g.path[b];
      assert t[a].inp == (g.path[a] + [t[a].inp])[|g.path[x]| - 1] == t[b].inp;
    }
  }

  lemma PathsClosed(t: seq<Node>, g: Layout)
    requires Shape(t, g)
    ensures Closed(Paths(g))
  {
    NodeFacts(t, g, 0);
    forall u | u in Paths(g) && u != []
      ensures Parent(u) in Paths(g)
    {
      var x :| 0 <= x < |t| && g.head[x] && g.path[x] == u;
      NodeFacts(t, g, x);
      var a := g.up[x];
      NodeFacts(t, g, a);
      assert Parent(u) == g.path[a];
      var h := Top(t, g, a);
      assert g.path[h] in Paths(g);
    }
  }

  // ---- the list of a state ----

  /** The node for character c, from node x on along the links; -1 if there is none. */
  function Find(t: seq<Node>, x: int, c: int): (r: int)
    requires 0 <= x < |t|
    ensures -1 <= r < |t| && (r >= 0 ==> x <= r && t[r].inp == c)
    decreases |t| - x
  {
    if t[x].inp == c then x
    else if x < t[x].link < |t| then Find(t, t[x].link, c)
    else -1
  }

  lemma {:induction false} FindPath(t: seq<Node>, g: Layout, x: int, c: int)
    requires Shape(t, g) && 0 <= x < |t|
    ensures var r := Find(t, x, c); r >= 0 ==> g.path[r] == g.path[x]
    decreases |t| - x
  {
    hide Unique;
    NodeFacts(t, g, x);
    if t[x].inp != c && t[x].link != 0 {
      FindPath(t, g, t[x].link, c);
    }
  }

  /** On the way to the node of a character no other node has it. */
  lemma {:induction false} FindDown(t: seq<Node>, g: Layout, z: int, y: int)
    requires Shape(t, g) && 0 <= z <= y < |t| && g.path[z] == g.path[y] && t[y].inp != 0
    ensures Find(t, Top(t, g, z), t[y].inp) == Find(t, z, t[y].inp)
    decreases z
  {
    NodeFacts(t, g, z);
    if !g.head[z] {
      var u := g.up[z];
      NodeFacts(t, g, u);
      assert t[u].inp != t[y].inp;
      hide Unique;
      FindDown(t, g, u, y);
    }
  }

  /** Looking a character up in a state tells whether there is a state for it, and which. */
  lemma Lookup(t: seq<Node>, g: Layout, h: int, c: int)
    requires Shape(t, g) && 0 <= h < |t| && g.head[h] && c != 0
    ensures var r := Find(t, h, c);
            && (r >= 0 <==> g.path[h] + [c] in Paths(g))
            && (r >= 0 ==> 0 < t[r].nst < |t| && g.head[t[r].nst] && g.path[t[r].nst] == g.path[h] + [c])
  {
    var r := Find(t, h, c);
    FindPath(t, g, h, c);
    if r >= 0 {
      NodeFacts(t, g, r);
    }
    if g.path[h] + [c] in Paths(g) {
      var x :| 0 <= x < |t| && g.head[x] && g.path[x] == g.path[h] + [c];
      NodeFacts(t, g, x);
      var a := g.up[x];
      NodeFacts(t, g, a);
      assert g.path[a] == g.path[x][..|g.path[x]| - 1] == g.path[h];
      assert t[a].inp == g.path[x][|g.path[x]| - 1] == c;
      FindDown(t, g, a, a);
      SameState(t, g, h, Top(t, g, a));
    }
  }

  /** The same states and edges; out and fail may differ. */
  ghost predicate SameEdges(t: seq<Node>, t': seq<Node>) {
    && |t| == |t'|
    && forall x {:trigger t'[x]} :: 0 <= x < |t| ==>
        t'[x].inp == t[x].inp && t'[x].nst == t[x].nst && t'[x].link == t[x].link
  }

  lemma ShapeSame(t: seq<Node>, t': seq<Node>, g: Layout)
    requires Shape(t, g) && SameEdges(t, t')
    ensures Shape(t', g)
  {
    forall x | 0 <= x < |t|
      ensures NodeOk(t', g, x)
    {
      NodeFacts(t, g, x);
    }
    UniqueSame(t, t', g);
    hide Unique, NodeOk;
  }

  lemma UniqueSame(t: seq<Node>, t': seq<Node>, g: Layout)
    requires |t| == |g.path| && Unique(t, g) && SameEdges(t, t')
    ensures Unique(t', g)
  {
  }

  lemma {:induction false} FindSame(t: seq<Node>, t': seq<Node>, x: int, c: int)
    requires SameEdges(t, t') && 0 <= x < |t|
    ensures Find(t', x, c) == Find(t, x, c)
    decreases |t| - x
  {
    if t[x].inp != c && x < t[x].link < |t| {
      FindSame(t, t', t[x].link, c);
    }
  }

  /** The table of the program. */
  class Machine {
    const w: array<Node>
    var smax: int
    ghost var g: Layout

    ghost predicate Table()
      reads this, w
    {
      w.Length == MAXSIZ && 0 <= smax < MAXSIZ && forall x {:trigger w[x]} :: smax < x < MAXSIZ ==> w[x] == Blank
    }

    /** The nodes in use. */
    ghost function T(): seq<Node>
      requires Table()
      reads this, w
    {
      w[..smax + 1]
    }

    constructor ()
      ensures fresh(w) && Table() && smax == 0 && T() == [Blank]
      ensures g == Layout([[]], [true], [0]) && Shape(T(), g)
    {
      w := new Node[MAXSIZ](_ => Blank);
      smax := 0;
      g := Layout([[]], [true], [0]);
      new;
      assert NodeOk(T(), g, 0);
    }
  }
}
