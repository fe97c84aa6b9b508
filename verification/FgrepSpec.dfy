/**
 * What the keyword machine of usr/src/cmd/fgrep.c computes, in terms of the
 * set of all prefixes of the keywords: the state after some text is the
 * longest suffix of the text in that set.
 */
module FgrepSpec {
  import Sets

  type Str = seq<int>

  ghost predicate Suffix(u: Str, x: Str) { |u| <= |x| && x[|x| - |u|..] == u }

  function Parent(v: Str): Str { if v == [] then [] else v[..|v| - 1] }

  ghost predicate Closed(ps: set<Str>) {
    [] in ps && forall u {:trigger Parent(u)} :: u in ps ==> Parent(u) in ps
  }

  /** The longest suffix of x in the set. */
  ghost function Longest(ps: set<Str>, x: Str): (u: Str)
    requires [] in ps
    ensures u in ps && |u| <= |x|
    decreases |x|
  {
    if x in ps then x else Longest(ps, x[1..])
  }

  lemma {:induction false} LongestSuffix(ps: set<Str>, x: Str)
    requires [] in ps
    ensures Suffix(Longest(ps, x), x)
    decreases |x|
  {
    if x !in ps {
      LongestSuffix(ps, x[1..]);
      var u := Longest(ps, x[1..]);
      assert x[|x| - |u|..] == x[1..][|x[1..]| - |u|..];
    }
  }

  lemma {:induction false} LongestIsLongest(ps: set<Str>, x: Str, v: Str)
    requires [] in ps && v in ps && Suffix(v, x)
    ensures Suffix(v, Longest(ps, x))
    decreases |x|
  {
    if x !in ps {
      assert |v| != |x|;
      assert x[1..][|x[1..]| - |v|..] == x[|x| - |v|..];
      LongestIsLongest(ps, x[1..], v);
    }
  }

  /** The longest proper suffix in the set. */
  ghost function Border(ps: set<Str>, u: Str): (v: Str)
    requires [] in ps && u != []
    ensures v in ps && |v| < |u|
  {
    Longest(ps, u[1..])
  }

  /** The next state: the longest suffix that can be continued with c, found along the borders. */
  ghost function Next(ps: set<Str>, u: Str, c: int): (v: Str)
    requires [] in ps
    ensures v in ps
    decreases |u|
  {
    if u + [c] in ps then u + [c] else if u == [] then [] else Next(ps, Border(ps, u), c)
  }

  lemma {:induction false} LongestSnoc(ps: set<Str>, x: Str, c: int)
    requires Closed(ps)
    ensures Longest(ps, x + [c]) == Longest(ps, Longest(ps, x) + [c])
    decreases |x|
  {
    if x !in ps {
      Shorter(ps, x, c);
      hide Closed;
      assert (x + [c])[1..] == x[1..] + [c];
      LongestSnoc(ps, x[1..], c);
    }
  }

  lemma Shorter(ps: set<Str>, x: Str, c: int)
    requires Closed(ps)
    ensures x + [c] in ps ==> x in ps
  {
    assert Parent(x + [c]) == x;
  }

  lemma {:induction false} NextIsLongest(ps: set<Str>, u: Str, c: int)
    requires Closed(ps) && u in ps
    ensures Longest(ps, u + [c]) == Next(ps, u, c)
    decreases |u|
  {
    if u + [c] !in ps {
      if u == [] {
        assert (u + [c])[1..] == [];
      } else {
        assert (u + [c])[1..] == u[1..] + [c];
        LongestSnoc(ps, u[1..], c);
        NextIsLongest(ps, Border(ps, u), c);
      }
    }
  }

  /** Following the borders keeps the state the longest suffix of the text. */
  lemma NextStep(ps: set<Str>, x: Str, c: int)
    requires Closed(ps)
    ensures Next(ps, Longest(ps, x), c) == Longest(ps, x + [c])
  {
    LongestSnoc(ps, x, c);
    NextIsLongest(ps, Longest(ps, x), c);
  }

  /** The border of the state u + [c], found from the border of u. */
  lemma BorderStep(ps: set<Str>, u: Str, c: int)
    requires Closed(ps)
    ensures Border(ps, u + [c]) == if u == [] then [] else Next(ps, Border(ps, u), c)
  {
    if u == [] {
      assert (u + [c])[1..] == [];
    } else {
      assert (u + [c])[1..] == u[1..] + [c];
      NextStep(ps, u[1..], c);
    }
  }

  /** Some keyword that is not empty is a suffix of x. */
  ghost predicate Hit(ms: set<Str>, x: Str) { exists m :: m in ms && m != [] && Suffix(m, x) }

  lemma {:induction false} SuffixSuffix(a: Str, b: Str, x: Str)
    requires Suffix(a, b) && Suffix(b, x)
    ensures Suffix(a, x)
  {
    assert x[|x| - |a|..] == x[|x| - |b|..][|b| - |a|..];
  }

  /** The state alone tells whether a keyword ends here. */
  lemma HitState(ps: set<Str>, ms: set<Str>, x: Str)
    requires [] in ps && ms <= ps
    ensures Hit(ms, x) <==> Hit(ms, Longest(ps, x))
  {
    if Hit(ms, x) {
      var m :| m in ms && m != [] && Suffix(m, x);
      LongestIsLongest(ps, x, m);
    }
    LongestSuffix(ps, x);
    if Hit(ms, Longest(ps, x)) {
      var m :| m in ms && m != [] && Suffix(m, Longest(ps, x));
      SuffixSuffix(m, Longest(ps, x), x);
    }
  }

  /** A state stands for a keyword itself, or its border does. */
  lemma HitBorder(ps: set<Str>, ms: set<Str>, u: Str)
    requires [] in ps && ms <= ps && u != []
    ensures Hit(ms, u) <==> u in ms || Hit(ms, Border(ps, u))
  {
    HitState(ps, ms, u[1..]);
    if u in ms {
      assert Suffix(u, u);
    }
    if Hit(ms, u) && u !in ms {
      var m :| m in ms && m != [] && Suffix(m, u);
      assert |m| != |u|;
      assert u[1..][|u[1..]| - |m|..] == u[|u| - |m|..];
      assert Suffix(m, u[1..]);
    }
    if Hit(ms, u[1..]) {
      var m :| m in ms && m != [] && Suffix(m, u[1..]);
      assert u[1..][|u[1..]| - |m|..] == u[|u| - |m|..];
      assert Suffix(m, u);
    }
  }

  // ---- how many nodes the states take ----

  ghost predicate Leaf(ps: set<Str>, u: Str) { forall c {:trigger u + [c]} :: u + [c] !in ps }

  ghost function Leaves(ps: set<Str>): set<Str> { set u | u in ps && Leaf(ps, u) }

  /** A node for each edge, at the state it leads from, and one for each state that none leads from. */
  ghost function Needed(ps: set<Str>): int { |ps| - 1 + |Leaves(ps)| }

  lemma LeavesMore(ps: set<Str>, u: Str, c: int)
    requires Closed(ps) && u in ps && u + [c] !in ps
    ensures Leaves(ps + {u + [c]}) == Leaves(ps) - {u} + {u + [c]}
  {
    var v, qs := u + [c], ps + {u + [c]};
    assert Leaf(ps, v) by {
      forall d
        ensures v + [d] !in ps
      {
        Shorter(ps, v, d);
      }
    }
    forall w | w in ps
      ensures Leaf(qs, w) <==> Leaf(ps, w) && w != u
    {
      if w == u {
        assert u + [c] in qs;
      } else {
        assert forall d :: w + [d] == v ==> Parent(w + [d]) == w && Parent(v) == u;
      }
    }
    assert Leaf(qs, v) by {
      forall d
        ensures v + [d] !in qs
      {
        assert |v + [d]| > |v|;
      }
    }
  }

  lemma NeededMore(ps: set<Str>, u: Str, c: int)
    requires Closed(ps) && u in ps && u + [c] !in ps
    ensures Closed(ps + {u + [c]}) && Leaf(ps + {u + [c]}, u + [c])
    ensures Needed(ps + {u + [c]}) == Needed(ps) + if Leaf(ps, u) then 1 else 2
  {
    LeavesMore(ps, u, c);
    assert Parent(u + [c]) == u;
    assert u + [c] in Leaves(ps + {u + [c]});
    hide Leaf;
    assert |Leaves(ps) - {u}| == |Leaves(ps)| - if Leaf(ps, u) then 1 else 0;
  }

  /** A shortest of the texts that are in qs only. */
  lemma {:induction false} Shortest(ps: set<Str>, qs: set<Str>, v: Str) returns (u: Str)
    requires Closed(ps) && Closed(qs) && v in qs && v !in ps
    ensures u in qs && u !in ps && u != [] && Parent(u) in ps
    decreases |v|
  {
    if Parent(v) in ps {
      u := v;
    } else {
      u := Shortest(ps, qs, Parent(v));
    }
  }

  /** More states never take fewer nodes. */
  lemma {:induction false} NeededMono(ps: set<Str>, qs: set<Str>)
    requires Closed(ps) && Closed(qs) && ps <= qs
    ensures Needed(ps) <= Needed(qs)
    decreases |qs - ps|
  {
    if v :| v in qs && v !in ps {
      var u := Shortest(ps, qs, v);
      assert Parent(u) + [u[|u| - 1]] == u;
      NeededMore(ps, Parent(u), u[|u| - 1]);
      assert qs - (ps + {u}) < qs - ps by { assert u in qs - ps; }
      hide Closed, Needed;
      Sets.Smaller(qs - (ps + {u}), qs - ps);
      NeededMono(ps + {u}, qs);
    } else {
      assert ps == qs;
    }
  }
}
