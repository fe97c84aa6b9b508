/** pgalloc, pgfree, mapneed, mapalloc, mapfree, maprev and maprot of usr/sys/sys/malloc.c. */
module ImageIo {
  import opened Images

  function Ceil(n: int): int { (n + NPM - 1) / NPM }

  /** mapneed: the pages that a map takes to grow from n0 to n1 entries. */
  function Mapneed(n0: int, n1: int): int {
    if n1 <= n0 then 0 else n1 - n0 + (if n0 == 0 then 1 else 0) + Ceil(n1) - Ceil(n0)
  }

  function Cleared(): (p: Page)
    ensures |p| == NPM && forall k :: 0 <= k < NPM ==> p[k] == 0
  {
    seq(NPM, _ => 0)
  }

  /** Only the map's own pages have changed. */
  ghost predicate Kept(mem: seq<Page>, mem': seq<Page>, m: Map) {
    |mem'| == |mem| && forall p {:trigger mem'[p]} :: 1 <= p < |mem| && p != m.root && p !in m.lists ==> mem'[p] == mem[p]
  }

  lemma KeptThen(mem: seq<Page>, mem1: seq<Page>, mem2: seq<Page>, m1: Map, m2: Map)
    requires Kept(mem, mem1, m1) && Kept(mem1, mem2, m2)
    requires (m1.root == 0 || m1.root == m2.root) && m1.lists <= m2.lists
    ensures Kept(mem, mem2, m2)
  {
    forall p | 1 <= p < |mem| && p != m2.root && p !in m2.lists
      ensures mem2[p] == mem[p]
    {
      assert p !in m1.lists;
      assert mem1[p] == mem[p];
    }
  }

  lemma CeilNext(i: int)
    requires i >= 0
    ensures Ceil(i + 1) == i / NPM + 1 && (i % NPM == 0 ==> Ceil(i) == i / NPM) && (i % NPM != 0 ==> Ceil(i) == i / NPM + 1)
  {
  }

  /** In the growing of a map: i entries are there. */
  ghost predicate Growing(m: Map, i: int) { |m.ents| == i && |m.lists| == Ceil(i) && m.root != 0 }

  class Core {
    const mem: array<Page>
    var free: seq<int>            // the stack of free pages
    var map_: int                 // the map of the process
    ghost var m: Map
    ghost var ours: multiset<int>

    ghost predicate Holding()
      reads this, mem
    {
      Good(mem[..], free, m, ours) && map_ == m.root
    }

    ghost predicate Valid()
      reads this, mem
    {
      Holding() && Exact(m)
    }

    /** pgalloc: the top of the stack, or 0 when it is empty. */
    method Pgalloc() returns (pg: int)
      modifies this`free
      ensures if old(free) == [] then pg == 0 && free == [] else pg == Top(old(free)) && free == Rest(old(free))
    {
      if |free| == 0 {
        return 0;
      }
      pg := free[|free| - 1];
      free := free[..|free| - 1];
    }

    method Pgfree(pg: int)
      modifies this`free
      ensures free == old(free) + [pg]
    {
      free := free + [pg];
    }

    method NewRoot()
      requires Holding() && m == Map(0, [], []) && free != []
      modifies this`free, this`map_, this`m, mem
      ensures Holding() && m == Map(map_, [], []) && map_ != 0 && free == Rest(old(free)) && Kept(old(mem[..]), mem[..], m)
    {
      hide Good;
      TakeRoot(mem[..], free, m, ours, Cleared());
      ghost var was := mem[..];
      map_ := Pgalloc();
      mem[map_] := Cleared();
      m := Map(map_, [], []);
      assert mem[..] == was[map_ := Cleared()];
    }

    method NewList(i: int)
      requires Holding() && free != [] && map_ != 0 && |m.lists| == i / NPM < NPM
      modifies this`free, this`m, mem
      ensures Holding() && free == Rest(old(free)) && m == old(m).(lists := old(m).lists + [Top(old(free))]) && Kept(old(mem[..]), mem[..], m)
    {
      hide Good;
      TakeList(mem[..], free, m, ours);
      ghost var was := mem[..];
      var pg := Pgalloc();
      mem[map_] := mem[map_][i / NPM := pg];
      m := m.(lists := m.lists + [pg]);
      assert mem[..] == was[map_ := was[map_][i / NPM := pg]];
    }

    method NewEnt(i: int)
      requires Holding() && free != [] && |m.ents| == i && i / NPM < |m.lists|
      modifies this`free, this`m, mem
      ensures Holding() && free == Rest(old(free)) && m == old(m).(ents := old(m).ents + [Top(old(free))]) && Kept(old(mem[..]), mem[..], m)
    {
      hide Good;
      TakeEnt(mem[..], free, m, ours);
      ListAt(mem[..], free, m, ours, i / NPM);
      ghost var was := mem[..];
      var pg := Pgalloc();
      var l := mem[map_][i / NPM];
      mem[l] := mem[l][i % NPM := pg];
      assert mem[..] == Write(was, m, i, pg);
      m := m.(ents := m.ents + [pg]);
    }

    /** mapalloc: n1 - n0 entries more, each a page of its own; it takes the pages that mapneed counts, or none. */
    method Mapalloc(n0: int, n1: int) returns (ok: bool)
      requires Valid() && n0 == |m.ents| && n1 <= NPM * NPM
      modifies this`free, this`map_, this`m, mem
      ensures Valid() && ok == (Mapneed(n0, n1) <= |old(free)|)
      ensures !ok ==> free == old(free) && m == old(m) && mem[..] == old(mem[..])
      ensures ok ==> free == old(free)[..|old(free)| - Mapneed(n0, n1)]
      ensures ok ==> |m.ents| == (if n1 > n0 then n1 else n0) && old(m).ents <= m.ents && Kept(old(mem[..]), mem[..], m)
    {
      hide Good, Ceil;
      if Mapneed(n0, n1) > |free| {
        return false;
      }
      ok := true;
      ghost var free0, mem0, m0 := free, mem[..], m;
      KeptSelf(mem0, m0);
      if n1 <= n0 {
        return;
      }
      NeedFacts(m, n0, n1);
      if n0 == 0 {
        NewRoot();
      }
      var i := n0;
      ghost var taken := if n0 == 0 then 1 else 0;
      while i < n1
        invariant n0 <= i <= n1 && Holding() && Growing(m, i) && m0.ents <= m.ents && m0.lists <= m.lists
        invariant taken == (i - n0) + (if n0 == 0 then 1 else 0) + Ceil(i) - Ceil(n0) && 0 <= taken <= Mapneed(n0, n1)
        invariant free == free0[..|free0| - taken] && (m0.root == 0 || m0.root == m.root) && Kept(mem0, mem[..], m)
      {
        CeilNext(i);
        CeilUp(i + 1, n1);
        ghost var mem1, m1 := mem[..], m;
        if i % NPM == 0 {
          NewList(i);
          KeptThen(mem0, mem1, mem[..], m1, m);
          taken := taken + 1;
          mem1, m1 := mem[..], m;
        }
        NewEnt(i);
        KeptThen(mem0, mem1, mem[..], m1, m);
        taken := taken + 1;
        i := i + 1;
      }
      ExactAtEnd(m, n1);
    }

    /** mapent. */
    method Mapent(i: int) returns (pg: int)
      requires Holding() && 0 <= i < |m.ents|
      ensures pg == m.ents[i]
    {
      hide Good;
      EntAt(mem[..], free, m, ours, i);
      pg := mem[mem[map_][i / NPM]][i % NPM];
    }

    /** mapfree: the entries from n0 on are freed with the list pages that held them; the rest is as it was. */
    method Mapfree(n0: int, n1: int)
      requires Valid() && 0 <= n0 && n1 == |m.ents|
      modifies this`free, this`map_, this`m
      ensures Valid() && old(free) <= free && |free| == |old(free)| + Mapneed(n0, n1)
      ensures m.ents == if n0 < n1 then old(m).ents[..n0] else old(m).ents
    {
      hide Good, Ceil;
      ghost var free0, m0 := free, m;
      if n0 >= n1 {
        return;
      }
      NeedFacts2(m, n0, n1);
      var i := n1 - 1;
      while i >= n0
        invariant n0 - 1 <= i < n1 && Holding() && Growing(m, i + 1) && m.ents == m0.ents[..i + 1]
        invariant free0 <= free && |free| == |free0| + (n1 - 1 - i) + Ceil(n1) - Ceil(i + 1)
      {
        CeilNext(i);
        var pg := Mapent(i);
        GiveEnt(mem[..], free, m, ours);
        Pgfree(pg);
        m := m.(ents := Rest(m.ents));
        if i % NPM == 0 {
          ListAt(mem[..], free, m, ours, i / NPM);
          GiveList(mem[..], free, m, ours);
          Pgfree(mem[map_][i / NPM]);
          m := m.(lists := Rest(m.lists));
        }
        i := i - 1;
      }
      if n0 == 0 {
        GiveRoot(mem[..], free, m, ours);
        Pgfree(map_);
        map_ := 0;
        m := Map(0, [], []);
        ExactEmpty();
      } else {
        ExactAtEnd(m, n0);
      }
    }

    /** Two entries change places. */
    method Exchange(a: int, c: int)
      requires Holding() && 0 <= a < c < |m.ents|
      modifies this`m, mem
      ensures Holding() && m == old(m).(ents := Swapped(old(m).ents, a, c)) && Kept(old(mem[..]), mem[..], m)
    {
      hide Good;
      EntAt(mem[..], free, m, ours, a);
      EntAt(mem[..], free, m, ours, c);
      ghost var was, m0 := mem[..], m;
      SwapGood(was, free, m0, ours, a, c);
      var la, lc := mem[map_][a / NPM], mem[map_][c / NPM];
      var t := mem[la][a % NPM];
      mem[la] := mem[la][a % NPM := mem[lc][c % NPM]];
      assert mem[..] == Write(was, m0, a, m0.ents[c]);
      mem[lc] := mem[lc][c % NPM := t];
      assert mem[..] == Write(Write(was, m0, a, m0.ents[c]), m0, c, m0.ents[a]);
      m := m0.(ents := Swapped(m0.ents, a, c));
    }

    /** maprev: the entries from a to c are turned around. */
    method Maprev(a: int, c: int)
      requires Holding() && 0 <= a <= c <= |m.ents|
      modifies this`m, mem
      ensures Holding() && m == old(m).(ents := Turned(old(m).ents, a, c)) && Kept(old(mem[..]), mem[..], m)
    {
      hide Good;
      ghost var mem0, m0 := mem[..], m;
      KeptSelf(mem0, m0);
      var i, j := a, c - 1;
      while i < j
        invariant a <= i && j < c && i + j == a + c - 1 && i <= j + 1
        invariant Holding() && m.root == m0.root && m.lists == m0.lists && |m.ents| == |m0.ents| && Kept(mem0, mem[..], m)
        invariant forall k {:trigger m.ents[k]} :: 0 <= k < |m.ents| ==>
                    m.ents[k] == if (a <= k < i || j < k < c) then m0.ents[a + c - 1 - k] else m0.ents[k]
        decreases j - i
      {
        ghost var mem1, m1 := mem[..], m;
        Exchange(i, j);
        KeptThen(mem0, mem1, mem[..], m1, m);
        i := i + 1;
        j := j - 1;
      }
      assert m.ents == Turned(m0.ents, a, c);
    }

    /** maprot: the entries from b to c come before those from a to b. */
    method Maprot(a: int, b: int, c: int)
      requires Valid() && 0 <= a <= b <= c <= |m.ents|
      modifies this`m, mem
      ensures Valid() && m == old(m).(ents := Rotated(old(m).ents, a, b, c)) && Kept(old(mem[..]), mem[..], m)
    {
      hide Good, Kept;
      ghost var mem0, m0 := mem[..], m;
      Maprev(a, b);
      ghost var mem1, m1 := mem[..], m;
      Maprev(b, c);
      ghost var mem2, m2 := mem[..], m;
      KeptThen(mem0, mem1, mem2, m1, m2);
      Maprev(a, c);
      KeptThen(mem0, mem2, mem[..], m2, m);
      TurnedThrice(m0.ents, a, b, c);
    }
  }

  function Swapped(s: seq<int>, a: int, c: int): (r: seq<int>)
    requires 0 <= a < |s| && 0 <= c < |s|
    ensures |r| == |s|
  {
    s[a := s[c]][c := s[a]]
  }

  function Turned(s: seq<int>, a: int, c: int): (r: seq<int>)
    requires 0 <= a <= c <= |s|
    ensures |r| == |s| && forall k {:trigger r[k]} :: 0 <= k < |s| ==> r[k] == if a <= k < c then s[a + c - 1 - k] else s[k]
  {
    seq(|s|, k requires 0 <= k < |s| => if a <= k < c then s[a + c - 1 - k] else s[k])
  }

  function Rotated(s: seq<int>, a: int, b: int, c: int): (r: seq<int>)
    requires 0 <= a <= b <= c <= |s|
    ensures |r| == |s|
  {
    s[..a] + s[b..c] + s[a..b] + s[c..]
  }

  /** Turning both parts and then the whole is a rotation. */
  lemma TurnedThrice(s: seq<int>, a: int, b: int, c: int)
    requires 0 <= a <= b <= c <= |s|
    ensures Turned(Turned(Turned(s, a, b), b, c), a, c) == Rotated(s, a, b, c)
  {
    hide Turned, Rotated;
    var s1 := Turned(s, a, b);
    var s2 := Turned(s1, b, c);
    var r := Turned(s2, a, c);
    forall k | 0 <= k < |s|
      ensures r[k] == Rotated(s, a, b, c)[k]
    {
      RotatedAt(s, a, b, c, k);
      if a <= k < a + c - b {
        assert r[k] == s2[a + c - 1 - k] == s1[b + c - 1 - (a + c - 1 - k)];
      } else if a + c - b <= k < c {
        assert r[k] == s2[a + c - 1 - k] == s1[a + c - 1 - k] == s[a + b - 1 - (a + c - 1 - k)];
      } else {
        assert r[k] == s2[k] == s1[k];
      }
    }
  }

  lemma RotatedAt(s: seq<int>, a: int, b: int, c: int, k: int)
    requires 0 <= a <= b <= c <= |s| && 0 <= k < |s|
    ensures Rotated(s, a, b, c)[k] == s[if a <= k < a + c - b then k - a + b else if a + c - b <= k < c then k - c + b else k]
  {
  }

  lemma EntAt(mem: seq<Page>, free: seq<int>, m: Map, ours: multiset<int>, i: int)
    requires Good(mem, free, m, ours) && 0 <= i < |m.ents|
    ensures i / NPM < |m.lists| && 0 < m.root < |mem| && i / NPM < |mem[m.root]| && mem[m.root][i / NPM] == m.lists[i / NPM]
    ensures 0 < m.lists[i / NPM] < |mem| && |mem[m.lists[i / NPM]]| == NPM && mem[m.lists[i / NPM]][i % NPM] == m.ents[i]
  {
    hide Own;
    var e := m.ents[i];
    assert i / NPM < |m.lists| && mem[m.lists[i / NPM]][i % NPM] == e;
    var l := m.lists[i / NPM];
    assert mem[m.root][i / NPM] == l;
  }

  lemma SwapGood(mem: seq<Page>, free: seq<int>, m: Map, ours: multiset<int>, a: int, c: int)
    requires Good(mem, free, m, ours) && 0 <= a < c < |m.ents|
    requires a / NPM < |m.lists| && c / NPM < |m.lists|
    requires 0 < m.lists[a / NPM] < |mem| && |mem[m.lists[a / NPM]]| == NPM
    requires 0 < m.lists[c / NPM] < |mem| && |mem[m.lists[c / NPM]]| == NPM
    ensures Good(Write(Write(mem, m, a, m.ents[c]), m, c, m.ents[a]), free, m.(ents := Swapped(m.ents, a, c)), ours)
  {
    hide Own, Held;
    OwnDiffer(|mem|, free, m, ours);
    RootDiffers(mem, free, m, ours);
    OwnSwap(|mem|, free, m, ours, a, c);
    SwapListed(mem, m, a, c);
    hide Listed;
  }

  lemma SwapListed(mem: seq<Page>, m: Map, a: int, c: int)
    requires Sized(mem) && Listed(mem, m) && 0 <= a < c < |m.ents| && a / NPM < |m.lists| && c / NPM < |m.lists|
    requires forall k, l :: 0 <= k < l < |m.lists| ==> m.lists[k] != m.lists[l]
    requires forall k :: 0 <= k < |m.lists| ==> m.lists[k] != m.root
    requires 0 < m.lists[a / NPM] < |mem| && |mem[m.lists[a / NPM]]| == NPM
    requires 0 < m.lists[c / NPM] < |mem| && |mem[m.lists[c / NPM]]| == NPM
    ensures var mem' := Write(Write(mem, m, a, m.ents[c]), m, c, m.ents[a]);
            Sized(mem') && |mem'| == |mem| && Listed(mem', m.(ents := Swapped(m.ents, a, c)))
  {
    var one := m.ents[a := m.ents[c]];
    WriteListed(mem, m, a, m.ents[c], one);
    var mem1, m1 := Write(mem, m, a, m.ents[c]), m.(ents := one);
    hide Listed;
    WriteListed(mem1, m1, c, m.ents[a], one[c := m.ents[a]]);
    assert Write(mem1, m1, c, m.ents[a]) == Write(mem1, m, c, m.ents[a]);
  }

  lemma RootDiffers(mem: seq<Page>, free: seq<int>, m: Map, ours: multiset<int>)
    requires Good(mem, free, m, ours)
    ensures forall k :: 0 <= k < |m.lists| ==> m.lists[k] != m.root
  {
    OwnDiffer(|mem|, free, m, ours);
    hide Own;
  }

  lemma FiveParts(u: seq<int>, x: int, v: seq<int>, y: int, w: seq<int>)
    ensures multiset(u + [x] + v + [y] + w) == multiset(u + [y] + v + [x] + w)
  {
  }

  lemma SwapMultiset(s: seq<int>, a: int, c: int)
    requires 0 <= a < c < |s|
    ensures multiset(Swapped(s, a, c)) == multiset(s)
  {
    var s' := Swapped(s, a, c);
    var u, v, w := s[..a], s[a + 1..c], s[c + 1..];
    assert s == u + [s[a]] + v + [s[c]] + w;
    assert s' == u + [s[c]] + v + [s[a]] + w;
    FiveParts(u, s[a], v, s[c], w);
  }

  lemma OwnSwap(size: int, free: seq<int>, m: Map, ours: multiset<int>, a: int, c: int)
    requires Own(size, free, m, ours) && 0 <= a < c < |m.ents|
    ensures Own(size, free, m.(ents := Swapped(m.ents, a, c)), ours)
  {
    SwapMultiset(m.ents, a, c);
    hide Swapped;
    assert multiset(free + Held(m.(ents := Swapped(m.ents, a, c)))) == multiset(free + Held(m));
  }

  lemma NeedFacts2(m: Map, n0: int, n1: int)
    requires Exact(m) && n1 == |m.ents| && 0 <= n0 < n1
    ensures Growing(m, n1) && Ceil(0) == 0
  {
  }

  lemma KeptSelf(mem: seq<Page>, m: Map)
    ensures Kept(mem, mem, m)
  {
  }

  lemma ListAt(mem: seq<Page>, free: seq<int>, m: Map, ours: multiset<int>, k: int)
    requires Good(mem, free, m, ours) && 0 <= k < |m.lists|
    ensures 0 < m.root < |mem| && k < |mem[m.root]| && mem[m.root][k] == m.lists[k] && 0 < m.lists[k] < |mem| && |mem[m.lists[k]]| == NPM
  {
    hide Own;
  }

  lemma CeilUp(a: int, b: int)
    requires 0 <= a <= b
    ensures 0 <= Ceil(a) <= Ceil(b) && (b <= NPM * NPM ==> Ceil(b) <= NPM)
  {
  }

  lemma NeedFacts(m: Map, n0: int, n1: int)
    requires Exact(m) && n0 == |m.ents| < n1
    ensures Mapneed(n0, n1) >= 1 && |m.lists| == Ceil(n0) && (m.root == 0 <==> n0 == 0) && (n0 == 0 ==> m == Map(0, [], []) && Ceil(0) == 0)
  {
    CeilUp(n0, n1);
  }

  lemma ExactEmpty()
    ensures Exact(Map(0, [], []))
  {
  }

  lemma ExactAtEnd(m: Map, n: int)
    requires Growing(m, n) && n > 0
    ensures Exact(m)
  {
  }
}
