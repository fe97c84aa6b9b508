/**
 * The page maps of usr/sys/sys/malloc.c: a root page lists the pages that
 * list the pages of an image. A page is its 1024 words; pages are numbered
 * from 1, and 0 is no page.
 */
module Images {

  const NPM := 1024

  type Page = seq<int>

  /** A map: its root page, its list pages, and the pages of the image. */
  datatype Map = Map(root: int, lists: seq<int>, ents: seq<int>)

  // ---- which pages are whose ----

  /** All pages of a map. */
  function Held(m: Map): seq<int> { (if m.root == 0 then [] else [m.root]) + m.lists + m.ents }

  /** Core is pages of one size. */
  ghost predicate Sized(mem: seq<Page>) { forall p {:trigger mem[p]} :: 0 <= p < |mem| ==> |mem[p]| == NPM }

  /** Each page of ours is either free or in the map, and there once. */
  ghost predicate Own(size: int, free: seq<int>, m: Map, ours: multiset<int>) {
    && multiset(free + Held(m)) == ours
    && forall p {:trigger ours[p]} :: ours[p] <= 1 && (p in ours ==> 1 <= p < size)
  }

  /** The pages of the map say what is in it. */
  ghost predicate Listed(mem: seq<Page>, m: Map) {
    && |m.lists| <= NPM && (m.lists != [] ==> 0 < m.root < |mem| && |mem[m.root]| == NPM)
    && (forall k {:trigger m.lists[k]} :: 0 <= k < |m.lists| ==>
          mem[m.root][k] == m.lists[k] && 0 < m.lists[k] < |mem| && |mem[m.lists[k]]| == NPM)
    && (forall i {:trigger m.ents[i]} :: 0 <= i < |m.ents| ==>
          i / NPM < |m.lists| && mem[m.lists[i / NPM]][i % NPM] == m.ents[i])
  }

  ghost predicate Good(mem: seq<Page>, free: seq<int>, m: Map, ours: multiset<int>) {
    Sized(mem) && Own(|mem|, free, m, ours) && Listed(mem, m)
  }

  /** The map has the pages that its size needs, and no more. */
  ghost predicate Exact(m: Map) {
    |m.lists| == (|m.ents| + NPM - 1) / NPM && (m.root == 0 <==> m.ents == [])
  }

  // ---- facts about who holds what ----

  lemma {:induction false} Counted(s: seq<int>, i: int, j: int)
    requires 0 <= i < j < |s| && s[i] == s[j]
    ensures multiset(s)[s[i]] >= 2
  {
    assert s == s[..i] + [s[i]] + s[i + 1..j] + [s[j]] + s[j + 1..];
  }

  /** Pages at different places of the free list and the map differ. */
  lemma Differ(size: int, free: seq<int>, m: Map, ours: multiset<int>, i: int, j: int)
    requires Own(size, free, m, ours) && 0 <= i < |free + Held(m)| && 0 <= j < |free + Held(m)| && i != j
    ensures (free + Held(m))[i] != (free + Held(m))[j]
  {
    var all := free + Held(m);
    assert ours[all[i]] <= 1;
    if all[i] == all[j] {
      Counted(all, if i < j then i else j, if i < j then j else i);
    }
  }

  lemma InRange(size: int, free: seq<int>, m: Map, ours: multiset<int>, i: int)
    requires Own(size, free, m, ours) && 0 <= i < |free + Held(m)|
    ensures 1 <= (free + Held(m))[i] < size
  {
    var all := free + Held(m);
    var p := all[i];
    assert ours[p] <= 1 && (p in ours ==> 1 <= p < size);
    hide Held, Own;
    assert p in multiset(all);
  }

  /** Where the pages of a map are in the list of all pages. */
  function RootPlace(free: seq<int>): int { |free| }

  function ListPlace(free: seq<int>, m: Map, k: int): int { |free| + (if m.root == 0 then 0 else 1) + k }

  function EntPlace(free: seq<int>, m: Map, i: int): int { |free| + (if m.root == 0 then 0 else 1) + |m.lists| + i }

  lemma Places(free: seq<int>, m: Map)
    ensures |free + Held(m)| == EntPlace(free, m, |m.ents|)
    ensures forall f {:trigger free[f]} :: 0 <= f < |free| ==> (free + Held(m))[f] == free[f]
    ensures m.root != 0 ==> (free + Held(m))[RootPlace(free)] == m.root
    ensures forall k {:trigger m.lists[k]} :: 0 <= k < |m.lists| ==> (free + Held(m))[ListPlace(free, m, k)] == m.lists[k]
    ensures forall i {:trigger m.ents[i]} :: 0 <= i < |m.ents| ==> (free + Held(m))[EntPlace(free, m, i)] == m.ents[i]
  {
  }

  /** The pages of a map differ from each other and from the free pages. */
  ghost predicate AllDiffer(free: seq<int>, m: Map) {
    && (forall k, l :: 0 <= k < l < |m.lists| ==> m.lists[k] != m.lists[l])
    && (forall k, i :: 0 <= k < |m.lists| && 0 <= i < |m.ents| ==> m.lists[k] != m.ents[i])
    && (forall k :: 0 <= k < |m.lists| ==> m.root != 0 ==> m.lists[k] != m.root)
    && (forall i :: 0 <= i < |m.ents| ==> m.root != 0 ==> m.ents[i] != m.root)
    && (forall i, j :: 0 <= i < j < |m.ents| ==> m.ents[i] != m.ents[j])
    && (forall f :: 0 <= f < |free| ==> (m.root != 0 ==> free[f] != m.root) && free[f] !in m.lists && free[f] !in m.ents)
  }

  lemma OwnDiffer(size: int, free: seq<int>, m: Map, ours: multiset<int>)
    requires Own(size, free, m, ours)
    ensures AllDiffer(free, m)
  {
    Places(free, m);
    hide Own, Held;
    forall k, l | 0 <= k < l < |m.lists|
      ensures m.lists[k] != m.lists[l]
    {
      Differ(size, free, m, ours, ListPlace(free, m, k), ListPlace(free, m, l));
    }
    forall k, i | 0 <= k < |m.lists| && 0 <= i < |m.ents|
      ensures m.lists[k] != m.ents[i]
    {
      Differ(size, free, m, ours, ListPlace(free, m, k), EntPlace(free, m, i));
    }
    forall i, j | 0 <= i < j < |m.ents|
      ensures m.ents[i] != m.ents[j]
    {
      Differ(size, free, m, ours, EntPlace(free, m, i), EntPlace(free, m, j));
    }
    if m.root != 0 {
      forall k | 0 <= k < |m.lists|
        ensures m.lists[k] != m.root
      {
        Differ(size, free, m, ours, ListPlace(free, m, k), RootPlace(free));
      }
      forall i | 0 <= i < |m.ents|
        ensures m.ents[i] != m.root
      {
        Differ(size, free, m, ours, EntPlace(free, m, i), RootPlace(free));
      }
    }
    forall f | 0 <= f < |free|
      ensures (m.root != 0 ==> free[f] != m.root) && free[f] !in m.lists && free[f] !in m.ents
    {
      if m.root != 0 {
        Differ(size, free, m, ours, f, RootPlace(free));
      }
      forall k | 0 <= k < |m.lists|
        ensures m.lists[k] != free[f]
      {
        Differ(size, free, m, ours, f, ListPlace(free, m, k));
      }
      forall i | 0 <= i < |m.ents|
        ensures m.ents[i] != free[f]
      {
        Differ(size, free, m, ours, f, EntPlace(free, m, i));
      }
    }
  }

  // ---- one page at a time ----

  function Top(free: seq<int>): int
    requires free != []
  {
    free[|free| - 1]
  }

  function Rest(free: seq<int>): seq<int>
    requires free != []
  {
    free[..|free| - 1]
  }

  lemma Moved(size: int, free: seq<int>, m: Map, free': seq<int>, m': Map, ours: multiset<int>)
    requires Own(size, free, m, ours) && multiset(free' + Held(m')) == multiset(free + Held(m))
    ensures Own(size, free', m', ours)
  {
  }

  lemma TopFacts(mem: seq<Page>, free: seq<int>, m: Map, ours: multiset<int>)
    requires Good(mem, free, m, ours) && free != []
    ensures 1 <= Top(free) < |mem| && Top(free) !in m.lists && Top(free) !in m.ents && Top(free) != m.root && AllDiffer(free, m)
    ensures m.root != 0 ==> 1 <= m.root < |mem|
  {
    OwnDiffer(|mem|, free, m, ours);
    Places(free, m);
    hide Own, Held;
    InRange(|mem|, free, m, ours, |free| - 1);
    if m.root != 0 {
      InRange(|mem|, free, m, ours, RootPlace(free));
    }
  }

  /** The root page of an empty map. */
  lemma TakeRoot(mem: seq<Page>, free: seq<int>, m: Map, ours: multiset<int>, blank: Page)
    requires Good(mem, free, m, ours) && free != [] && m == Map(0, [], []) && |blank| == NPM
    ensures 1 <= Top(free) < |mem|
    ensures Good(mem[Top(free) := blank], Rest(free), Map(Top(free), [], []), ours)
  {
    hide AllDiffer, Own;
    TopFacts(mem, free, m, ours);
    OwnTakeRoot(|mem|, free, m, ours);
  }

  /** The counts of a list of pages do not depend on the order of its parts. */
  lemma OwnParts(size: int, free: seq<int>, m: Map, ours: multiset<int>, free': seq<int>, m': Map)
    requires Own(size, free, m, ours)
    requires multiset(free') + multiset(Held(m')) == multiset(free) + multiset(Held(m))
    ensures Own(size, free', m', ours)
  {
    hide Held;
  }

  lemma HeldParts(m: Map)
    ensures multiset(Held(m)) == (if m.root == 0 then multiset{} else multiset{m.root}) + multiset(m.lists) + multiset(m.ents)
  {
  }

  lemma TopParts(s: seq<int>)
    requires s != []
    ensures multiset(s) == multiset(Rest(s)) + multiset{Top(s)}
  {
    assert s == Rest(s) + [Top(s)];
  }

  lemma MoreParts(s: seq<int>, x: int)
    ensures multiset(s + [x]) == multiset(s) + multiset{x}
  {
  }

  lemma OwnTakeRoot(size: int, free: seq<int>, m: Map, ours: multiset<int>)
    requires Own(size, free, m, ours) && free != [] && m == Map(0, [], []) && Top(free) != 0
    ensures Own(size, Rest(free), Map(Top(free), [], []), ours)
  {
    hide Own, Held, Top, Rest;
    var m' := Map(Top(free), [], []);
    HeldParts(m);
    HeldParts(m');
    TopParts(free);
    OwnParts(size, free, m, ours, Rest(free), m');
  }

  lemma OwnTakeList(size: int, free: seq<int>, m: Map, ours: multiset<int>)
    requires Own(size, free, m, ours) && free != [] && m.root != 0
    ensures Own(size, Rest(free), m.(lists := m.lists + [Top(free)]), ours)
  {
    hide Own, Held, Top, Rest;
    var m' := m.(lists := m.lists + [Top(free)]);
    HeldParts(m);
    HeldParts(m');
    TopParts(free);
    MoreParts(m.lists, Top(free));
    OwnParts(size, free, m, ours, Rest(free), m');
  }

  lemma OwnTakeEnt(size: int, free: seq<int>, m: Map, ours: multiset<int>)
    requires Own(size, free, m, ours) && free != []
    ensures Own(size, Rest(free), m.(ents := m.ents + [Top(free)]), ours)
  {
    hide Own, Held, Top, Rest;
    var m' := m.(ents := m.ents + [Top(free)]);
    HeldParts(m);
    HeldParts(m');
    TopParts(free);
    MoreParts(m.ents, Top(free));
    OwnParts(size, free, m, ours, Rest(free), m');
  }

  lemma OwnGiveList(size: int, free: seq<int>, m: Map, ours: multiset<int>)
    requires Own(size, free, m, ours) && m.lists != []
    ensures Own(size, free + [Top(m.lists)], m.(lists := Rest(m.lists)), ours)
  {
    hide Own, Held, Top, Rest;
    var m' := m.(lists := Rest(m.lists));
    HeldParts(m);
    HeldParts(m');
    TopParts(m.lists);
    MoreParts(free, Top(m.lists));
    OwnParts(size, free, m, ours, free + [Top(m.lists)], m');
  }

  lemma OwnGiveEnt(size: int, free: seq<int>, m: Map, ours: multiset<int>)
    requires Own(size, free, m, ours) && m.ents != []
    ensures Own(size, free + [Top(m.ents)], m.(ents := Rest(m.ents)), ours)
  {
    hide Own, Held, Top, Rest;
    var m' := m.(ents := Rest(m.ents));
    HeldParts(m);
    HeldParts(m');
    TopParts(m.ents);
    MoreParts(free, Top(m.ents));
    OwnParts(size, free, m, ours, free + [Top(m.ents)], m');
  }

  /** A list page more. */
  lemma TakeList(mem: seq<Page>, free: seq<int>, m: Map, ours: multiset<int>)
    requires Good(mem, free, m, ours) && free != [] && m.root != 0 && |m.lists| < NPM
    ensures 1 <= Top(free) < |mem| && 1 <= m.root < |mem| && |mem[m.root]| == NPM
    ensures Good(mem[m.root := mem[m.root][|m.lists| := Top(free)]], Rest(free), m.(lists := m.lists + [Top(free)]), ours)
  {
    hide Own, Held;
    TopFacts(mem, free, m, ours);
    OwnTakeList(|mem|, free, m, ours);
    var b := Top(free);
    var m' := m.(lists := m.lists + [b]);
    var mem' := mem[m.root := mem[m.root][|m.lists| := b]];
    forall i | 0 <= i < |m.ents|
      ensures i / NPM < |m'.lists| && mem'[m'.lists[i / NPM]][i % NPM] == m'.ents[i]
    {
      ListsAt(mem, m, i);
      assert m'.lists[i / NPM] == m.lists[i / NPM] != m.root;
    }
    hide AllDiffer;
    assert m.lists == m'.lists[..|m.lists|];
  }

  /** An entry is written in its list page. */
  function Write(mem: seq<Page>, m: Map, i: int, x: int): seq<Page>
    requires 0 <= i / NPM < |m.lists| && 0 <= m.lists[i / NPM] < |mem| && |mem[m.lists[i / NPM]]| == NPM
  {
    var l := m.lists[i / NPM];
    mem[l := mem[l][i % NPM := x]]
  }

  lemma WriteListed(mem: seq<Page>, m: Map, i: int, x: int, ents: seq<int>)
    requires Sized(mem) && Listed(mem, m) && 0 <= i && i / NPM < |m.lists|
    requires forall k, l :: 0 <= k < l < |m.lists| ==> m.lists[k] != m.lists[l]
    requires forall k :: 0 <= k < |m.lists| ==> m.lists[k] != m.root
    requires |m.ents| <= |ents| && i < |ents| && ents[i] == x && (forall j :: 0 <= j < |ents| && j != i ==> j < |m.ents| && ents[j] == m.ents[j])
    ensures Sized(Write(mem, m, i, x)) && Listed(Write(mem, m, i, x), m.(ents := ents))
  {
    hide Listed;
    ListsAt(mem, m, i);
    WriteLists(mem, m, i, x);
    forall j | 0 <= j < |ents|
      ensures j / NPM < |m.lists| && Write(mem, m, i, x)[m.lists[j / NPM]][j % NPM] == ents[j]
    {
      assert j != i ==> ents[j] == x || j < |m.ents|;
      ListsAt(mem, m, j);
      WriteAt(mem, m, i, x, j);
    }
    ListedIs(Write(mem, m, i, x), m, ents);
  }

  /** What the list page for entry j says. */
  lemma ListsAt(mem: seq<Page>, m: Map, j: int)
    requires Listed(mem, m) && 0 <= j && (j < |m.ents| || j / NPM < |m.lists|)
    ensures j / NPM < |m.lists| && 0 < m.lists[j / NPM] < |mem| && |mem[m.lists[j / NPM]]| == NPM
    ensures j < |m.ents| ==> mem[m.lists[j / NPM]][j % NPM] == m.ents[j]
  {
    if j < |m.ents| {
      var e := m.ents[j];
      assert j / NPM < |m.lists|;
    }
    var l := m.lists[j / NPM];
    assert 0 < l < |mem|;
  }

  lemma WriteAt(mem: seq<Page>, m: Map, i: int, x: int, j: int)
    requires 0 <= i && i / NPM < |m.lists| && 0 < m.lists[i / NPM] < |mem| && |mem[m.lists[i / NPM]]| == NPM
    requires 0 <= j && j / NPM < |m.lists| && 0 < m.lists[j / NPM] < |mem| && |mem[m.lists[j / NPM]]| == NPM
    requires forall k, l :: 0 <= k < l < |m.lists| ==> m.lists[k] != m.lists[l]
    ensures |Write(mem, m, i, x)[m.lists[j / NPM]]| == NPM
    ensures Write(mem, m, i, x)[m.lists[j / NPM]][j % NPM] == if i == j then x else mem[m.lists[j / NPM]][j % NPM]
  {
    var a, b := i / NPM, j / NPM;
    assert a < b ==> m.lists[a] != m.lists[b];
    assert b < a ==> m.lists[b] != m.lists[a];
    assert i == a * NPM + i % NPM && j == b * NPM + j % NPM;
  }

  /** Writing an entry changes no root and no size. */
  lemma WriteLists(mem: seq<Page>, m: Map, i: int, x: int)
    requires Sized(mem) && Listed(mem, m) && 0 <= i && i / NPM < |m.lists|
    requires 0 < m.lists[i / NPM] < |mem| && |mem[m.lists[i / NPM]]| == NPM
    requires forall k :: 0 <= k < |m.lists| ==> m.lists[k] != m.root
    ensures Sized(Write(mem, m, i, x)) && Listed(Write(mem, m, i, x), m.(ents := []))
  {
  }

  lemma ListedIs(mem: seq<Page>, m: Map, ents: seq<int>)
    requires Listed(mem, m.(ents := []))
    requires forall j :: 0 <= j < |ents| ==>
               j / NPM < |m.lists| && 0 < m.lists[j / NPM] < |mem| && |mem[m.lists[j / NPM]]| == NPM &&
               mem[m.lists[j / NPM]][j % NPM] == ents[j]
    ensures Listed(mem, m.(ents := ents))
  {
  }

  /** A page of the image more. */
  lemma TakeEnt(mem: seq<Page>, free: seq<int>, m: Map, ours: multiset<int>)
    requires Good(mem, free, m, ours) && free != [] && |m.ents| / NPM < |m.lists|
    ensures var i := |m.ents|;
            && 0 <= m.lists[i / NPM] < |mem| && |mem[m.lists[i / NPM]]| == NPM
            && Good(Write(mem, m, i, Top(free)), Rest(free), m.(ents := m.ents + [Top(free)]), ours)
  {
    hide Own, Held;
    TopFacts(mem, free, m, ours);
    OwnTakeEnt(|mem|, free, m, ours);
    var b, i := Top(free), |m.ents|;
    ListsAt(mem, m, i);
    hide Listed;
    WriteListed(mem, m, i, b, m.ents + [b]);
  }

  /** The last page of the image is freed. */
  lemma GiveEnt(mem: seq<Page>, free: seq<int>, m: Map, ours: multiset<int>)
    requires Good(mem, free, m, ours) && m.ents != []
    ensures Good(mem, free + [Top(m.ents)], m.(ents := Rest(m.ents)), ours)
  {
    hide Own, Held;
    OwnGiveEnt(|mem|, free, m, ours);
    var m' := m.(ents := Rest(m.ents));
    forall i | 0 <= i < |m'.ents|
      ensures i / NPM < |m'.lists| && mem[m'.lists[i / NPM]][i % NPM] == m'.ents[i]
    {
      ListsAt(mem, m, i);
      assert m.ents[i] == m'.ents[i];
    }
  }

  /** The last list page is freed, when its entries are. */
  lemma GiveList(mem: seq<Page>, free: seq<int>, m: Map, ours: multiset<int>)
    requires Good(mem, free, m, ours) && m.lists != [] && |m.ents| <= (|m.lists| - 1) * NPM
    ensures Good(mem, free + [Top(m.lists)], m.(lists := Rest(m.lists)), ours)
  {
    hide Own, Held;
    OwnGiveList(|mem|, free, m, ours);
    var m' := m.(lists := Rest(m.lists));
    forall i | 0 <= i < |m.ents|
      ensures i / NPM < |m'.lists| && mem[m'.lists[i / NPM]][i % NPM] == m'.ents[i]
    {
      ListsAt(mem, m, i);
      assert m.lists[i / NPM] == m'.lists[i / NPM];
    }
    assert forall k :: 0 <= k < |m'.lists| ==> m'.lists[k] == m.lists[k];
  }

  /** The root page of a map that has become empty is freed. */
  lemma GiveRoot(mem: seq<Page>, free: seq<int>, m: Map, ours: multiset<int>)
    requires Good(mem, free, m, ours) && m.lists == [] && m.ents == [] && m.root != 0
    ensures Good(mem, free + [m.root], Map(0, [], []), ours)
  {
    assert free + [m.root] + Held(Map(0, [], [])) == free + Held(m);
    Moved(|mem|, free, m, free + [m.root], Map(0, [], []), ours);
  }
}
