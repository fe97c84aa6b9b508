/** ptbuild, ptfree and estabur of usr/sys/sys/ureg.c. */
module PageBuild {
  import opened PageTables
  import ImageIo
  import ResourceMap
  import Sets

  // ---- the ranges in order ----

  ghost predicate Sorted(rs: seq<Range>) { forall i, j :: 0 <= i <= j < |rs| ==> rs[i].va <= rs[j].va }

  ghost predicate Shuffled(rs: seq<Range>, rs0: seq<Range>) {
    |rs| == |rs0| && Ranges(rs) && forall r :: r in rs <==> r in rs0
  }

  function Swap(rs: seq<Range>, j: nat): (r: seq<Range>)
    requires 0 < j < |rs|
    ensures |r| == |rs|
  {
    rs[j := rs[j - 1]][j - 1 := rs[j]]
  }

  lemma SwapShuffles(rs: seq<Range>, rs0: seq<Range>, j: nat)
    requires Shuffled(rs, rs0) && 0 < j < |rs|
    ensures Shuffled(Swap(rs, j), rs0)
  {
    var r := Swap(rs, j);
    assert forall k {:trigger r[k]} :: 0 <= k < |r| ==> r[k] == rs[if k == j then j - 1 else if k == j - 1 then j else k];
    forall x
      ensures x in r <==> x in rs
    {
      if x in rs {
        var k :| 0 <= k < |rs| && rs[k] == x;
        assert r[if k == j then j - 1 else if k == j - 1 then j else k] == x;
      }
    }
  }

  /** In order, but for the element at j, which may have to go further down. */
  ghost predicate Inserting(rs: seq<Range>, i: int, j: int) {
    0 <= j <= i < |rs| && forall x, y :: 0 <= x < y <= i && y != j ==> rs[x].va <= rs[y].va
  }

  method SortRanges(rs0: seq<Range>) returns (rs: seq<Range>)
    requires Ranges(rs0)
    ensures Shuffled(rs, rs0) && Sorted(rs)
  {
    hide Ranges;
    rs := rs0;
    var i := 1;
    while i < |rs|
      invariant 1 <= i && (i <= |rs| || |rs| == 0) && Shuffled(rs, rs0)
      invariant forall x, y :: 0 <= x < y < i && y < |rs| ==> rs[x].va <= rs[y].va
    {
      var j := i;
      while j > 0 && rs[j - 1].va > rs[j].va
        invariant Shuffled(rs, rs0) && Inserting(rs, i, j)
        decreases j
      {
        SwapShuffles(rs, rs0, j);
        SwapInserts(rs, i, j);
        rs := Swap(rs, j);
        j := j - 1;
      }
      Inserted(rs, i, j);
      i := i + 1;
    }
  }

  lemma SwapInserts(rs: seq<Range>, i: int, j: int)
    requires Inserting(rs, i, j) && j > 0 && rs[j - 1].va > rs[j].va
    ensures Inserting(Swap(rs, j), i, j - 1)
  {
    var r := Swap(rs, j);
    assert forall k {:trigger r[k]} :: 0 <= k < |r| ==> r[k] == rs[if k == j then j - 1 else if k == j - 1 then j else k];
  }

  lemma Inserted(rs: seq<Range>, i: int, j: int)
    requires Inserting(rs, i, j) && (j == 0 || rs[j - 1].va <= rs[j].va)
    ensures forall x, y :: 0 <= x < y <= i ==> rs[x].va <= rs[y].va
  {
    forall x, y | 0 <= x < y <= i
      ensures rs[x].va <= rs[y].va
    {
      if y == j && x < j - 1 {
        assert rs[x].va <= rs[j - 1].va;
      }
    }
  }

  lemma InOrder(rs: seq<Range>, i: int, j: int)
    requires Ranges(rs) && Sorted(rs) && 0 <= i < j < |rs|
    ensures rs[i].va + rs[i].n <= rs[j].va
  {
  }

  // ---- the first pass ----

  function Gig(pg: int): int { pg / GB }

  function Block(pg: int): int { pg / NPTE }

  function NextBlock(pg: int): int { (pg / NPTE + 1) * NPTE }

  lemma Blocks(pg: int, p: int)
    requires 0 <= pg <= p
    ensures 0 <= Gig(pg) <= Gig(p) && 0 <= Block(pg) <= Block(p) && pg < NextBlock(pg)
    ensures p < NextBlock(pg) ==> Gig(p) == Gig(pg) && Block(p) == Block(pg)
  {
    assert Block(pg) / NPTE == Gig(pg) && Block(p) / NPTE == Gig(p);
  }

  ghost predicate Covers(gs: set<int>, bs: set<int>, pg: int) { Gig(pg) in gs && Block(pg) in bs }

  /** All pages of the first k ranges are under the tables counted. */
  ghost predicate Counted(rs: seq<Range>, k: int, gs: set<int>, bs: set<int>) {
    forall i, pg {:trigger In(rs[i], pg)} :: 0 <= i < k && i < |rs| && In(rs[i], pg) ==> Covers(gs, bs, pg)
  }

  ghost predicate Upto(gs: set<int>, bs: set<int>, a: int, b: int) {
    forall pg {:trigger Covers(gs, bs, pg)} :: a <= pg < b ==> Covers(gs, bs, pg)
  }

  /** Nothing is counted that no page is under. */
  ghost predicate Needed(rs: seq<Range>, gs: set<int>, bs: set<int>) {
    && (forall g :: g in gs ==> exists i, pg :: 0 <= i < |rs| && In(rs[i], pg) && Gig(pg) == g)
    && (forall b :: b in bs ==> exists i, pg :: 0 <= i < |rs| && In(rs[i], pg) && Block(pg) == b)
  }

  lemma NeededMore(rs: seq<Range>, gs: set<int>, bs: set<int>, k: int, pg: int)
    requires Needed(rs, gs, bs) && 0 <= k < |rs| && In(rs[k], pg)
    ensures Needed(rs, gs + {Gig(pg)}, bs + {Block(pg)})
  {
    hide Gig, Block;
  }

  /** x is the greatest element; -1 if there is none. */
  ghost predicate Last(s: set<int>, x: int) {
    (forall y :: y in s ==> 0 <= y <= x) && (if x == -1 then s == {} else x in s)
  }

  lemma LastMore(s: set<int>, x: int, y: int)
    requires Last(s, x) && x <= y && 0 <= y
    ensures Last(s + {y}, y) && |s + {y}| == |s| + if x == y then 0 else 1
  {
    if x == y {
      assert s + {y} == s;
    } else {
      assert y !in s;
    }
  }

  lemma UptoMore(gs: set<int>, bs: set<int>, a: int, pg: int)
    requires 0 <= a <= pg && Upto(gs, bs, a, pg)
    ensures Upto(gs + {Gig(pg)}, bs + {Block(pg)}, a, NextBlock(pg))
  {
    forall p | a <= p < NextBlock(pg)
      ensures Covers(gs + {Gig(pg)}, bs + {Block(pg)}, p)
    {
      if p < pg {
        assert Covers(gs, bs, p);
      } else {
        Blocks(pg, p);
      }
    }
  }

  /** The tables counted so far: one for each gigabyte of gs and each block of bs. */
  ghost predicate Count(rs: seq<Range>, n: int, gb: int, blk: int, gs: set<int>, bs: set<int>) {
    n == |gs| + |bs| && Last(gs, gb) && Last(bs, blk) && Needed(rs, gs, bs)
  }

  /** One range of the first pass. */
  method CountRange(rs: seq<Range>, k: int, n0: nat, gb0: int, blk0: int, ghost gs0: set<int>, ghost bs0: set<int>)
    returns (n: nat, gb: int, blk: int, ghost gs: set<int>, ghost bs: set<int>)
    requires 0 <= k < |rs| && Count(rs, n0, gb0, blk0, gs0, bs0)
    requires gb0 <= Gig(rs[k].va) && blk0 <= Block(rs[k].va)
    ensures Count(rs, n, gb, blk, gs, bs) && gs0 <= gs && bs0 <= bs && Upto(gs, bs, rs[k].va, rs[k].va + rs[k].n)
    ensures gb <= Gig(rs[k].va + rs[k].n) && blk <= Block(rs[k].va + rs[k].n)
  {
    hide Last, Needed, Gig, Block, NextBlock, Covers;
    n, gb, blk, gs, bs := n0, gb0, blk0, gs0, bs0;
    var end, pg := rs[k].va + rs[k].n, rs[k].va;
    Blocks(pg, end);
    while pg < end
      invariant rs[k].va <= pg && Count(rs, n, gb, blk, gs, bs) && gs0 <= gs && bs0 <= bs && Upto(gs, bs, rs[k].va, pg)
      invariant gb <= Gig(pg) && blk <= Block(pg) && gb <= Gig(end) && blk <= Block(end)
      decreases end - pg
    {
      NeededMore(rs, gs, bs, k, pg);
      Blocks(pg, end);
      UptoMore(gs, bs, rs[k].va, pg);
      LastMore(gs, gb, Gig(pg));
      LastMore(bs, blk, Block(pg));
      gs, bs := gs + {Gig(pg)}, bs + {Block(pg)};
      if Gig(pg) != gb {
        gb := Gig(pg);
        n := n + 1;
      }
      if Block(pg) != blk {
        blk := Block(pg);
        n := n + 1;
      }
      Blocks(pg, pg);
      Blocks(pg, NextBlock(pg));
      hide Upto;
      pg := NextBlock(pg);
    }
  }

  /** The gigabytes that some page is in. */
  ghost function Gigs(rs: seq<Range>): set<int> { set i, pg | 0 <= i < |rs| && 0 <= pg < TOP && In(rs[i], pg) :: Gig(pg) }

  /** The blocks that some page is in. */
  ghost function BlocksOf(rs: seq<Range>): set<int> { set i, pg | 0 <= i < |rs| && 0 <= pg < TOP && In(rs[i], pg) :: Block(pg) }

  lemma CountIs(rs: seq<Range>, gs: set<int>, bs: set<int>)
    requires Ranges(rs) && Counted(rs, |rs|, gs, bs) && Needed(rs, gs, bs)
    ensures gs == Gigs(rs) && bs == BlocksOf(rs)
  {
    hide Gig, Block, Ranges, Counted, Needed, Gigs, BlocksOf;
    forall g
      ensures g in gs <==> g in Gigs(rs)
    {
      if g in gs {
        var i, pg := GigPage(rs, gs, bs, g);
        PageIn(rs, gs, bs, i, pg);
      }
      if g in Gigs(rs) {
        var i, pg := PageOfGig(rs, g);
        PageIn(rs, gs, bs, i, pg);
      }
    }
    forall b
      ensures b in bs <==> b in BlocksOf(rs)
    {
      if b in bs {
        var i, pg := BlockPage(rs, gs, bs, b);
        PageIn(rs, gs, bs, i, pg);
      }
      if b in BlocksOf(rs) {
        var i, pg := PageOfBlock(rs, b);
        PageIn(rs, gs, bs, i, pg);
      }
    }
  }

  lemma PageIn(rs: seq<Range>, gs: set<int>, bs: set<int>, i: int, pg: int)
    requires Ranges(rs) && Counted(rs, |rs|, gs, bs) && 0 <= i < |rs| && In(rs[i], pg)
    ensures Gig(pg) in Gigs(rs) && Block(pg) in BlocksOf(rs) && Gig(pg) in gs && Block(pg) in bs
  {
    hide Gig, Block;
    assert RangeOk(rs[i]);
    assert Covers(gs, bs, pg);
  }

  lemma PageOfGig(rs: seq<Range>, g: int) returns (i: int, pg: int)
    requires g in Gigs(rs)
    ensures 0 <= i < |rs| && 0 <= pg < TOP && In(rs[i], pg) && Gig(pg) == g
  {
    hide Gig;
    i, pg :| 0 <= i < |rs| && 0 <= pg < TOP && In(rs[i], pg) && Gig(pg) == g;
  }

  lemma PageOfBlock(rs: seq<Range>, b: int) returns (i: int, pg: int)
    requires b in BlocksOf(rs)
    ensures 0 <= i < |rs| && 0 <= pg < TOP && In(rs[i], pg) && Block(pg) == b
  {
    hide Block;
    i, pg :| 0 <= i < |rs| && 0 <= pg < TOP && In(rs[i], pg) && Block(pg) == b;
  }

  /** The first pass: as many tables as there are gigabytes and blocks with a page in them. */
  method CountTables(rs: seq<Range>) returns (n: nat, ghost gs: set<int>, ghost bs: set<int>)
    requires Ranges(rs) && Sorted(rs)
    ensures n == |Gigs(rs)| + |BlocksOf(rs)|
    ensures gs == Gigs(rs) && bs == BlocksOf(rs) && Counted(rs, |rs|, gs, bs) && Needed(rs, gs, bs)
  {
    hide Last, Needed, Gig, Block, Covers, Gigs, BlocksOf;
    var gb, blk, k := -1, -1, 0;
    n, gs, bs := 0, {}, {};
    StartCount(rs);
    while k < |rs|
      invariant 0 <= k <= |rs| && Count(rs, n, gb, blk, gs, bs) && Counted(rs, k, gs, bs)
      invariant k < |rs| ==> gb <= Gig(rs[k].va) && blk <= Block(rs[k].va)
    {
      ghost var gs0, bs0 := gs, bs;
      n, gb, blk, gs, bs := CountRange(rs, k, n, gb, blk, gs, bs);
      CountedMore(rs, k, gs0, bs0, gs, bs);
      if k + 1 < |rs| {
        InOrder(rs, k, k + 1);
        Blocks(rs[k].va + rs[k].n, rs[k + 1].va);
      }
      k := k + 1;
    }
    CountIs(rs, gs, bs);
  }

  lemma StartCount(rs: seq<Range>)
    ensures Count(rs, 0, -1, -1, {}, {})
    ensures rs != [] ==> -1 <= Gig(rs[0].va) && -1 <= Block(rs[0].va)
  {
  }

  lemma CountedMore(rs: seq<Range>, k: int, gs0: set<int>, bs0: set<int>, gs: set<int>, bs: set<int>)
    requires 0 <= k < |rs| && Counted(rs, k, gs0, bs0) && gs0 <= gs && bs0 <= bs && Upto(gs, bs, rs[k].va, rs[k].va + rs[k].n)
    ensures Counted(rs, k + 1, gs, bs)
  {
    hide Gig, Block;
    forall i, pg | 0 <= i <= k && In(rs[i], pg)
      ensures Covers(gs, bs, pg)
    {
      if i < k {
        assert Covers(gs0, bs0, pg);
      }
    }
  }

  // ---- the second pass ----

  /** gb and blk were the last to get a table, k2 and k3. */
  ghost predicate Cursor(t: Taken, gs: set<int>, bs: set<int>, gb: int, blk: int, k2: int, k3: int) {
    && Last(t.l2.Keys, gb) && Last(t.l3.Keys, blk)
    && (gb >= 0 ==> gb in t.l2 && t.l2[gb] == k2)
    && (blk >= 0 ==> blk in t.l3 && t.l3[blk] == k3)
    && t.l2.Keys <= gs && t.l3.Keys <= bs && t.count == |t.l2.Keys| + |t.l3.Keys|
  }

  /** A table is left for a gigabyte or a block that was counted and has none. */
  lemma Room(t: Taken, gs: set<int>, bs: set<int>)
    requires t.l2.Keys <= gs && t.l3.Keys <= bs && t.count == |t.l2.Keys| + |t.l3.Keys|
    ensures t.count <= |gs| + |bs|
    ensures t.l2.Keys != gs || t.l3.Keys != bs ==> t.count < |gs| + |bs|
  {
    Sets.Smaller(t.l2.Keys, gs);
    Sets.Smaller(t.l3.Keys, bs);
  }

  lemma Cursor2(t: Taken, gs: set<int>, bs: set<int>, gb: int, blk: int, k2: int, k3: int, g: int)
    requires Cursor(t, gs, bs, gb, blk, k2, k3) && g in gs && g > gb && 0 <= g
    ensures Cursor(With2(t, g), gs, bs, g, blk, t.count, k3) && g !in t.l2 && t.count < |gs| + |bs|
  {
    LastMore(t.l2.Keys, gb, g);
    assert With2(t, g).l2.Keys == t.l2.Keys + {g};
    Room(t, gs, bs);
  }

  lemma Cursor3(t: Taken, gs: set<int>, bs: set<int>, gb: int, blk: int, k2: int, k3: int, b: int)
    requires Cursor(t, gs, bs, gb, blk, k2, k3) && b in bs && b > blk && 0 <= b
    ensures Cursor(With3(t, b), gs, bs, gb, b, k2, t.count) && b !in t.l3 && t.count < |gs| + |bs|
  {
    LastMore(t.l3.Keys, blk, b);
    assert With3(t, b).l3.Keys == t.l3.Keys + {b};
    Room(t, gs, bs);
  }

  lemma TableSizes(l1: seq<int>, ts: seq<Table>, a0: int, rs: seq<Range>, cur: int, t: Taken)
    requires Filled(l1, ts, a0, rs, cur, t)
    ensures |l1| == 4 && t.count <= |ts| && AllOk(rs)
    ensures forall g {:trigger t.l2[g]} :: g in t.l2 ==> 0 <= t.l2[g] < |ts| && |ts[t.l2[g]]| == NPTE
    ensures forall b {:trigger t.l3[b]} :: b in t.l3 ==> 0 <= t.l3[b] < |ts| && |ts[t.l3[b]]| == NPTE
  {
    hide Slot2, Slot3, Tab, Zero, Cover;
    TakenFacts(t);
  }

  /** The variables of the second pass: the next free page, and the last gigabyte and block with their tables. */
  datatype Pass = Pass(a: int, gb: int, blk: int, k2: int, k3: int)

  /** All pages below pg are done. */
  ghost predicate At(c: Pass, l1: seq<int>, ts: seq<Table>, a0: int, rs: seq<Range>, pg: int, t: Taken, gs: set<int>, bs: set<int>) {
    && Filled(l1, ts, a0, rs, pg, t) && Cursor(t, gs, bs, c.gb, c.blk, c.k2, c.k3) && c.a == a0 + t.count
    && c.gb <= Gig(pg) && c.blk <= Block(pg)
  }

  /** One page of the second pass, with the entry e. */
  method PutPage(l1: array<int>, tab: array<Table>, a0: int, rs: seq<Range>, pg: int, e: int, c: Pass,
                 ghost t0: Taken, ghost gs: set<int>, ghost bs: set<int>)
    returns (c': Pass, ghost t: Taken)
    requires tab.Length == |gs| + |bs| && 0 <= pg < TOP && Covers(gs, bs, pg) && l1.Length == 4
    requires At(c, l1[..], tab[..], a0, rs, pg, t0, gs, bs) && AllOk(rs) && e == Want(rs, pg)
    modifies l1, tab
    ensures At(c', l1[..], tab[..], a0, rs, pg + 1, t, gs, bs) && l1[3] == old(l1[3])
  {
    hide Filled, Cursor, Want, Tab, TakenOk, AllOk;
    var a, gb, blk, k2, k3 := c.a, c.gb, c.blk, c.k2, c.k3;
    t := t0;
    Halves(pg);
    Blocks(pg, pg + 1);
    TableSizes(l1[..], tab[..], a0, rs, pg, t);
    if Gig(pg) != gb {
      Cursor2(t, gs, bs, gb, blk, k2, k3, Gig(pg));
      TakeL2(l1[..], tab[..], a0, rs, pg, t, Gig(pg));
      ghost var was := l1[..];
      gb := Gig(pg);
      l1[gb] := Tab(a);
      assert l1[..] == was[gb := Tab(a0 + t.count)];
      k2 := a - a0;
      a := a + 1;
      t := With2(t, gb);
    }
    CursorAt(t, gs, bs, gb, blk, k2, k3);
    TableSizes(l1[..], tab[..], a0, rs, pg, t);
    if Block(pg) != blk {
      Cursor3(t, gs, bs, gb, blk, k2, k3, Block(pg));
      TakeL3(l1[..], tab[..], a0, rs, pg, t, Block(pg), k2);
      ghost var was := tab[..];
      blk := Block(pg);
      tab[k2] := tab[k2][blk % NPTE := Tab(a)];
      assert tab[..] == was[k2 := was[k2][blk % NPTE := Tab(a0 + t.count)]];
      k3 := a - a0;
      a := a + 1;
      t := With3(t, blk);
    }
    CursorAt(t, gs, bs, gb, blk, k2, k3);
    TableSizes(l1[..], tab[..], a0, rs, pg, t);
    SetPage(l1[..], tab[..], a0, rs, pg, t, k3);
    ghost var was := tab[..];
    tab[k3] := tab[k3][pg % NPTE := e];
    assert tab[..] == was[k3 := was[k3][pg % NPTE := Want(rs, pg)]];
    c' := Pass(a, gb, blk, k2, k3);
  }

  lemma CursorAt(t: Taken, gs: set<int>, bs: set<int>, gb: int, blk: int, k2: int, k3: int)
    requires Cursor(t, gs, bs, gb, blk, k2, k3)
    ensures gb >= 0 ==> gb in t.l2 && t.l2[gb] == k2
    ensures blk >= 0 ==> blk in t.l3 && t.l3[blk] == k3
  {
  }

  lemma Pass0(c: Pass, l1: seq<int>, ts: seq<Table>, a0: int, rs: seq<Range>, cur: int, cur': int, t: Taken, gs: set<int>, bs: set<int>)
    requires At(c, l1, ts, a0, rs, cur, t, gs, bs) && 0 <= cur <= cur' && AllOk(rs) && forall pg :: cur <= pg < cur' ==> Want(rs, pg) == 0
    ensures At(c, l1, ts, a0, rs, cur', t, gs, bs)
  {
    hide Filled, Cursor, Want, AllOk, Gig, Block;
    SkipPages(l1, ts, a0, rs, cur, cur', t);
    Blocks(cur, cur');
  }

  lemma RangeFacts(rs: seq<Range>, k: int, gs: set<int>, bs: set<int>, pg: int)
    requires Ranges(rs) && 0 <= k < |rs| && Counted(rs, |rs|, gs, bs) && In(rs[k], pg)
    ensures AllOk(rs) && RangeOk(rs[k]) && pg < TOP && Covers(gs, bs, pg) && Want(rs, pg) == Named(rs[k], pg)
  {
    assert RangeOk(rs[k]);
    hide Want, Covers;
    WantIn(rs, k, pg);
  }

  /** One range of the second pass. */
  method FillRange(l1: array<int>, tab: array<Table>, a0: int, rs: seq<Range>, k: int, c0: Pass,
                   ghost t0: Taken, ghost gs: set<int>, ghost bs: set<int>)
    returns (c: Pass, ghost t: Taken)
    requires tab.Length == |gs| + |bs| && Ranges(rs) && 0 <= k < |rs| && Counted(rs, |rs|, gs, bs) && l1.Length == 4
    requires At(c0, l1[..], tab[..], a0, rs, rs[k].va, t0, gs, bs)
    modifies l1, tab
    ensures At(c, l1[..], tab[..], a0, rs, rs[k].va + rs[k].n, t, gs, bs) && l1[3] == old(l1[3])
  {
    hide At, Want, Ranges, AllOk, Counted, Covers;
    c, t := c0, t0;
    var end, pg := rs[k].va + rs[k].n, rs[k].va;
    while pg < end
      invariant rs[k].va <= pg <= end && At(c, l1[..], tab[..], a0, rs, pg, t, gs, bs) && l1[3] == old(l1[3])
    {
      RangeFacts(rs, k, gs, bs, pg);
      var pa := Upage(rs[k], pg - rs[k].va);
      if pa != 0 {
        c, t := PutPage(l1, tab, a0, rs, pg, Leaf(pa, rs[k].ap), c, t, gs, bs);
      } else {
        Pass0(c, l1[..], tab[..], a0, rs, pg, pg + 1, t, gs, bs);
      }
      pg := pg + 1;
    }
  }

  /** Between two ranges in order there is no page. */
  lemma Gap(rs: seq<Range>, k: int, lo: int, hi: int)
    requires Ranges(rs) && Sorted(rs) && 0 <= k <= |rs|
    requires k > 0 ==> rs[k - 1].va + rs[k - 1].n <= lo
    requires k < |rs| ==> hi <= rs[k].va
    ensures forall pg :: lo <= pg < hi ==> Want(rs, pg) == 0
  {
    hide AllOk;
    forall pg | lo <= pg < hi
      ensures Want(rs, pg) == 0
    {
      forall i | 0 <= i < |rs|
        ensures !In(rs[i], pg)
      {
        if i < k - 1 {
          InOrder(rs, i, k - 1);
        }
      }
      WantOut(rs, pg);
    }
  }

  /** The second pass. */
  method FillTables(l1: array<int>, tab: array<Table>, a0: int, rs: seq<Range>, ghost gs: set<int>, ghost bs: set<int>)
    returns (a: int, ghost t: Taken)
    requires tab.Length == |gs| + |bs| && Ranges(rs) && Sorted(rs) && Counted(rs, |rs|, gs, bs)
    requires l1.Length == 4 && l1[0] == l1[1] == l1[2] == 0 && forall k :: 0 <= k < tab.Length ==> Zero(tab[k])
    modifies l1, tab
    ensures Filled(l1[..], tab[..], a0, rs, TOP, t) && l1[3] == old(l1[3])
    ensures t.l2.Keys <= gs && t.l3.Keys <= bs && a - a0 == t.count == |t.l2.Keys| + |t.l3.Keys| <= tab.Length
  {
    hide At, Want, Ranges, AllOk, Counted, Sorted, Zero, Filled;
    var c, k := Pass(a0, -1, -1, 0, 0), 0;
    t := Taken(map[], map[], 0);
    StartFill(l1[..], tab[..], a0, rs, gs, bs);
    ghost var cur := 0;
    while k < |rs|
      invariant 0 <= k <= |rs| && At(c, l1[..], tab[..], a0, rs, cur, t, gs, bs) && l1[3] == old(l1[3])
      invariant 0 <= cur && cur == if k == 0 then 0 else rs[k - 1].va + rs[k - 1].n
    {
      GapBefore(rs, k, cur);
      Pass0(c, l1[..], tab[..], a0, rs, cur, rs[k].va, t, gs, bs);
      c, t := FillRange(l1, tab, a0, rs, k, c, t, gs, bs);
      cur := rs[k].va + rs[k].n;
      k := k + 1;
    }
    GapAfter(rs, cur);
    Pass0(c, l1[..], tab[..], a0, rs, cur, TOP, t, gs, bs);
    AtEnd(c, l1[..], tab[..], a0, rs, TOP, t, gs, bs);
    a := c.a;
  }

  lemma GapBefore(rs: seq<Range>, k: int, cur: int)
    requires Ranges(rs) && Sorted(rs) && 0 <= k < |rs| && cur == if k == 0 then 0 else rs[k - 1].va + rs[k - 1].n
    ensures AllOk(rs) && cur <= rs[k].va && forall pg :: cur <= pg < rs[k].va ==> Want(rs, pg) == 0
  {
    hide Want;
    Gap(rs, k, cur, rs[k].va);
    if k > 0 {
      InOrder(rs, k - 1, k);
    }
  }

  lemma GapAfter(rs: seq<Range>, cur: int)
    requires Ranges(rs) && Sorted(rs) && cur == if rs == [] then 0 else rs[|rs| - 1].va + rs[|rs| - 1].n
    ensures AllOk(rs) && cur <= TOP && forall pg :: cur <= pg < TOP ==> Want(rs, pg) == 0
  {
    hide Want;
    Gap(rs, |rs|, cur, TOP);
    if rs != [] {
      WithinTop(rs, |rs| - 1);
    }
  }

  lemma AtEnd(c: Pass, l1: seq<int>, ts: seq<Table>, a0: int, rs: seq<Range>, pg: int, t: Taken, gs: set<int>, bs: set<int>)
    requires At(c, l1, ts, a0, rs, pg, t, gs, bs)
    ensures Filled(l1, ts, a0, rs, pg, t) && t.l2.Keys <= gs && t.l3.Keys <= bs
    ensures c.a - a0 == t.count == |t.l2.Keys| + |t.l3.Keys| <= |gs| + |bs|
  {
    hide Filled;
    Room(t, gs, bs);
  }

  lemma WithinTop(rs: seq<Range>, k: int)
    requires Ranges(rs) && 0 <= k < |rs|
    ensures rs[k].va + rs[k].n <= TOP
  {
    assert RangeOk(rs[k]);
  }

  lemma StartFill(l1: seq<int>, ts: seq<Table>, a0: int, rs: seq<Range>, gs: set<int>, bs: set<int>)
    requires Ranges(rs) && |l1| == 4 && l1[0] == l1[1] == l1[2] == 0 && forall k :: 0 <= k < |ts| ==> Zero(ts[k])
    ensures At(Pass(a0, -1, -1, 0, 0), l1, ts, a0, rs, 0, Taken(map[], map[], 0), gs, bs)
  {
    hide Zero, Want, AllOk;
    var t := Taken(map[], map[], 0);
    assert t.l2.Keys == {} && t.l3.Keys == {};
    assert forall g :: 0 <= g < 3 ==> l1[g] == 0;
  }

  // ---- the address space ----

  /**
   * The sizes in the user block, with the page maps of the process and of its
   * text: the number of a map, 0 if there is none, and the pages it lists.
   */
  datatype Layout = Layout(ts: nat, nt: nat, ds: nat, nd: nat, ns: nat, xrw: int,
                           shared: bool, xmap: int, xpages: seq<int>, pmap: int, pages: seq<int>, sigpage: nat)

  function Text(l: Layout): Range { Range(l.ts, l.nt, l.xmap != 0, l.xpages, 0, |l.xpages|, l.xrw) }

  function Data(l: Layout): Range { Range(l.ds, l.nd, l.pmap != 0, l.pages, 0, |l.pages|, RW) }

  function Stack(l: Layout): Range
    requires l.ns <= TOP
  {
    Range(TOP - l.ns, l.ns, l.pmap != 0, l.pages, l.nd, |l.pages|, RW)
  }

  function Trampoline(l: Layout): Range { Range(TRAMP, 1, false, [], l.sigpage, 1, RO) }

  /** The ranges that ptbuild makes of the sizes. */
  function RangesOf(l: Layout): seq<Range>
    requires l.ns <= TOP
  {
    (if l.nt != 0 && l.shared then [Text(l)] else []) +
    (if l.nd != 0 then [Data(l)] else []) +
    (if l.ns != 0 then [Stack(l)] else []) +
    [Trampoline(l)]
  }

  const USIZE := 1

  /** The tests of estabur. */
  predicate Accepted(l: Layout, maxmem: int) {
    && l.nt <= TOP && l.ts <= TOP - l.nt && l.nd <= TOP && l.ds <= TOP - l.nd && l.ns <= TOP
    && Apart(l.ts, l.nt, l.ds, l.nd) && Apart(l.ts, l.nt, TOP - l.ns, l.ns)
    && Apart(l.ds, l.nd, TOP - l.ns, l.ns) && Apart(l.ts, l.nt, TRAMP, 1)
    && Apart(l.ds, l.nd, TRAMP, 1) && Apart(TOP - l.ns, l.ns, TRAMP, 1)
    && USIZE + ImageIo.Mapneed(0, l.nd + l.ns) + ImageIo.Mapneed(0, l.nt) <= maxmem
  }

  lemma AcceptedRanges(l: Layout, maxmem: int)
    requires l.ns <= TOP && Accepted(l, maxmem) && (l.xrw == RO || l.xrw == RW)
    ensures Ranges(RangesOf(l))
  {
  }

  /** What the address space is to be: each page with the page and the access that its segment names, and nothing else. */
  function Meant(l: Layout, pg: int): int
    requires l.ns <= TOP
  {
    if l.shared && l.ts <= pg < l.ts + l.nt then PageEntry(l.xpages, pg - l.ts, l.xrw)
    else if l.ds <= pg < l.ds + l.nd then PageEntry(l.pages, pg - l.ds, RW)
    else if TOP - l.ns <= pg < TOP then PageEntry(l.pages, l.nd + pg - (TOP - l.ns), RW)
    else if pg == TRAMP && l.sigpage != 0 then Leaf(l.sigpage, RO)
    else 0
  }

  function PageEntry(pages: seq<int>, i: int, ap: int): int {
    if 0 <= i < |pages| && pages[i] != 0 then Leaf(pages[i], ap) else 0
  }

  /** Entry i of a page map, as the processor is to see it; 0 is no page. */
  function ListedPage(pages: seq<int>, i: int, access: Access): Found {
    if 0 <= i < |pages| && pages[i] != 0 then Maps(pages[i], access) else Nothing
  }

  /**
   * Where the processor is to find each page: text, data and stack where the
   * page maps have them, the stack after the data and up to the top of user
   * space, the trampoline, and nothing elsewhere.
   */
  function Placed(l: Layout, pg: int): Found {
    if l.shared && l.ts <= pg < l.ts + l.nt then ListedPage(l.xpages, pg - l.ts, if l.xrw == 0xC0 then ReadOnly else ReadWrite)
    else if l.ds <= pg < l.ds + l.nd then ListedPage(l.pages, pg - l.ds, ReadWrite)
    else if 0xC0000 - l.ns <= pg < 0xC0000 then ListedPage(l.pages, l.nd + pg - (0xC0000 - l.ns), ReadWrite)
    else if pg == 1 && l.sigpage != 0 then Maps(l.sigpage, ReadOnly)
    else Nothing
  }

  /** What is meant is what the processor is to find. */
  lemma MeantDecoded(l: Layout, pg: int)
    requires l.ns <= TOP && (l.xrw == RO || l.xrw == RW)
    ensures Decoded(Meant(l, pg)) == Placed(l, pg)
  {
    hide Decoded, Leaf;
    ZeroDecoded();
    forall p, ap | ap == RO || ap == RW
      ensures Decoded(Leaf(p, ap)) == Maps(p, AccessOf(ap))
    {
      LeafDecoded(p, ap);
    }
  }

  /** An entry of a leaf, or none. */
  ghost predicate IsLeaf(e: int) { e == 0 || exists p, ap :: (ap == RO || ap == RW) && e == Leaf(p, ap) }

  lemma MeantLeaf(l: Layout, pg: int)
    requires l.ns <= TOP && (l.xrw == RO || l.xrw == RW)
    ensures IsLeaf(Meant(l, pg))
  {
    hide Leaf;
  }

  lemma {:induction false} WantLeaf(rs: seq<Range>, pg: int)
    requires AllOk(rs)
    ensures IsLeaf(Want(rs, pg))
  {
    hide Leaf;
    if rs != [] {
      assert RangeOk(rs[0]);
      if !In(rs[0], pg) {
        WantLeaf(rs[1..], pg);
      }
    }
  }

  lemma LeafSame(e: int, e': int)
    requires IsLeaf(e) && IsLeaf(e') && Decoded(e) == Decoded(e')
    ensures e == e'
  {
    hide Decoded, Leaf;
    ZeroDecoded();
    if e != 0 {
      var p, ap :| (ap == RO || ap == RW) && e == Leaf(p, ap);
      LeafDecoded(p, ap);
      if e' != 0 {
        var q, aq :| (aq == RO || aq == RW) && e' == Leaf(q, aq);
        LeafInjective(p, ap, q, aq);
      }
    } else if e' != 0 {
      var q, aq :| (aq == RO || aq == RW) && e' == Leaf(q, aq);
      LeafDecoded(q, aq);
    }
  }

  /** The processor finds each page where it is to be exactly when there are maps. */
  lemma PlacedIff(l: Layout, maxmem: int)
    requires l.ns <= TOP && Accepted(l, maxmem) && (l.xrw == RO || l.xrw == RW) && MapsOk(l)
    ensures Ranges(RangesOf(l))
    ensures (forall pg :: 0 <= pg < TOP ==> Decoded(Want(RangesOf(l), pg)) == Placed(l, pg)) <==> HasMaps(l)
  {
    AcceptedRanges(l, maxmem);
    MeantIff(l, maxmem);
    RangesAll(RangesOf(l));
    hide Want, Ranges, RangesOf, Accepted, Meant, Decoded, Placed, HasMaps, AllOk;
    forall pg
      ensures Decoded(Want(RangesOf(l), pg)) == Placed(l, pg) <==> Want(RangesOf(l), pg) == Meant(l, pg)
    {
      MeantDecoded(l, pg);
      MeantLeaf(l, pg);
      WantLeaf(RangesOf(l), pg);
      if Decoded(Want(RangesOf(l), pg)) == Placed(l, pg) {
        LeafSame(Want(RangesOf(l), pg), Meant(l, pg));
      }
    }
  }

  /** Page pg is one of n from a on. */
  predicate PageOf(a: int, n: int, pg: int) { a <= pg < a + n }

  /** No page is in two of text, data and stack, or in one of them and the trampoline's. */
  ghost predicate OneSegment(l: Layout, pg: int) {
    var text, data, stack := PageOf(l.ts, l.nt, pg), PageOf(l.ds, l.nd, pg), PageOf(0xC0000 - l.ns, l.ns, pg);
    !(text && data) && !(text && stack) && !(data && stack) && !(pg == 1 && (text || data || stack))
  }

  /**
   * estabur takes sizes exactly when text, data and stack end in user space,
   * no page is in two of them or is the trampoline's, and core has the pages
   * of the image, those of the text and those of their maps.
   */
  lemma AcceptedIff(l: Layout, maxmem: int)
    ensures Accepted(l, maxmem) <==>
              && l.ts + l.nt <= 0xC0000 && l.ds + l.nd <= 0xC0000 && l.ns <= 0xC0000
              && (forall pg :: OneSegment(l, pg))
              && 1 + MapPages(l.nd + l.ns) + MapPages(l.nt) <= maxmem
  {
    MapPagesIs(l.nd + l.ns);
    MapPagesIs(l.nt);
    hide ImageIo.Mapneed, MapPages;
    if l.ts + l.nt <= TOP && l.ds + l.nd <= TOP && l.ns <= TOP {
      SegmentsIff(l);
    }
  }

  lemma SegmentsIff(l: Layout)
    requires l.ns <= TOP
    ensures (forall pg :: OneSegment(l, pg)) <==>
              && Apart(l.ts, l.nt, l.ds, l.nd) && Apart(l.ts, l.nt, TOP - l.ns, l.ns)
              && Apart(l.ds, l.nd, TOP - l.ns, l.ns) && Apart(l.ts, l.nt, TRAMP, 1)
              && Apart(l.ds, l.nd, TRAMP, 1) && Apart(TOP - l.ns, l.ns, TRAMP, 1)
  {
    var a, b, c, d, e, f := Common(l.ts, l.nt, l.ds, l.nd), Common(l.ts, l.nt, TOP - l.ns, l.ns),
      Common(l.ds, l.nd, TOP - l.ns, l.ns), Common(l.ts, l.nt, TRAMP, 1), Common(l.ds, l.nd, TRAMP, 1), Common(TOP - l.ns, l.ns, TRAMP, 1);
    if forall pg :: OneSegment(l, pg) {
      assert OneSegment(l, a) && OneSegment(l, b) && OneSegment(l, c) && OneSegment(l, d) && OneSegment(l, e) && OneSegment(l, f);
    }
  }

  /** A page of both, if they are not apart. */
  function Common(a: nat, n: nat, b: nat, m: nat): (pg: int)
    ensures !Apart(a, n, b, m) ==> PageOf(a, n, pg) && PageOf(b, m, pg)
    ensures Apart(a, n, b, m) ==> forall p :: !PageOf(a, n, p) || !PageOf(b, m, p)
  {
    if a < b then b else a
  }

  /** The pages of an image of n pages, with a page for each 1024 that lists them and one for those. */
  function MapPages(n: nat): int { if n == 0 then 0 else n + (n + 1023) / 1024 + 1 }

  lemma MapPagesIs(n: nat)
    ensures ImageIo.Mapneed(0, n) == MapPages(n) && forall m :: 0 <= m <= n ==> ImageIo.Mapneed(m, n) == MapPages(n) - MapPages(m)
  {
  }

  /** The map of no entries is 0. */
  predicate MapsOk(l: Layout) { (l.xmap == 0 ==> l.xpages == []) && (l.pmap == 0 ==> l.pages == []) }

  /** The ranges of more than one page have a map. */
  predicate HasMaps(l: Layout) { (l.shared && l.nt > 1 ==> l.xmap != 0) && (l.nd + l.ns > 1 ==> l.pmap != 0) }

  /** The tables are as meant exactly when there are maps; without one, a page number is taken for the page. */
  lemma MeantIff(l: Layout, maxmem: int)
    requires l.ns <= TOP && Accepted(l, maxmem) && (l.xrw == RO || l.xrw == RW) && MapsOk(l)
    ensures Ranges(RangesOf(l))
    ensures (forall pg :: 0 <= pg < TOP ==> Want(RangesOf(l), pg) == Meant(l, pg)) <==> HasMaps(l)
  {
    AcceptedRanges(l, maxmem);
    hide Want, Ranges, RangesOf, ImageIo.Mapneed;
    if HasMaps(l) {
      forall pg | 0 <= pg < TOP
        ensures Want(RangesOf(l), pg) == Meant(l, pg)
      {
        WantMeant(l, maxmem, pg);
      }
    } else {
      var pg := NotMeant(l, maxmem);
      assert 0 <= pg < TOP && Want(RangesOf(l), pg) != Meant(l, pg);
    }
  }

  lemma NotMeant(l: Layout, maxmem: int) returns (pg: int)
    requires l.ns <= TOP && Accepted(l, maxmem) && (l.xrw == RO || l.xrw == RW) && MapsOk(l) && !HasMaps(l)
    ensures 0 <= pg < TOP && Ranges(RangesOf(l)) && Want(RangesOf(l), pg) != Meant(l, pg)
  {
    AcceptedRanges(l, maxmem);
    Members(l);
    hide Want, Ranges, RangesOf, ImageIo.Mapneed, Leaf;
    var r;
    if l.shared && l.nt > 1 && l.xmap == 0 {
      pg, r := l.ts + 1, Text(l);
    } else if l.nd > 1 {
      pg, r := l.ds + 1, Data(l);
    } else {
      pg, r := TOP - l.ns + (if l.nd == 0 then 1 else 0), Stack(l);
    }
    WantFrom(RangesOf(l), r, pg);
    LeafThere(1, r.ap);
  }

  lemma WantMeant(l: Layout, maxmem: int, pg: int)
    requires l.ns <= TOP && Accepted(l, maxmem) && (l.xrw == RO || l.xrw == RW) && MapsOk(l) && HasMaps(l) && 0 <= pg < TOP
    ensures Ranges(RangesOf(l)) && Want(RangesOf(l), pg) == Meant(l, pg)
  {
    hide Want, Leaf, Ranges, AllOk, RangesOf, ImageIo.Mapneed, Accepted, Named, PageEntry, RangeOk, Text, Data, Stack, Trampoline, In, Meant;
    AcceptedRanges(l, maxmem);
    RangesAll(RangesOf(l));
    Members(l);
    MeantIs(l, pg);
    if l.nt != 0 && l.shared && In(Text(l), pg) {
      WantFrom(RangesOf(l), Text(l), pg);
    } else if l.nd != 0 && In(Data(l), pg) {
      WantFrom(RangesOf(l), Data(l), pg);
    } else if l.ns != 0 && In(Stack(l), pg) {
      WantFrom(RangesOf(l), Stack(l), pg);
    } else if In(Trampoline(l), pg) {
      WantFrom(RangesOf(l), Trampoline(l), pg);
    } else {
      WantNone(l, pg);
    }
  }

  lemma RangesAll(rs: seq<Range>)
    requires Ranges(rs)
    ensures AllOk(rs)
  {
  }

  lemma WantNone(l: Layout, pg: int)
    requires l.ns <= TOP && Ranges(RangesOf(l)) && AllOk(RangesOf(l)) && !In(Trampoline(l), pg)
    requires !(l.nt != 0 && l.shared && In(Text(l), pg)) && !(l.nd != 0 && In(Data(l), pg)) && !(l.ns != 0 && In(Stack(l), pg))
    ensures Want(RangesOf(l), pg) == 0
  {
    hide Want, Ranges, AllOk, RangesOf, Text, Data, Stack, Trampoline, In;
    forall i | 0 <= i < |RangesOf(l)|
      ensures !In(RangesOf(l)[i], pg)
    {
      OneOf(l, i);
    }
    WantOut(RangesOf(l), pg);
  }

  lemma MeantIs(l: Layout, pg: int)
    requires l.ns <= TOP && 0 <= pg < TOP && MapsOk(l) && HasMaps(l)
    ensures l.nt != 0 && l.shared && In(Text(l), pg) && RangeOk(Text(l)) ==> Meant(l, pg) == Named(Text(l), pg)
    ensures !(l.nt != 0 && l.shared && In(Text(l), pg)) && l.nd != 0 && In(Data(l), pg) && RangeOk(Data(l)) ==>
              Meant(l, pg) == Named(Data(l), pg)
    ensures !(l.nt != 0 && l.shared && In(Text(l), pg)) && !(l.nd != 0 && In(Data(l), pg)) ==>
              l.ns != 0 && In(Stack(l), pg) && RangeOk(Stack(l)) ==> Meant(l, pg) == Named(Stack(l), pg)
    ensures !(l.nt != 0 && l.shared && In(Text(l), pg)) && !(l.nd != 0 && In(Data(l), pg)) && !(l.ns != 0 && In(Stack(l), pg)) ==>
              (if In(Trampoline(l), pg) then RangeOk(Trampoline(l)) && Meant(l, pg) == Named(Trampoline(l), pg) else Meant(l, pg) == 0)
  {
    hide Leaf;
  }

  lemma WantFrom(rs: seq<Range>, r: Range, pg: int)
    requires Ranges(rs) && r in rs && In(r, pg)
    ensures RangeOk(r) && Want(rs, pg) == Named(r, pg)
  {
    hide Want;
    var i :| 0 <= i < |rs| && rs[i] == r;
    WantIn(rs, i, pg);
  }

  lemma Members(l: Layout)
    requires l.ns <= TOP
    ensures l.nt != 0 && l.shared ==> Text(l) in RangesOf(l)
    ensures l.nd != 0 ==> Data(l) in RangesOf(l)
    ensures l.ns != 0 ==> Stack(l) in RangesOf(l)
    ensures Trampoline(l) in RangesOf(l)
  {
    hide Text, Data, Stack, Trampoline;
  }

  lemma OneOf(l: Layout, i: int)
    requires l.ns <= TOP && 0 <= i < |RangesOf(l)|
    ensures var r := RangesOf(l)[i];
            (l.nt != 0 && l.shared && r == Text(l)) || (l.nd != 0 && r == Data(l)) || (l.ns != 0 && r == Stack(l)) || r == Trampoline(l)
  {
    hide Text, Data, Stack, Trampoline;
  }

  // ---- the program ----

  /** A table without entries. */
  function Cleared(): (t: Table)
    ensures Zero(t)
  {
    seq(NPTE, _ => 0)
  }

  /** The maps hold all the pages of the ranges. */
  ghost predicate Present(rs: seq<Range>) {
    forall i, pg {:trigger In(rs[i], pg)} :: 0 <= i < |rs| && In(rs[i], pg) ==> RangeOk(rs[i]) && Upage(rs[i], pg - rs[i].va) != 0
  }

  lemma PresentSame(rs: seq<Range>, rs0: seq<Range>)
    requires Shuffled(rs, rs0) && Present(rs0)
    ensures Present(rs)
  {
    forall i, pg | 0 <= i < |rs| && In(rs[i], pg)
      ensures RangeOk(rs[i]) && Upage(rs[i], pg - rs[i].va) != 0
    {
      assert rs[i] in rs0;
      var j :| 0 <= j < |rs0| && rs0[j] == rs[i];
      assert In(rs0[j], pg);
    }
  }

  /** With all pages present the second pass takes the tables that the first counted. */
  lemma AllUsed(l1: seq<int>, ts: seq<Table>, a0: int, rs: seq<Range>, t: Taken, gs: set<int>, bs: set<int>)
    requires Filled(l1, ts, a0, rs, TOP, t) && Present(rs) && Needed(rs, gs, bs)
    requires t.l2.Keys <= gs && t.l3.Keys <= bs && t.count == |t.l2.Keys| + |t.l3.Keys|
    ensures t.count == |gs| + |bs|
  {
    hide Level1, Level2, Level3, Rest, Needed, Present, Ranges, TakenOk, Cover;
    forall g | g in gs
      ensures g in t.l2.Keys
    {
      var i, pg := GigPage(rs, gs, bs, g);
      InTables(rs, t, i, pg);
    }
    forall b | b in bs
      ensures b in t.l3.Keys
    {
      var i, pg := BlockPage(rs, gs, bs, b);
      InTables(rs, t, i, pg);
    }
    assert t.l2.Keys == gs && t.l3.Keys == bs;
  }

  lemma GigPage(rs: seq<Range>, gs: set<int>, bs: set<int>, g: int) returns (i: int, pg: int)
    requires Needed(rs, gs, bs) && g in gs
    ensures 0 <= i < |rs| && In(rs[i], pg) && Gig(pg) == g
  {
    i, pg :| 0 <= i < |rs| && In(rs[i], pg) && Gig(pg) == g;
  }

  lemma BlockPage(rs: seq<Range>, gs: set<int>, bs: set<int>, b: int) returns (i: int, pg: int)
    requires Needed(rs, gs, bs) && b in bs
    ensures 0 <= i < |rs| && In(rs[i], pg) && Block(pg) == b
  {
    i, pg :| 0 <= i < |rs| && In(rs[i], pg) && Block(pg) == b;
  }

  lemma InTables(rs: seq<Range>, t: Taken, i: int, pg: int)
    requires Ranges(rs) && Present(rs) && TakenOk(t) && Cover(rs, TOP, t) && 0 <= i < |rs| && In(rs[i], pg)
    ensures Block(pg) in t.l3 && Gig(pg) in t.l2
  {
    TakenFacts(t);
    hide Want, TakenOk;
    assert RangeOk(rs[i]);
    WantIn(rs, i, pg);
    LeafThere(Upage(rs[i], pg - rs[i].va), rs[i].ap);
    Halves(pg);
  }

  lemma LeafThere(pa: int, ap: int)
    requires ap == RO || ap == RW
    ensures Leaf(pa, ap) != 0
  {
    if pa >= 0 {
      assert pa * 4096 >= 0;
    } else {
      assert pa * 4096 <= -4096;
    }
  }

  /** The map of the pages that are kept for page tables, and the pieces of it in use. */
  class TableMap {
    const ptmap: array<ResourceMap.Run>
    ghost const lo: int
    ghost const hi: int
    ghost var l: seq<ResourceMap.Run>
    ghost var ps: seq<ResourceMap.Run>

    /** With at most this many pieces in use the map has room for all that malloc and mfree can make of it. */
    ghost predicate Valid()
      reads this, ptmap
    {
      && ResourceMap.Holds(ptmap[..], l) && ResourceMap.Canonical(l) && ResourceMap.InUse(l, ps, lo, hi)
      && 1 <= lo && |ps| < ptmap.Length
    }
  }

  /** How many tables a layout takes. */
  ghost function Tables(l: Layout): int
    requires l.ns <= TOP
  {
    |Gigs(RangesOf(l))| + |BlocksOf(RangesOf(l))|
  }

  lemma TablesSame(rs: seq<Range>, rs0: seq<Range>)
    requires forall r :: r in rs <==> r in rs0
    ensures Gigs(rs) == Gigs(rs0) && BlocksOf(rs) == BlocksOf(rs0)
  {
    TablesWithin(rs, rs0);
    TablesWithin(rs0, rs);
  }

  lemma TablesWithin(rs: seq<Range>, rs0: seq<Range>)
    requires forall r :: r in rs ==> r in rs0
    ensures Gigs(rs) <= Gigs(rs0) && BlocksOf(rs) <= BlocksOf(rs0)
  {
    hide Gig, Block;
    forall g | g in Gigs(rs)
      ensures g in Gigs(rs0)
    {
      var i, pg := PageOfGig(rs, g);
      assert rs[i] in rs0;
      var j :| 0 <= j < |rs0| && rs0[j] == rs[i];
      assert In(rs0[j], pg);
    }
    forall b | b in BlocksOf(rs)
      ensures b in BlocksOf(rs0)
    {
      var i, pg := PageOfBlock(rs, b);
      assert rs[i] in rs0;
      var j :| 0 <= j < |rs0| && rs0[j] == rs[i];
      assert In(rs0[j], pg);
    }
  }

  /** What the second pass has filled in is what the ranges name, in whatever order they were. */
  lemma Walks(l1: seq<int>, ts: seq<Table>, a0: int, rs: seq<Range>, rs0: seq<Range>, t: Taken)
    requires Filled(l1, ts, a0, rs, TOP, t) && Shuffled(rs, rs0) && Ranges(rs0) && 0 < a0
    ensures AllOk(rs0) && forall pg :: 0 <= pg < TOP ==>
              Walk(l1, ts, a0, pg) == Want(rs0, pg) && Translate(l1, ts, a0, pg) == Decoded(Want(rs0, pg))
  {
    RangesAre(rs, rs0);
    hide Want, Filled, Ranges, AllOk, Walk;
    forall pg | 0 <= pg < TOP
      ensures Walk(l1, ts, a0, pg) == Want(rs0, pg) && Translate(l1, ts, a0, pg) == Decoded(Want(rs0, pg))
    {
      WalkFilled(l1, ts, a0, rs, TOP, t, pg);
      WantSame(rs, rs0, pg);
    }
  }

  lemma AllTaken(l1: seq<int>, ts: seq<Table>, a0: int, rs: seq<Range>, rs0: seq<Range>, t: Taken, gs: set<int>, bs: set<int>)
    requires Filled(l1, ts, a0, rs, TOP, t) && Needed(rs, gs, bs) && Shuffled(rs, rs0)
    requires t.l2.Keys <= gs && t.l3.Keys <= bs && t.count == |t.l2.Keys| + |t.l3.Keys|
    ensures Present(rs0) ==> t.count == |gs| + |bs|
  {
    hide Filled, Needed, Present, Shuffled;
    if Present(rs0) {
      PresentSame(rs, rs0);
      AllUsed(l1, ts, a0, rs, t, gs, bs);
    }
  }

  /** The second pass over the tables taken, for the ranges rs0, which rs has in order. */
  method Fill(l1: array<int>, tab: array<Table>, a0: int, rs: seq<Range>, ghost rs0: seq<Range>, ghost gs: set<int>, ghost bs: set<int>)
    returns (ghost used: nat)
    requires l1.Length == 4 && l1[0] == l1[1] == l1[2] == 0 && 1 <= a0
    requires Shuffled(rs, rs0) && Ranges(rs0) && Sorted(rs) && Counted(rs, |rs|, gs, bs) && Needed(rs, gs, bs)
    requires tab.Length == |gs| + |bs| && forall k :: 0 <= k < tab.Length ==> Zero(tab[k])
    modifies l1, tab
    ensures l1[3] == old(l1[3]) && used <= tab.Length && AllOk(rs0) && (Present(rs0) ==> used == tab.Length)
    ensures forall pg :: 0 <= pg < TOP ==>
              Walk(l1[..], tab[..], a0, pg) == Want(rs0, pg) && Translate(l1[..], tab[..], a0, pg) == Decoded(Want(rs0, pg))
  {
    RangesAre(rs, rs0);
    hide Ranges, Want, Filled, Sorted, Counted, Needed, Present, Zero, Walk, Shuffled, AllOk, Translate, Decoded;
    ghost var t;
    var end;
    end, t := FillTables(l1, tab, a0, rs, gs, bs);
    used := t.count;
    Walks(l1[..], tab[..], a0, rs, rs0, t);
    AllTaken(l1[..], tab[..], a0, rs, rs0, t, gs, bs);
  }

  class Process {
    const tm: TableMap
    const l1: array<int>           // the first level, in the kernel's table
    var layout: Layout             // the sizes in the user block, and the page maps
    var nptab: nat                 // the number of tables; 0 if there are none
    var ptab: int                  // the page of the first
    var tab: array<Table>          // the tables

    /** The sizes are those of an address space, and the tables are a piece of the map. */
    ghost predicate Valid()
      reads this, tm, tm.ptmap
    {
      && l1.Length == 4 && layout.ns <= TOP && (layout.xrw == RO || layout.xrw == RW)
      && tm.Valid() && (nptab != 0 ==> ResourceMap.Run(nptab, ptab) in tm.ps)
    }

    constructor (l: Layout, tm: TableMap)
      requires l.ns <= TOP && (l.xrw == RO || l.xrw == RW) && tm.Valid()
      ensures Valid() && layout == l && nptab == 0 && this.tm == tm && fresh(l1) && fresh(tab)
    {
      this.tm := tm;
      l1 := new int[4](_ => 0);
      tab := new Table[0];
      layout, nptab, ptab := l, 0, 0;
    }

    /** ptfree: the tables go back to the map, and nothing is mapped. */
    method Ptfree()
      requires Valid()
      modifies l1, this`nptab, tm`l, tm`ps, tm.ptmap
      ensures Valid() && nptab == 0 && l1[0] == l1[1] == l1[2] == 0 && l1[3] == old(l1[3])
      ensures if old(nptab) == 0 then tm.ps == old(tm.ps) && tm.l == old(tm.l)
              else exists j :: 0 <= j < |old(tm.ps)| && old(tm.ps)[j] == ResourceMap.Run(old(nptab), ptab) &&
                               tm.ps == ResourceMap.Dropped(old(tm.ps), j)
    {
      hide ResourceMap.Holds, ResourceMap.Canonical, ResourceMap.InUse;
      if nptab != 0 {
        ghost var j :| 0 <= j < |tm.ps| && tm.ps[j] == ResourceMap.Run(nptab, ptab);
        tm.l := ResourceMap.Return(tm.ptmap, nptab, ptab, j, tm.lo, tm.hi, tm.ps, tm.l);
        tm.ps := ResourceMap.Dropped(tm.ps, j);
        nptab := 0;
      }
      l1[0], l1[1], l1[2] := 0, 0, 0;
    }

    /**
     * ptbuild: the walk of the tables gives what the ranges name, and the
     * second pass takes no more tables than the first counted, and as many if
     * the maps hold all the pages; or there is no room for the tables.
     */
    method Ptbuild() returns (ok: bool, ghost used: nat)
      requires Valid() && nptab == 0 && |tm.ps| + 1 < tm.ptmap.Length
      requires Ranges(RangesOf(layout)) && l1[0] == l1[1] == l1[2] == 0
      modifies l1, this`nptab, this`ptab, this`tab, tm`l, tm`ps, tm.ptmap
      ensures Valid() && l1[3] == old(l1[3])
      ensures ok <==> old(ResourceMap.HasRoom(tm.l, Tables(layout)))
      ensures !ok ==> nptab == 0 && l1[0] == l1[1] == l1[2] == 0 && tm.l == old(tm.l) && tm.ps == old(tm.ps)
      ensures ok ==> nptab == tab.Length == Tables(layout) > 0 && fresh(tab) && used <= nptab
      ensures ok ==> tm.ps == old(tm.ps) + [ResourceMap.Run(nptab, ptab)]
      ensures ok ==> forall pg :: 0 <= pg < TOP ==>
                && Walk(l1[..], tab[..], ptab, pg) == Want(RangesOf(layout), pg)
                && Translate(l1[..], tab[..], ptab, pg) == Decoded(Want(RangesOf(layout), pg))
      ensures ok && Present(RangesOf(layout)) ==> used == nptab
    {
      hide Ranges, Want, Filled, Sorted, Counted, Needed, Present, RangesOf, Zero, Gigs, BlocksOf, Translate, Decoded, Walk;
      hide ResourceMap.Holds, ResourceMap.Canonical, ResourceMap.InUse, ResourceMap.Fits;
      ok, used := false, 0;
      var rs := SortRanges(RangesOf(layout));
      RangesAre(rs, RangesOf(layout));
      TablesSame(rs, RangesOf(layout));
      Members(layout);
      var n;
      ghost var gs, bs;
      n, gs, bs := CountTables(rs);
      SomeTables(rs, gs, bs);
      var a := TakeTables(n);
      if a == 0 {
        return;
      }
      ok := true;
      ptab := a;
      nptab := n;
      tab := new Table[n](_ => Cleared());
      used := Fill(l1, tab, a, rs, RangesOf(layout), gs, bs);
    }

    /** malloc for n tables. */
    method TakeTables(n: nat) returns (a: int)
      requires tm.Valid() && |tm.ps| + 1 < tm.ptmap.Length && n > 0
      modifies tm`l, tm`ps, tm.ptmap
      ensures tm.Valid() && (a != 0 <==> old(ResourceMap.HasRoom(tm.l, n)))
      ensures if a == 0 then tm.l == old(tm.l) && tm.ps == old(tm.ps) else a >= 1 && tm.ps == old(tm.ps) + [ResourceMap.Run(n, a)]
    {
      hide ResourceMap.Holds, ResourceMap.Canonical, ResourceMap.InUse, ResourceMap.Fits;
      ghost var m;
      a, m := ResourceMap.Malloc(tm.ptmap, n, tm.l);
      if a != 0 {
        ResourceMap.AddrBounds(tm.l, tm.ps, tm.lo, tm.hi, n, a);
        ResourceMap.PieceTaken(tm.l, m, tm.ps, tm.lo, tm.hi, n, a);
        tm.ps := tm.ps + [ResourceMap.Run(n, a)];
      }
      tm.l := m;
    }

    /**
     * estabur, with new sizes for the same page maps: it refuses sizes that
     * overlap or do not fit and changes nothing; or else, if there is room for
     * the tables, the walk gives each page what it is meant to be.
     */
    method Estabur(ts: nat, nt: nat, ds: nat, nd: nat, ns: nat, xrw: int, maxmem: int) returns (ok: bool)
      requires Valid() && |tm.ps| + 1 < tm.ptmap.Length && (xrw == RO || xrw == RW) && MapsOk(layout)
      modifies this, l1, tm`l, tm`ps, tm.ptmap
      ensures Valid() && ok == Accepted(old(layout).(ts := ts, nt := nt, ds := ds, nd := nd, ns := ns, xrw := xrw), maxmem)
      ensures !ok ==> layout == old(layout) && nptab == old(nptab) && ptab == old(ptab) && tab == old(tab) && l1[..] == old(l1[..])
      ensures !ok ==> tm.l == old(tm.l) && tm.ps == old(tm.ps)
      ensures ok ==> layout == old(layout).(ts := ts, nt := nt, ds := ds, nd := nd, ns := ns, xrw := xrw)
      ensures ok && nptab != 0 ==>
                ((forall pg :: 0 <= pg < TOP ==> Walk(l1[..], tab[..], ptab, pg) == Meant(layout, pg)) <==> HasMaps(layout))
      ensures ok && nptab != 0 ==>
                ((forall pg :: 0 <= pg < TOP ==> Translate(l1[..], tab[..], ptab, pg) == Placed(layout, pg)) <==> HasMaps(layout))
      ensures ok && nptab == 0 ==> l1[0] == l1[1] == l1[2] == 0 && !ResourceMap.HasRoom(tm.l, Tables(layout))
      ensures l1[3] == old(l1[3])
    {
      hide Ranges, Want, Meant, RangesOf, Accepted, Walk, HasMaps, Gigs, BlocksOf, Present, Translate, Decoded, Placed;
      hide ResourceMap.Holds, ResourceMap.Canonical, ResourceMap.InUse, ResourceMap.Fits;
      var new_ := layout.(ts := ts, nt := nt, ds := ds, nd := nd, ns := ns, xrw := xrw);
      if !Accepted(new_, maxmem) {
        return false;
      }
      AcceptedSize(new_, maxmem);
      AcceptedRanges(new_, maxmem);
      layout := new_;
      Ptfree();
      ghost var used;
      var built;
      built, used := Ptbuild();
      ok := true;
      MeantIff(layout, maxmem);
      PlacedIff(layout, maxmem);
    }
  }

  lemma AcceptedSize(l: Layout, maxmem: int)
    requires Accepted(l, maxmem)
    ensures l.ns <= TOP
  {
  }

  lemma RangesAre(rs: seq<Range>, rs0: seq<Range>)
    requires Shuffled(rs, rs0) && Ranges(rs0)
    ensures Ranges(rs) && AllOk(rs) && AllOk(rs0) && |rs| == |rs0|
  {
  }

  lemma SomeTables(rs: seq<Range>, gs: set<int>, bs: set<int>)
    requires Ranges(rs) && rs != [] && Counted(rs, |rs|, gs, bs)
    ensures |gs| + |bs| > 0
  {
    RangeIs(rs, 0);
    assert In(rs[0], rs[0].va);
    assert Covers(gs, bs, rs[0].va);
    assert gs != {};
  }

  lemma RangeIs(rs: seq<Range>, i: int)
    requires Ranges(rs) && 0 <= i < |rs|
    ensures RangeOk(rs[i])
  {
  }
}
