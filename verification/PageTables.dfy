/**
 * The page tables of a process (usr/sys/sys/ureg.c): one first-level table,
 * a second-level table for each gigabyte and a third-level table for each
 * 2 MB block in use, in the Long-descriptor format of section B3.6 of the ARM
 * Architecture Reference Manual, ARMv7-A and ARMv7-R edition.
 */
module PageTables {

  const NPTE := 512
  const GB := 262144       // pages under an entry of the first level
  const TOP := 0xC0000     // pages of user space
  const PTE_TAB := 3
  const PGUSER := 0xf03
  const RO := 0xC0
  const RW := 0x40
  const TRAMP := 1         // the page of the signal trampoline

  // ---- ranges ----

  /** A range of user pages. A range without a page map names its pages itself. nent is the length of the map. */
  datatype Range = Range(va: nat, n: nat, mapped: bool, pages: seq<int>, first: nat, nent: nat, ap: int)

  predicate RangeOk(r: Range) {
    && r.va + r.n <= TOP && 0 < r.n
    && (r.mapped ==> r.nent <= |r.pages|)
    && (r.ap == RO || r.ap == RW)
  }

  /** upage: the page of entry i, or 0 while the map does not hold it. */
  function Upage(r: Range, i: nat): int
    requires RangeOk(r)
  {
    if !r.mapped then r.first + i
    else if r.first + i >= r.nent then 0
    else r.pages[r.first + i]
  }

  predicate In(r: Range, pg: int) { r.va <= pg < r.va + r.n }

  predicate Apart(a: nat, n: nat, b: nat, m: nat) { n == 0 || m == 0 || a + n <= b || b + m <= a }

  ghost predicate AllOk(rs: seq<Range>) { forall i :: 0 <= i < |rs| ==> RangeOk(rs[i]) }

  ghost predicate Ranges(rs: seq<Range>) {
    && AllOk(rs)
    && (forall i, j :: 0 <= i < j < |rs| ==> Apart(rs[i].va, rs[i].n, rs[j].va, rs[j].n))
  }

  // ---- entries ----

  function Tab(page: int): int { page * 4096 + PTE_TAB }

  function Leaf(page: int, ap: int): int { page * 4096 + PGUSER + ap }

  /** The entry that a range names for a page; 0 for none. */
  function Named(r: Range, pg: int): int
    requires RangeOk(r) && In(r, pg)
  {
    var pa := Upage(r, pg - r.va);
    if pa == 0 then 0 else Leaf(pa, r.ap)
  }

  /** The entry for a page, from the range that it is in. */
  ghost function Want(rs: seq<Range>, pg: int): int
    requires AllOk(rs)
  {
    if rs == [] then 0 else if In(rs[0], pg) then Named(rs[0], pg) else Want(rs[1..], pg)
  }

  lemma {:induction false} WantIn(rs: seq<Range>, i: nat, pg: int)
    requires Ranges(rs) && i < |rs| && In(rs[i], pg)
    ensures Want(rs, pg) == Named(rs[i], pg)
  {
    if i > 0 {
      assert Apart(rs[0].va, rs[0].n, rs[i].va, rs[i].n);
      RangesTail(rs);
      WantIn(rs[1..], i - 1, pg);
    }
  }

  lemma RangesTail(rs: seq<Range>)
    requires Ranges(rs) && rs != []
    ensures Ranges(rs[1..])
  {
  }

  lemma {:induction false} WantOut(rs: seq<Range>, pg: int)
    requires Ranges(rs) && forall i :: 0 <= i < |rs| ==> !In(rs[i], pg)
    ensures Want(rs, pg) == 0
  {
    if rs != [] {
      RangesTail(rs);
      WantOut(rs[1..], pg);
    }
  }

  /** The order of the ranges does not matter. */
  lemma WantSame(rs: seq<Range>, rs': seq<Range>, pg: int)
    requires Ranges(rs) && Ranges(rs') && forall r :: r in rs <==> r in rs'
    ensures Want(rs, pg) == Want(rs', pg)
  {
    if i :| 0 <= i < |rs| && In(rs[i], pg) {
      WantIn(rs, i, pg);
      assert rs[i] in rs';
      var j :| 0 <= j < |rs'| && rs'[j] == rs[i];
      WantIn(rs', j, pg);
    } else {
      forall j | 0 <= j < |rs'|
        ensures !In(rs'[j], pg)
      {
        assert rs'[j] in rs;
      }
      WantOut(rs, pg);
      WantOut(rs', pg);
    }
  }

  // ---- the walk of the processor ----

  type Table = seq<int>

  /** What the processor finds for a page, with the tables ts in the pages from a0 on; 0 if it finds nothing. */
  function Walk(l1: seq<int>, ts: seq<Table>, a0: int, pg: int): int {
    var e1 := Entry(l1, pg / GB);
    if e1 == 0 then 0
    else
      var e2 := Entry(TableAt(ts, e1 / 4096 - a0), pg / NPTE % NPTE);
      if e2 == 0 then 0 else Entry(TableAt(ts, e2 / 4096 - a0), pg % NPTE)
  }

  function Entry(t: Table, j: int): int { if 0 <= j < |t| then t[j] else 0 }

  function TableAt(ts: seq<Table>, k: int): Table { if 0 <= k < |ts| then ts[k] else [] }

  // ---- what the processor makes of it ----

  datatype Access = ReadOnly | ReadWrite | NoUser

  /** The physical page of a user page, and what may be done with it. */
  datatype Found = Nothing | Maps(page: int, access: Access)

  /**
   * A page descriptor: type 3 in bits 0 and 1 and normal memory in bits 2 to 5,
   * access permissions in bits 6 and 7, shareable, accessed and not global in
   * bits 8 to 11, and the address from bit 12 on.
   */
  function Decoded(e: int): Found {
    if e % 64 != 3 || e / 256 % 16 != 15 then Nothing
    else Maps(e / 4096, if e / 64 % 4 == 1 then ReadWrite else if e / 64 % 4 == 3 then ReadOnly else NoUser)
  }

  /**
   * The translation of user page pg by 4-entry, 512-entry and 512-entry
   * tables of 8-byte descriptors; a table descriptor has type 3 and the page
   * of the next table from bit 12 on.
   */
  function Translate(l1: seq<int>, ts: seq<Table>, a0: int, pg: int): Found {
    var e1 := Entry(l1, pg / 262144);
    if e1 % 4 != 3 then Nothing
    else
      var e2 := Entry(TableAt(ts, e1 / 4096 - a0), pg / 512 % 512);
      if e2 % 4 != 3 then Nothing else Decoded(Entry(TableAt(ts, e2 / 4096 - a0), pg % 512))
  }

  function AccessOf(ap: int): Access { if ap == RO then ReadOnly else ReadWrite }

  /** What is put into an entry for a page can be read from it. */
  lemma LeafDecoded(page: int, ap: int)
    requires ap == RO || ap == RW
    ensures Decoded(Leaf(page, ap)) == Maps(page, AccessOf(ap)) && Decoded(0) == Nothing
  {
    var low := PGUSER + ap;
    LowBits(page, low);
    MiddleBits(page, low);
    HighBits(page, low);
    ZeroDecoded();
    assert Leaf(page, ap) == 4096 * page + low;
  }

  lemma LowBits(page: int, low: int)
    requires 0 <= low < 4096
    ensures (4096 * page + low) % 64 == low % 64
  {
    assert 4096 * page + low == 64 * (64 * page + low / 64) + low % 64;
  }

  lemma MiddleBits(page: int, low: int)
    requires 0 <= low < 4096
    ensures (4096 * page + low) / 64 % 4 == low / 64 % 4
    ensures (4096 * page + low) / 256 % 16 == low / 256
  {
    Quotient(16 * page + low / 256, 256, low % 256);
    Quotient(page, 16, low / 256);
    Quotient(64 * page + low / 64, 64, low % 64);
    Quotient(16 * page + low / 256, 4, low / 64 % 4);
  }

  lemma HighBits(page: int, low: int)
    requires 0 <= low < 4096
    ensures (4096 * page + low) / 4096 == page
  {
  }

  lemma Quotient(q: int, d: int, r: int)
    requires 0 <= r < d && (d == 4 || d == 16 || d == 64 || d == 256)
    ensures (q * d + r) / d == q && (q * d + r) % d == r
  {
  }

  /** And only what is put in. */
  lemma LeafInjective(pa: int, ap: int, pb: int, bp: int)
    requires (ap == RO || ap == RW) && (bp == RO || bp == RW) && Decoded(Leaf(pa, ap)) == Decoded(Leaf(pb, bp))
    ensures Leaf(pa, ap) == Leaf(pb, bp)
  {
    LeafDecoded(pa, ap);
    LeafDecoded(pb, bp);
  }

  lemma TabDecoded(a: int)
    ensures Tab(a) % 4 == 3 && Tab(a) / 4096 == a && 0 % 4 != 3
  {
    assert Tab(a) == 4 * (1024 * a) + 3;
  }

  // ---- the tables while they are filled ----

  /** Which tables were taken: for each gigabyte, and for each block. */
  datatype Taken = Taken(l2: map<int, int>, l3: map<int, int>, count: nat)

  /** The entry of a page once all pages below cur are done. */
  ghost function Done(rs: seq<Range>, cur: int, pg: int): int
    requires AllOk(rs)
  {
    if pg < cur then Want(rs, pg) else 0
  }

  ghost predicate TakenOk(t: Taken) {
    && (forall g {:trigger t.l2[g]} {:trigger g in t.l2} :: g in t.l2 ==> 0 <= t.l2[g] < t.count && 0 <= g < 3)
    && (forall b {:trigger t.l3[b]} {:trigger b in t.l3} :: b in t.l3 ==> 0 <= t.l3[b] < t.count && 0 <= b && b / NPTE in t.l2)
    && (forall g, h :: g in t.l2 && h in t.l2 && t.l2[g] == t.l2[h] ==> g == h)
    && (forall b, c :: b in t.l3 && c in t.l3 && t.l3[b] == t.l3[c] ==> b == c)
    && (forall g, b :: g in t.l2 && b in t.l3 ==> t.l2[g] != t.l3[b])
  }

  ghost predicate Level1(l1: seq<int>, a0: int, t: Taken) {
    |l1| == 4 && forall g :: 0 <= g < 3 ==> l1[g] == if g in t.l2 then Tab(a0 + t.l2[g]) else 0
  }

  ghost function Slot2(a0: int, t: Taken, g: int, j: int): int {
    if g * NPTE + j in t.l3 then Tab(a0 + t.l3[g * NPTE + j]) else 0
  }

  ghost predicate Table2(tab: Table, a0: int, t: Taken, g: int) {
    |tab| == NPTE && forall j {:trigger tab[j]} :: 0 <= j < NPTE ==> tab[j] == Slot2(a0, t, g, j)
  }

  ghost predicate Level2(ts: seq<Table>, a0: int, t: Taken)
  {
    forall g {:trigger t.l2[g]} {:trigger g in t.l2} :: g in t.l2 ==> Table2(TableAt(ts, t.l2[g]), a0, t, g)
  }

  ghost function Slot3(rs: seq<Range>, cur: int, b: int, j: int): int
    requires AllOk(rs)
  {
    Done(rs, cur, b * NPTE + j)
  }

  ghost predicate Table3(tab: Table, rs: seq<Range>, cur: int, b: int)
    requires AllOk(rs)
  {
    |tab| == NPTE && forall j {:trigger tab[j]} :: 0 <= j < NPTE ==> tab[j] == Slot3(rs, cur, b, j)
  }

  ghost predicate Level3(ts: seq<Table>, rs: seq<Range>, cur: int, t: Taken)
    requires AllOk(rs)
  {
    forall b {:trigger t.l3[b]} {:trigger b in t.l3} :: b in t.l3 ==> Table3(TableAt(ts, t.l3[b]), rs, cur, b)
  }

  ghost predicate Zero(tab: Table) { |tab| == NPTE && forall j {:trigger tab[j]} :: 0 <= j < NPTE ==> tab[j] == 0 }

  ghost predicate Rest(ts: seq<Table>, t: Taken) {
    forall k {:trigger ts[k]} :: t.count <= k < |ts| ==> Zero(ts[k])
  }

  /** Every page that has an entry is under a table. */
  ghost predicate Cover(rs: seq<Range>, cur: int, t: Taken)
    requires AllOk(rs)
  {
    forall pg {:trigger Want(rs, pg)} :: 0 <= pg < cur && Want(rs, pg) != 0 ==> pg / NPTE in t.l3
  }

  ghost predicate Filled(l1: seq<int>, ts: seq<Table>, a0: int, rs: seq<Range>, cur: int, t: Taken) {
    && Ranges(rs) && TakenOk(t) && t.count <= |ts|
    && Level1(l1, a0, t) && Level2(ts, a0, t) && Level3(ts, rs, cur, t) && Rest(ts, t) && Cover(rs, cur, t)
  }

  // ---- the steps of the second pass ----

  function With2(t: Taken, g: int): Taken { Taken(t.l2[g := t.count], t.l3, t.count + 1) }

  function With3(t: Taken, b: int): Taken { Taken(t.l2, t.l3[b := t.count], t.count + 1) }

  lemma Taken2(t: Taken, g: int)
    requires TakenOk(t) && 0 <= g < 3 && g !in t.l2
    ensures TakenOk(With2(t, g))
  {
  }

  lemma Taken3(t: Taken, b: int)
    requires TakenOk(t) && 0 <= b && b / NPTE in t.l2 && b !in t.l3
    ensures TakenOk(With3(t, b))
  {
  }

  /** A new second-level table is empty, as no block of its gigabyte has a table yet. */
  lemma NewTable2(tab: Table, a0: int, t: Taken, g: int)
    requires TakenOk(t) && g !in t.l2 && Zero(tab)
    ensures Table2(tab, a0, With2(t, g), g)
  {
    forall j | 0 <= j < NPTE
      ensures Slot2(a0, With2(t, g), g, j) == 0
    {
      assert (g * NPTE + j) / NPTE == g;
    }
  }

  lemma SameTable2(tab: Table, a0: int, t: Taken, g: int, h: int)
    requires Table2(tab, a0, t, h)
    ensures Table2(tab, a0, With2(t, g), h)
  {
    assert forall j :: 0 <= j < NPTE ==> Slot2(a0, With2(t, g), h, j) == Slot2(a0, t, h, j);
  }

  /** No two tables are the same. */
  lemma TakenFacts(t: Taken)
    requires TakenOk(t)
    ensures forall g {:trigger t.l2[g]} {:trigger g in t.l2} :: g in t.l2 ==> 0 <= t.l2[g] < t.count && 0 <= g < 3
    ensures forall b {:trigger t.l3[b]} {:trigger b in t.l3} :: b in t.l3 ==> 0 <= t.l3[b] < t.count && 0 <= b && b / NPTE in t.l2
  {
  }

  lemma Alone2(t: Taken, g: int)
    requires TakenOk(t) && g in t.l2
    ensures 0 <= t.l2[g] < t.count
    ensures forall h {:trigger t.l2[h]} :: h in t.l2 && h != g ==> t.l2[h] != t.l2[g]
    ensures forall b {:trigger t.l3[b]} :: b in t.l3 ==> t.l3[b] != t.l2[g]
  {
  }

  lemma Alone3(t: Taken, b: int)
    requires TakenOk(t) && b in t.l3
    ensures 0 <= t.l3[b] < t.count
    ensures forall c {:trigger t.l3[c]} :: c in t.l3 && c != b ==> t.l3[c] != t.l3[b]
    ensures forall g {:trigger t.l2[g]} :: g in t.l2 ==> t.l2[g] != t.l3[b]
  {
  }

  lemma TakeL2(l1: seq<int>, ts: seq<Table>, a0: int, rs: seq<Range>, cur: int, t: Taken, g: int)
    requires Filled(l1, ts, a0, rs, cur, t) && 0 <= g < 3 && g !in t.l2 && t.count < |ts|
    ensures Filled(l1[g := Tab(a0 + t.count)], ts, a0, rs, cur, With2(t, g))
  {
    ZeroAt(ts, t);
    hide Want, AllOk, Tab, Done, Zero, TakenOk, Level1, Level2, Level3, Rest, Cover;
    Taken2(t, g);
    Level1More(l1, a0, t, g);
    Level2More(ts, a0, t, g);
    RestMore(ts, rs, cur, t, g);
  }

  lemma ZeroAt(ts: seq<Table>, t: Taken)
    requires Rest(ts, t) && t.count < |ts|
    ensures Zero(ts[t.count])
  {
  }

  lemma Level1More(l1: seq<int>, a0: int, t: Taken, g: int)
    requires Level1(l1, a0, t) && 0 <= g < 3
    ensures Level1(l1[g := Tab(a0 + t.count)], a0, With2(t, g))
  {
    hide Tab;
  }

  lemma Level2More(ts: seq<Table>, a0: int, t: Taken, g: int)
    requires TakenOk(t) && t.count < |ts| && Level2(ts, a0, t) && g !in t.l2 && Zero(ts[t.count])
    ensures Level2(ts, a0, With2(t, g))
  {
    hide Table2, Zero, TakenOk;
    var t' := With2(t, g);
    NewTable2(ts[t.count], a0, t, g);
    forall h | h in t'.l2
      ensures Table2(TableAt(ts, t'.l2[h]), a0, t', h)
    {
      if h != g {
        SameTable2(TableAt(ts, t.l2[h]), a0, t, g, h);
      }
    }
  }

  lemma RestMore(ts: seq<Table>, rs: seq<Range>, cur: int, t: Taken, g: int)
    requires AllOk(rs) && Rest(ts, t) && Level3(ts, rs, cur, t) && Cover(rs, cur, t)
    ensures Rest(ts, With2(t, g)) && Level3(ts, rs, cur, With2(t, g)) && Cover(rs, cur, With2(t, g))
  {
    hide Zero, AllOk, Want, Table3;
  }

  /** The table of a block's gigabyte gets its entry; those of the others have none for it. */
  lemma LinkTable2(tab: Table, a0: int, t: Taken, b: int, g: int)
    requires Table2(tab, a0, t, g) && 0 <= b
    ensures Table2(if g == b / NPTE then tab[b % NPTE := Tab(a0 + t.count)] else tab, a0, With3(t, b), g)
  {
    hide Tab;
    forall j | 0 <= j < NPTE
      ensures Slot2(a0, With3(t, b), g, j) == if g == b / NPTE && j == b % NPTE then Tab(a0 + t.count) else Slot2(a0, t, g, j)
    {
      Split(g, j, b);
    }
  }

  lemma Split(g: int, j: int, b: int)
    requires 0 <= j < NPTE
    ensures g * NPTE + j == b <==> g == b / NPTE && j == b % NPTE
  {
  }

  /** A new third-level table is empty, as no page of its block has an entry yet. */
  lemma NewTable3(tab: Table, rs: seq<Range>, cur: int, t: Taken, b: int)
    requires Ranges(rs) && Cover(rs, cur, t) && 0 <= b && b !in t.l3 && Zero(tab)
    ensures Table3(tab, rs, cur, b)
  {
    hide Want;
    forall j | 0 <= j < NPTE
      ensures Slot3(rs, cur, b, j) == 0
    {
      Split(b, j, b * NPTE + j);
    }
  }

  lemma Link2(ts: seq<Table>, a0: int, t: Taken, b: int, k: int)
    requires TakenOk(t) && t.count <= |ts| && Level2(ts, a0, t) && 0 <= b && b / NPTE in t.l2 && k == t.l2[b / NPTE] && |ts[k]| == NPTE
    ensures Level2(ts[k := ts[k][b % NPTE := Tab(a0 + t.count)]], a0, With3(t, b))
  {
    Alone2(t, b / NPTE);
    hide Tab, Table2, TakenOk;
    var ts' := ts[k := ts[k][b % NPTE := Tab(a0 + t.count)]];
    forall g | g in t.l2
      ensures Table2(TableAt(ts', t.l2[g]), a0, With3(t, b), g)
    {
      LinkTable2(TableAt(ts, t.l2[g]), a0, t, b, g);
    }
  }

  lemma Link3(ts: seq<Table>, tab: Table, a0: int, rs: seq<Range>, cur: int, t: Taken, b: int, k: int)
    requires TakenOk(t) && t.count < |ts| && AllOk(rs) && Level3(ts, rs, cur, t) && b / NPTE in t.l2 && k == t.l2[b / NPTE]
    requires b !in t.l3 && Table3(ts[t.count], rs, cur, b)
    ensures Level3(ts[k := tab], rs, cur, With3(t, b))
  {
    Alone2(t, b / NPTE);
    TakenFacts(t);
    hide Table3, TakenOk;
    var t', ts' := With3(t, b), ts[k := tab];
    forall c | c in t'.l3
      ensures Table3(TableAt(ts', t'.l3[c]), rs, cur, c)
    {
      assert c != b ==> TableAt(ts', t'.l3[c]) == TableAt(ts, t.l3[c]);
    }
  }

  /** Table k, which was taken, changes. */
  lemma RestSame(ts: seq<Table>, tab: Table, t: Taken, k: int)
    requires Rest(ts, t) && 0 <= k < t.count <= |ts|
    ensures Rest(ts[k := tab], t)
  {
    hide Zero;
  }

  lemma RestLess(ts: seq<Table>, t: Taken, b: int)
    requires Rest(ts, t)
    ensures Rest(ts, With3(t, b))
  {
    hide Zero;
  }

  lemma CoverSame(rs: seq<Range>, cur: int, t: Taken, b: int)
    requires AllOk(rs) && Cover(rs, cur, t)
    ensures Cover(rs, cur, With3(t, b))
  {
    hide Want, AllOk;
  }

  lemma CoverMore(rs: seq<Range>, pg: int, t: Taken)
    requires AllOk(rs) && Cover(rs, pg, t) && pg / NPTE in t.l3
    ensures Cover(rs, pg + 1, t)
  {
    hide Want, AllOk;
  }

  lemma Level1Same(l1: seq<int>, a0: int, t: Taken, b: int)
    requires Level1(l1, a0, t)
    ensures Level1(l1, a0, With3(t, b))
  {
    hide Tab;
  }

  lemma TakeL3(l1: seq<int>, ts: seq<Table>, a0: int, rs: seq<Range>, cur: int, t: Taken, b: int, k: int)
    requires Filled(l1, ts, a0, rs, cur, t) && 0 <= b && b !in t.l3 && t.count < |ts|
    requires b / NPTE in t.l2 && k == t.l2[b / NPTE] && |ts[k]| == NPTE
    ensures Filled(l1, ts[k := ts[k][b % NPTE := Tab(a0 + t.count)]], a0, rs, cur, With3(t, b))
  {
    Alone2(t, b / NPTE);
    ZeroAt(ts, t);
    hide Want, AllOk, Tab, Done, Zero, TakenOk, Level1, Level2, Level3, Table3, Rest, Cover;
    var tab := ts[k][b % NPTE := Tab(a0 + t.count)];
    Taken3(t, b);
    NewTable3(ts[t.count], rs, cur, t, b);
    Level1Same(l1, a0, t, b);
    Link2(ts, a0, t, b, k);
    Link3(ts, tab, a0, rs, cur, t, b, k);
    RestSame(ts, tab, t, k);
    RestLess(ts[k := tab], t, b);
    CoverSame(rs, cur, t, b);
  }

  /** One page is done. */
  lemma SetTable3(tab: Table, rs: seq<Range>, pg: int, b: int)
    requires Ranges(rs) && Table3(tab, rs, pg, b) && 0 <= pg
    ensures Table3(if b == pg / NPTE then tab[pg % NPTE := Want(rs, pg)] else tab, rs, pg + 1, b)
  {
    hide Want;
    forall j | 0 <= j < NPTE
      ensures Slot3(rs, pg + 1, b, j) == if b == pg / NPTE && j == pg % NPTE then Want(rs, pg) else Slot3(rs, pg, b, j)
    {
      Split(b, j, pg);
    }
  }

  lemma Set3(ts: seq<Table>, rs: seq<Range>, pg: int, t: Taken, k: int)
    requires TakenOk(t) && t.count <= |ts| && Ranges(rs) && Level3(ts, rs, pg, t)
    requires 0 <= pg && pg / NPTE in t.l3 && k == t.l3[pg / NPTE] && |ts[k]| == NPTE
    ensures Level3(ts[k := ts[k][pg % NPTE := Want(rs, pg)]], rs, pg + 1, t)
  {
    Alone3(t, pg / NPTE);
    hide Want, AllOk, Table3, TakenOk;
    var ts' := ts[k := ts[k][pg % NPTE := Want(rs, pg)]];
    forall b | b in t.l3
      ensures Table3(TableAt(ts', t.l3[b]), rs, pg + 1, b)
    {
      SetTable3(TableAt(ts, t.l3[b]), rs, pg, b);
    }
  }

  lemma Keep2(ts: seq<Table>, tab: Table, a0: int, t: Taken, b: int, k: int)
    requires TakenOk(t) && t.count <= |ts| && Level2(ts, a0, t) && b in t.l3 && k == t.l3[b]
    ensures Level2(ts[k := tab], a0, t)
  {
    Alone3(t, b);
    hide Table2, TakenOk;
    forall g | g in t.l2
      ensures TableAt(ts[k := tab], t.l2[g]) == TableAt(ts, t.l2[g])
    {
    }
  }

  lemma SetPage(l1: seq<int>, ts: seq<Table>, a0: int, rs: seq<Range>, pg: int, t: Taken, k: int)
    requires Filled(l1, ts, a0, rs, pg, t) && 0 <= pg && pg / NPTE in t.l3 && k == t.l3[pg / NPTE] && |ts[k]| == NPTE
    ensures Filled(l1, ts[k := ts[k][pg % NPTE := Want(rs, pg)]], a0, rs, pg + 1, t)
  {
    Alone3(t, pg / NPTE);
    hide Want, AllOk, Tab, Zero, TakenOk, Level1, Level2, Level3, Rest, Cover;
    var tab := ts[k][pg % NPTE := Want(rs, pg)];
    Set3(ts, rs, pg, t, k);
    Keep2(ts, tab, a0, t, pg / NPTE, k);
    RestSame(ts, tab, t, k);
    CoverMore(rs, pg, t);
  }

  lemma SkipTable3(tab: Table, rs: seq<Range>, cur: int, cur': int, b: int)
    requires Ranges(rs) && Table3(tab, rs, cur, b) && cur <= cur'
    requires forall pg :: cur <= pg < cur' ==> Want(rs, pg) == 0
    ensures Table3(tab, rs, cur', b)
  {
    hide Want;
    assert forall j :: 0 <= j < NPTE ==> Slot3(rs, cur', b, j) == Slot3(rs, cur, b, j);
  }

  /** Pages without an entry are passed over. */
  lemma SkipPages(l1: seq<int>, ts: seq<Table>, a0: int, rs: seq<Range>, cur: int, cur': int, t: Taken)
    requires Filled(l1, ts, a0, rs, cur, t) && cur <= cur'
    requires forall pg :: cur <= pg < cur' ==> Want(rs, pg) == 0
    ensures Filled(l1, ts, a0, rs, cur', t)
  {
    hide Want, AllOk, Tab, Table2, Table3, Zero, TakenOk;
    forall b | b in t.l3
      ensures Table3(TableAt(ts, t.l3[b]), rs, cur', b)
    {
      SkipTable3(TableAt(ts, t.l3[b]), rs, cur, cur', b);
    }
  }

  // ---- the walk finds what was filled in ----

  lemma TabPage(a: int)
    requires a > 0
    ensures Tab(a) / 4096 == a && Tab(a) != 0
  {
  }

  lemma Level1At(l1: seq<int>, a0: int, t: Taken, g: int)
    requires Level1(l1, a0, t) && 0 <= g < 3
    ensures Entry(l1, g) == if g in t.l2 then Tab(a0 + t.l2[g]) else 0
  {
  }

  lemma Level2At(ts: seq<Table>, a0: int, t: Taken, g: int, j: int)
    requires Level2(ts, a0, t) && g in t.l2 && 0 <= j < NPTE
    ensures var b := g * NPTE + j;
            Entry(TableAt(ts, t.l2[g]), j) == if b in t.l3 then Tab(a0 + t.l3[b]) else 0
  {
    hide TableAt, Tab;
    assert Table2(TableAt(ts, t.l2[g]), a0, t, g);
  }

  lemma Level3At(ts: seq<Table>, rs: seq<Range>, cur: int, t: Taken, b: int, j: int)
    requires AllOk(rs) && Level3(ts, rs, cur, t) && b in t.l3 && 0 <= j < NPTE
    ensures Entry(TableAt(ts, t.l3[b]), j) == Done(rs, cur, b * NPTE + j)
  {
    hide Done, TableAt, AllOk;
    assert Table3(TableAt(ts, t.l3[b]), rs, cur, b);
  }

  lemma CoverAt(rs: seq<Range>, cur: int, t: Taken, pg: int)
    requires AllOk(rs) && Cover(rs, cur, t) && 0 <= pg && pg / NPTE !in t.l3
    ensures Done(rs, cur, pg) == 0
  {
    hide Want, AllOk;
  }

  lemma WalkFilled(l1: seq<int>, ts: seq<Table>, a0: int, rs: seq<Range>, cur: int, t: Taken, pg: int)
    requires Filled(l1, ts, a0, rs, cur, t) && 0 < a0 && 0 <= pg < TOP
    ensures Walk(l1, ts, a0, pg) == Done(rs, cur, pg) && Translate(l1, ts, a0, pg) == Decoded(Done(rs, cur, pg))
  {
    hide Want, AllOk, Tab, Zero, TakenOk, Level1, Level2, Level3, Rest, Cover, Done, Entry, TableAt, Decoded;
    ZeroDecoded();
    var g, b, j := pg / GB, pg / NPTE, pg % NPTE;
    Halves(pg);
    TakenAt(t, g, b);
    Level1At(l1, a0, t, g);
    if g in t.l2 {
      TabPage(a0 + t.l2[g]);
      TabDecoded(a0 + t.l2[g]);
      Level2At(ts, a0, t, g, b % NPTE);
    }
    if b in t.l3 {
      TabPage(a0 + t.l3[b]);
      TabDecoded(a0 + t.l3[b]);
      Level3At(ts, rs, cur, t, b, j);
    } else {
      CoverAt(rs, cur, t, pg);
    }
  }

  lemma ZeroDecoded()
    ensures Decoded(0) == Nothing
  {
  }

  lemma TakenAt(t: Taken, g: int, b: int)
    requires TakenOk(t) && g == b / NPTE
    ensures g in t.l2 ==> t.l2[g] >= 0
    ensures b in t.l3 ==> t.l3[b] >= 0 && g in t.l2
  {
  }

  lemma Halves(pg: int)
    requires 0 <= pg < TOP
    ensures 0 <= pg / GB < 3 && pg / NPTE / NPTE == pg / GB
    ensures pg / GB * NPTE + pg / NPTE % NPTE == pg / NPTE && pg / NPTE * NPTE + pg % NPTE == pg
  {
  }
}
