/**
 * The images of processes in core and on the swap area: mapswap of
 * usr/sys/dev/bio.c, xswap of usr/sys/sys/text.c and swapin of
 * usr/sys/sys/slp.c. The page of the user block is not modelled; its place on
 * the swap area is.
 */
module ImageSwap {
  import opened Images
  import opened ImageIo
  import opened ResourceMap

  const USIZE := 1

  /** Pages to disk blocks. */
  function Ptod(n: int): int { 8 * n }

  function PageAt(mem: seq<Page>, p: int): Page { if 0 <= p < |mem| then mem[p] else [] }

  /** The contents of an image. */
  function Image(mem: seq<Page>, ents: seq<int>): (r: seq<Page>)
    ensures |r| == |ents| && forall i {:trigger r[i]} :: 0 <= i < |ents| ==> r[i] == PageAt(mem, ents[i])
  {
    seq(|ents|, i requires 0 <= i < |ents| => PageAt(mem, ents[i]))
  }

  /** Moving the entries of a map, or giving the map pages, does not touch the image. */
  lemma KeptImage(mem: seq<Page>, mem': seq<Page>, free: seq<int>, m: Map, ours: multiset<int>, ents: seq<int>)
    requires Good(mem', free, m, ours) && Kept(mem, mem', m) && forall i :: 0 <= i < |ents| ==> ents[i] in m.ents
    ensures Image(mem', ents) == Image(mem, ents)
  {
    hide Good;
    forall i | 0 <= i < |ents|
      ensures PageAt(mem', ents[i]) == PageAt(mem, ents[i])
    {
      assert ents[i] in m.ents;
      var j :| 0 <= j < |m.ents| && m.ents[j] == ents[i];
      EntFacts(mem', free, m, ours, j);
    }
  }

  // ---- pages of the image ----

  /** A page of the image is written. */
  lemma WritePage(mem: seq<Page>, free: seq<int>, m: Map, ours: multiset<int>, t: int, page: Page)
    requires Good(mem, free, m, ours) && 0 <= t < |m.ents| && |page| == NPM
    ensures 1 <= m.ents[t] < |mem| && Good(mem[m.ents[t] := page], free, m, ours)
    ensures Image(mem[m.ents[t] := page], m.ents) == Image(mem, m.ents)[t := page]
  {
    hide Own, Held;
    EntFacts(mem, free, m, ours, t);
    var p := m.ents[t];
    PageListed(mem, m, p, page);
    hide Listed;
    assert Image(mem[p := page], m.ents) == Image(mem, m.ents)[t := page];
  }

  lemma EntFacts(mem: seq<Page>, free: seq<int>, m: Map, ours: multiset<int>, t: int)
    requires Good(mem, free, m, ours) && 0 <= t < |m.ents|
    ensures 1 <= m.ents[t] < |mem| && m.ents[t] !in m.lists && (m.root != 0 ==> m.ents[t] != m.root)
    ensures forall i {:trigger m.ents[i]} :: 0 <= i < |m.ents| && i != t ==> m.ents[i] != m.ents[t]
  {
    hide Own, Held, Listed;
    OwnDiffer(|mem|, free, m, ours);
    Places(free, m);
    InRange(|mem|, free, m, ours, EntPlace(free, m, t));
  }

  lemma PageListed(mem: seq<Page>, m: Map, p: int, page: Page)
    requires Sized(mem) && Listed(mem, m) && 0 <= p < |mem| && |page| == NPM && p !in m.lists && (m.root != 0 ==> p != m.root)
    ensures Sized(mem[p := page]) && Listed(mem[p := page], m)
  {
    var mem' := mem[p := page];
    forall i | 0 <= i < |m.ents|
      ensures i / NPM < |m.lists| && mem'[m.lists[i / NPM]][i % NPM] == m.ents[i]
    {
      var e := m.ents[i];
      assert i / NPM < |m.lists| && mem[m.lists[i / NPM]][i % NPM] == e;
      assert m.lists[i / NPM] in m.lists;
    }
  }

  method PutPage(k: Core, pg: int, page: Page, ghost t: int)
    requires k.Valid() && 0 <= t < |k.m.ents| && k.m.ents[t] == pg && |page| == NPM
    modifies k.mem
    ensures k.Valid() && Image(k.mem[..], k.m.ents) == old(Image(k.mem[..], k.m.ents))[t := page]
  {
    hide Good, Image;
    WritePage(k.mem[..], k.free, k.m, k.ours, t, page);
    ghost var was := k.mem[..];
    k.mem[pg] := page;
    assert k.mem[..] == was[pg := page];
  }

  /** How many entries from i on follow each other. */
  method RunEnd(k: Core, n: int, i: int) returns (pg: int, j: int)
    requires k.Valid() && n == |k.m.ents| && 0 <= i < n
    ensures i < j <= n && forall t {:trigger k.m.ents[t]} :: i <= t < j ==> k.m.ents[t] == pg + t - i
  {
    hide Good;
    pg := k.Mapent(i);
    j := i + 1;
    while j < n
      invariant i < j <= n && forall t {:trigger k.m.ents[t]} :: i <= t < j ==> k.m.ents[t] == pg + t - i
    {
      var e := k.Mapent(j);
      if e != pg + j - i {
        return;
      }
      j := j + 1;
    }
  }

  // ---- the swap area ----

  /** The swap map, and the swap device: for each block the page that was written there. */
  class SwapArea {
    const swapmap: array<Run>
    const lo: int
    const hi: int
    var dev: seq<Page>
    ghost var l: seq<Run>
    ghost var ps: seq<Run>    // the pieces in use

    ghost predicate Mapped()
      reads this, swapmap
    {
      Holds(swapmap[..], l) && Canonical(l) && InUse(l, ps, lo, hi) && 1 <= lo && |ps| < swapmap.Length
    }

    ghost predicate Valid()
      reads this, swapmap
    {
      Mapped() && |dev| == hi && Pages(dev) && |ps| + 1 < swapmap.Length
    }
  }

  /** The pages of an image of n pages on the device from block a on. */
  function Stored(dev: seq<Page>, a: int, n: nat): (r: seq<Page>)
    ensures |r| == n && forall i {:trigger r[i]} :: 0 <= i < n ==> r[i] == PageAt(dev, a + Ptod(i))
  {
    seq(n, i => PageAt(dev, a + Ptod(i)))
  }

  /** mapswap to the swap device: pages that follow each other go together. */
  method SwapOut(k: Core, n: int, dev0: seq<Page>, a: int) returns (dev: seq<Page>)
    requires k.Valid() && n == |k.m.ents| && 0 <= a && a + Ptod(n) <= |dev0|
    requires forall b {:trigger dev0[b]} :: 0 <= b < |dev0| ==> |dev0[b]| == NPM
    ensures |dev| == |dev0| && Stored(dev, a, n) == Image(k.mem[..], k.m.ents)
    ensures forall b {:trigger dev[b]} :: 0 <= b < |dev| ==> |dev[b]| == NPM && (b < a || a + Ptod(n) <= b ==> dev[b] == dev0[b])
  {
    hide Good, Image, Stored;
    ImageSized(k.mem[..], k.free, k.m, k.ours);
    dev := dev0;
    ghost var image := Image(k.mem[..], k.m.ents);
    var i := 0;
    while i < n
      invariant 0 <= i <= n && |dev| == |dev0|
      invariant forall t {:trigger image[t]} :: 0 <= t < i ==> PageAt(dev, a + Ptod(t)) == image[t]
      invariant forall b {:trigger dev[b]} :: 0 <= b < |dev| ==> |dev[b]| == NPM && (b < a || a + Ptod(n) <= b ==> dev[b] == dev0[b])
    {
      var pg, j := RunEnd(k, n, i);
      RunPages(k.mem[..], k.free, k.m, k.ours, i, j, pg);
      var t := i;
      while t < j
        invariant i <= t <= j && |dev| == |dev0|
        invariant forall u {:trigger image[u]} :: 0 <= u < t ==> PageAt(dev, a + Ptod(u)) == image[u]
        invariant forall b {:trigger dev[b]} :: 0 <= b < |dev| ==> |dev[b]| == NPM && (b < a || a + Ptod(n) <= b ==> dev[b] == dev0[b])
      {
        assert k.mem[pg + t - i] == image[t] by {
          assert k.mem[..][pg..pg + j - i][t - i] == image[i..j][t - i];
        }
        dev := dev[a + Ptod(t) := k.mem[pg + t - i]];
        t := t + 1;
      }
      i := j;
    }
    StoredIs(dev, a, image);
  }

  lemma StoredIs(dev: seq<Page>, a: int, image: seq<Page>)
    requires forall t {:trigger image[t]} :: 0 <= t < |image| ==> PageAt(dev, a + Ptod(t)) == image[t]
    ensures Stored(dev, a, |image|) == image
  {
    var r := Stored(dev, a, |image|);
    forall t | 0 <= t < |image|
      ensures r[t] == image[t]
    {
      var x := image[t];
    }
  }

  lemma RunPages(mem: seq<Page>, free: seq<int>, m: Map, ours: multiset<int>, i: int, j: int, pg: int)
    requires Good(mem, free, m, ours) && 0 <= i < j <= |m.ents| && forall t {:trigger m.ents[t]} :: i <= t < j ==> m.ents[t] == pg + t - i
    ensures 0 <= pg && pg + j - i <= |mem| && mem[pg..pg + j - i] == Image(mem, m.ents)[i..j]
  {
    hide Good, Image;
    EntFacts(mem, free, m, ours, i);
    EntFacts(mem, free, m, ours, j - 1);
    RunSlice(mem, m.ents, i, j, pg);
  }

  lemma RunSlice(mem: seq<Page>, ents: seq<int>, i: int, j: int, pg: int)
    requires 0 <= i < j <= |ents| && (forall t {:trigger ents[t]} :: i <= t < j ==> ents[t] == pg + t - i) && 0 <= pg && pg + j - i <= |mem|
    ensures mem[pg..pg + j - i] == Image(mem, ents)[i..j]
  {
    var a, b := mem[pg..pg + j - i], Image(mem, ents)[i..j];
    forall t | 0 <= t < j - i
      ensures a[t] == b[t]
    {
      assert ents[i + t] == pg + t;
    }
  }

  /** mapswap from the swap device. */
  method SwapIn(k: Core, n: int, dev: seq<Page>, a: int)
    requires k.Valid() && n == |k.m.ents| && 0 <= a && a + Ptod(n) <= |dev| && forall b {:trigger dev[b]} :: 0 <= b < |dev| ==> |dev[b]| == NPM
    modifies k.mem
    ensures k.Valid() && Image(k.mem[..], k.m.ents) == Stored(dev, a, n)
  {
    hide Good, Image;
    var i := 0;
    ghost var saved := Stored(dev, a, n);
    while i < n
      invariant 0 <= i <= n && k.Valid()
      invariant forall t {:trigger saved[t]} :: 0 <= t < i ==> Image(k.mem[..], k.m.ents)[t] == saved[t]
    {
      var pg, j := RunEnd(k, n, i);
      var t := i;
      while t < j
        invariant i <= t <= j && k.Valid()
        invariant forall u {:trigger saved[u]} :: 0 <= u < t ==> Image(k.mem[..], k.m.ents)[u] == saved[u]
      {
        PutPage(k, pg + t - i, dev[a + Ptod(t)], t);
        t := t + 1;
      }
      i := j;
    }
  }

  lemma ImagePrefix(mem: seq<Page>, ents: seq<int>, n: int)
    requires 0 <= n <= |ents|
    ensures Image(mem, ents[..n]) == Image(mem, ents)[..n]
  {
  }

  lemma ImageSized(mem: seq<Page>, free: seq<int>, m: Map, ours: multiset<int>)
    requires Good(mem, free, m, ours)
    ensures forall i {:trigger Image(mem, m.ents)[i]} :: 0 <= i < |m.ents| ==> |Image(mem, m.ents)[i]| == NPM
  {
    hide Own, Held, Listed;
    forall i | 0 <= i < |m.ents|
      ensures |Image(mem, m.ents)[i]| == NPM
    {
      EntFacts(mem, free, m, ours, i);
    }
  }

  lemma NoNeed(n: int)
    ensures Mapneed(n, n) == 0
  {
  }

  lemma NeedSize(n: int, newsize: int)
    requires 0 <= n
    ensures Mapneed(n, newsize) >= 0
  {
  }

  // ---- out and in again ----

  /**
   * What the machine is like when the scheduler comes to swap the process in:
   * other processes have run, and done as they liked with core, the swap map
   * and the swap device, but for the piece that holds the image.
   */
  datatype World = World(mem: seq<Page>, free: seq<int>, runs: seq<Run>, l: seq<Run>, ps: seq<Run>, dev: seq<Page>)

  ghost predicate Pages(ps: seq<Page>) { forall b {:trigger ps[b]} :: 0 <= b < |ps| ==> |ps[b]| == NPM }

  /** Core is some pages, free each once; the swap map accounts for the pieces of the others and this one. */
  ghost predicate WorldOk(w: World, core: int, entries: int, lo: int, hi: int, piece: Run) {
    && |w.mem| == core && Sized(w.mem) && |w.dev| == hi && Pages(w.dev)
    && (forall p {:trigger multiset(w.free)[p]} :: multiset(w.free)[p] <= 1 && (p in multiset(w.free) ==> 1 <= p < core))
    && |w.runs| == entries && Holds(w.runs, w.l) && Canonical(w.l) && InUse(w.l, w.ps + [piece], lo, hi) && |w.ps| + 1 < entries
  }

  lemma WorldGood(w: World, core: int, entries: int, lo: int, hi: int, piece: Run)
    requires WorldOk(w, core, entries, lo, hi, piece)
    ensures Good(w.mem, w.free, Map(0, [], []), multiset(w.free)) && Exact(Map(0, [], []))
  {
    assert w.free + Held(Map(0, [], [])) == w.free;
  }

  /** The device after others have used it. */
  function Shared(dev: seq<Page>, others: seq<Page>, a: int, end: int): (r: seq<Page>)
    requires |dev| == |others|
    ensures |r| == |dev| && forall b {:trigger r[b]} :: 0 <= b < |r| ==> r[b] == if a <= b < end then dev[b] else others[b]
  {
    seq(|dev|, b requires 0 <= b < |dev| => if a <= b < end then dev[b] else others[b])
  }

  lemma StoredShared(dev: seq<Page>, others: seq<Page>, b: int, a: int, end: int, n: nat)
    requires |dev| == |others| && 0 <= a <= b && b + Ptod(n) <= end <= |dev|
    ensures Stored(Shared(dev, others, a, end), b, n) == Stored(dev, b, n)
  {
  }

  lemma StoredPrefix(dev: seq<Page>, a: int, n: nat, m: nat)
    requires n <= m
    ensures Stored(dev, a, m)[..n] == Stored(dev, a, n)
  {
  }

  /** The lowest place for size units. */
  ghost predicate Lowest(l: seq<Run>, size: int, x: int) { Fits(l, size, x) && forall y :: y < x ==> !Fits(l, size, y) }

  /** The part of the swap area that an image of newsize pages goes to. */
  function SwapSize(newsize: int): int { Ptod(newsize + USIZE) }

  /**
   * A page of 4096 bytes takes eight blocks of 512: the pages of an image of n
   * are apart, behind the page of the user block, and fill the part of the
   * swap area to its end when it was taken for n.
   */
  lemma SwapPlaces(i: nat, n: nat, newsize: nat)
    requires i < n <= newsize
    ensures 512 * Ptod(i) == 4096 * i && 4096 <= 512 * Ptod(USIZE + i) && 512 * Ptod(USIZE + i) + 4096 <= 512 * SwapSize(newsize)
    ensures i + 1 < n ==> Ptod(USIZE + i) + 8 == Ptod(USIZE + i + 1)
    ensures i + 1 == newsize ==> Ptod(USIZE + i) + 8 == SwapSize(newsize)
  {
  }

  /** The world w may follow xswap, and has core for the image then. */
  ghost predicate Afterwards(core: int, entries: int, l: seq<Run>, lo: int, hi: int, newsize: int, w: World) {
    && Mapneed(0, newsize) <= |w.free|
    && forall x :: Lowest(l, SwapSize(newsize), x) ==> WorldOk(w, core, entries, lo, hi, Run(SwapSize(newsize), x))
  }

  /** xswap: the image goes to the lowest place on the swap area that has room for newsize pages, and its core is free. */
  method Xswap(k: Core, sw: SwapArea, n: int, newsize: int) returns (a: int)
    requires k.Valid() && n == |k.m.ents| <= newsize && sw.Valid() && HasRoom(sw.l, SwapSize(newsize))
    modifies k`free, k`map_, k`m, sw`l, sw`ps, sw`dev, sw.swapmap
    ensures k.Valid() && k.m == Map(0, [], []) && k.ours == old(k.ours)
    ensures Lowest(old(sw.l), SwapSize(newsize), a) && sw.lo <= a && a + SwapSize(newsize) <= sw.hi
    ensures sw.Mapped() && sw.ps == old(sw.ps) + [Run(SwapSize(newsize), a)] && |sw.dev| == sw.hi && Pages(sw.dev)
    ensures Stored(sw.dev, a + Ptod(USIZE), n) == old(Image(k.mem[..], k.m.ents))
    ensures forall i :: 0 <= i < n ==> a + 8 * (i + 1) < sw.hi && sw.dev[a + 8 * (i + 1)] == old(Image(k.mem[..], k.m.ents))[i]
    ensures forall b {:trigger sw.dev[b]} :: 0 <= b < sw.hi && (b < a || a + SwapSize(newsize) <= b) ==> sw.dev[b] == old(sw.dev)[b]
  {
    hide Good, Image, Mapneed, Stored, Holds, Canonical, InUse, Fits;
    var size := SwapSize(newsize);
    ghost var m;
    a, m := Malloc(sw.swapmap, size, sw.l);
    AddrBounds(sw.l, sw.ps, sw.lo, sw.hi, size, a);
    PieceTaken(sw.l, m, sw.ps, sw.lo, sw.hi, size, a);
    assert Lowest(sw.l, size, a);
    sw.l, sw.ps := m, sw.ps + [Run(size, a)];
    sw.dev := SwapOut(k, n, sw.dev, a + Ptod(USIZE));
    StoredAt(sw.dev, a, n, Image(k.mem[..], k.m.ents));
    k.Mapfree(0, n);
    NoEntries(k.m);
  }

  lemma StoredAt(dev: seq<Page>, a: int, n: nat, image: seq<Page>)
    requires 0 <= a && a + Ptod(USIZE) + Ptod(n) <= |dev| && image == Stored(dev, a + Ptod(USIZE), n)
    ensures forall i :: 0 <= i < n ==> a + 8 * (i + 1) < |dev| && dev[a + 8 * (i + 1)] == image[i]
  {
    forall i | 0 <= i < n
      ensures a + 8 * (i + 1) < |dev| && dev[a + 8 * (i + 1)] == image[i]
    {
      assert a + Ptod(USIZE) + Ptod(i) == a + 8 * (i + 1);
    }
  }

  lemma NoEntries(m: Map)
    requires Exact(m) && m.ents == []
    ensures m == Map(0, [], [])
  {
  }

  /** Other processes run. */
  method Meanwhile(k: Core, sw: SwapArea, w: World, ghost size: int, a: int, end: int)
    requires |sw.dev| == sw.hi && Pages(sw.dev) && 0 <= a && end == a + size <= sw.hi && 1 <= sw.lo
    requires WorldOk(w, k.mem.Length, sw.swapmap.Length, sw.lo, sw.hi, Run(size, a))
    modifies k, k.mem, sw, sw.swapmap
    ensures k.Valid() && k.m == Map(0, [], []) && k.free == w.free && k.ours == multiset(w.free)
    ensures sw.Mapped() && sw.ps == w.ps + [Run(size, a)] && |sw.ps| <= sw.swapmap.Length && |sw.dev| == sw.hi && Pages(sw.dev)
    ensures sw.dev == Shared(old(sw.dev), w.dev, a, end)
  {
    hide Good, Holds, Canonical, InUse, Exact;
    forall p | 0 <= p < k.mem.Length {
      k.mem[p] := w.mem[p];
    }
    assert k.mem[..] == w.mem;
    forall p | 0 <= p < sw.swapmap.Length {
      sw.swapmap[p] := w.runs[p];
    }
    assert sw.swapmap[..] == w.runs;
    sw.dev := Shared(sw.dev, w.dev, a, end);
    sw.l, sw.ps := w.l, w.ps + [Run(size, a)];
    k.free := w.free;
    k.map_ := 0;
    k.ours := multiset(w.free);
    k.m := Map(0, [], []);
    WorldGood(w, k.mem.Length, sw.swapmap.Length, sw.lo, sw.hi, Run(size, a));
    assert k.mem[..] == w.mem;
  }

  /** swapin, when there is core for the image: it is read back, and its place on the swap area is free. */
  method Swapin(k: Core, sw: SwapArea, newsize: int, a: int)
    requires k.Valid() && k.m == Map(0, [], []) && 0 < newsize <= NPM * NPM && Mapneed(0, newsize) <= |k.free|
    requires sw.Mapped() && |sw.dev| == sw.hi && Pages(sw.dev) && 0 <= a && a + SwapSize(newsize) <= sw.hi
    requires sw.ps != [] && sw.ps[|sw.ps| - 1] == Run(SwapSize(newsize), a)
    modifies k`free, k`map_, k`m, k.mem, sw`l, sw`ps, sw.swapmap
    ensures k.Valid() && |k.m.ents| == newsize && k.ours == old(k.ours) && |k.free| == |old(k.free)| - Mapneed(0, newsize)
    ensures Image(k.mem[..], k.m.ents) == Stored(sw.dev, a + Ptod(USIZE), newsize)
    ensures sw.Valid() && sw.ps == old(sw.ps)[..|old(sw.ps)| - 1]
  {
    hide Good, Image, Mapneed, Exact, Stored, Holds, Canonical, InUse;
    NeedSize(0, newsize);
    var ok := k.Mapalloc(0, newsize);
    SwapIn(k, newsize, sw.dev, a + Ptod(USIZE));
    GiveBack(sw, SwapSize(newsize), a);
  }

  /**
   * xswap of an image of n pages with space for newsize, then the world w,
   * then swapin: the image is as it was, with pages more behind it; core
   * gives the pages that mapneed counts, and the swap map gets its piece back.
   */
  method Swap(k: Core, sw: SwapArea, n: int, newsize: int, w: World)
    requires k.Valid() && n == |k.m.ents| < newsize <= NPM * NPM && sw.Valid()
    requires HasRoom(sw.l, SwapSize(newsize))
    requires Afterwards(k.mem.Length, sw.swapmap.Length, sw.l, sw.lo, sw.hi, newsize, w)
    modifies k, k.mem, sw, sw.swapmap
    ensures k.Valid() && sw.Valid() && |k.m.ents| == newsize && Image(k.mem[..], k.m.ents)[..n] == old(Image(k.mem[..], k.m.ents))
    ensures k.ours == multiset(w.free) && |k.free| == |w.free| - Mapneed(0, newsize) && sw.ps == w.ps
  {
    hide Good, Image, Mapneed, Exact, Stored, Holds, Canonical, InUse, Sized, Fits, Shared;
    var a := Xswap(k, sw, n, newsize);
    var end, b := a + SwapSize(newsize), a + Ptod(USIZE);
    ghost var dev := sw.dev;
    StoredShared(dev, w.dev, b, a, end, n);
    Meanwhile(k, sw, w, SwapSize(newsize), a, end);
    Swapin(k, sw, newsize, a);
    StoredPrefix(sw.dev, b, n, newsize);
    assert w.ps + [Run(SwapSize(newsize), a)] == sw.ps + [Run(SwapSize(newsize), a)];
  }

  /** The mfree of swapin: the last piece is free again. */
  method GiveBack(sw: SwapArea, size: int, a: int)
    requires sw.Mapped() && |sw.dev| == sw.hi && Pages(sw.dev) && sw.ps != [] && sw.ps[|sw.ps| - 1] == Run(size, a)
    modifies sw`l, sw`ps, sw.swapmap
    ensures sw.Valid() && sw.ps == old(sw.ps)[..|old(sw.ps)| - 1]
  {
    hide Holds, Canonical, InUse;
    ghost var j := |sw.ps| - 1;
    sw.l := Return(sw.swapmap, size, a, j, sw.lo, sw.hi, sw.ps, sw.l);
    assert Dropped(sw.ps, j) == sw.ps[..j];
    sw.ps := sw.ps[..j];
  }
}
