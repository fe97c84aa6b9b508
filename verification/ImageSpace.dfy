/**
 * How an image grows and shrinks: expand and roomfor of usr/sys/sys/slp.c,
 * sbreak of usr/sys/sys/sys1.c and grow of usr/sys/sys/sig.c.
 */
module ImageSpace {
  import opened Images
  import opened ImageIo
  import opened ImageSwap
  import ResourceMap
  import PageBuild
  import PageTables

  // ---- growing and shrinking at the end ----

  /** There is no core to grow in, so the image goes by way of the swap area. */
  predicate Swapped(n: int, newsize: int, nfree: int) { n < newsize && nfree < Mapneed(n, newsize) }

  /** How many pages are free when an image has gone from n to newsize pages. */
  function FreeAfter(n: int, newsize: int, nfree: int, w: World): int {
    if newsize <= n then nfree + Mapneed(newsize, n)
    else if Mapneed(n, newsize) <= nfree then nfree - Mapneed(n, newsize)
    else |w.free| - Mapneed(0, newsize)
  }

  /** If the image has to be swapped, there is room for it, and the world w may follow. */
  ghost predicate Ready(k: Core, sw: SwapArea, n: int, newsize: int, w: World)
    reads k, sw
  {
    Swapped(n, newsize, |k.free|) ==>
      ResourceMap.HasRoom(sw.l, SwapSize(newsize)) && Afterwards(k.mem.Length, sw.swapmap.Length, sw.l, sw.lo, sw.hi, newsize, w)
  }

  /** expand: pages are freed at the end or added there, in core or by way of the swap area. */
  method Expand(k: Core, sw: SwapArea, n: int, newsize: int, w: World)
    requires k.Valid() && sw.Valid() && n == |k.m.ents| && 0 <= newsize <= NPM * NPM && Ready(k, sw, n, newsize, w)
    modifies k, k.mem, sw, sw.swapmap
    ensures k.Valid() && sw.Valid() && |k.m.ents| == newsize && |k.free| == FreeAfter(n, newsize, |old(k.free)|, w)
    ensures newsize <= n ==> Image(k.mem[..], k.m.ents) == old(Image(k.mem[..], k.m.ents))[..newsize]
    ensures newsize > n ==> Image(k.mem[..], k.m.ents)[..n] == old(Image(k.mem[..], k.m.ents))
    ensures if Swapped(n, newsize, |old(k.free)|) then k.ours == multiset(w.free) && sw.ps == w.ps
            else k.ours == old(k.ours) && sw.ps == old(sw.ps) && sw.l == old(sw.l) && sw.dev == old(sw.dev)
  {
    hide Good, Image, Mapneed, Exact, ResourceMap.Holds, ResourceMap.Canonical, ResourceMap.InUse, Afterwards;
    ghost var mem0, m0 := k.mem[..], k.m;
    if n >= newsize {
      k.Mapfree(newsize, n);
      assert m0.ents[..n] == m0.ents;
      ImagePrefix(mem0, m0.ents, newsize);
      NoNeed(n);
      return;
    }
    var ok := k.Mapalloc(n, newsize);
    if ok {
      InPrefix(m0.ents, k.m.ents);
      KeptImage(mem0, k.mem[..], k.free, k.m, k.ours, m0.ents);
      ImagePrefix(k.mem[..], k.m.ents, n);
      NeedSize(n, newsize);
      return;
    }
    Swap(k, sw, n, newsize, w);
  }

  lemma InPrefix(a: seq<int>, b: seq<int>)
    requires a <= b
    ensures b[..|a|] == a && forall i :: 0 <= i < |a| ==> a[i] in b
  {
    forall i | 0 <= i < |a|
      ensures a[i] in b
    {
      assert a[i] == b[i];
    }
  }

  // ---- the middle of an image ----

  function Blanks(d: nat): (r: seq<Page>)
    ensures |r| == d && forall i :: 0 <= i < d ==> r[i] == Cleared()
  {
    seq(d, _ => Cleared())
  }

  lemma RotatedImage(mem: seq<Page>, ents: seq<int>, a: int, b: int, c: int)
    requires 0 <= a <= b <= c <= |ents|
    ensures var im := Image(mem, ents); Image(mem, Rotated(ents, a, b, c)) == im[..a] + im[b..c] + im[a..b] + im[c..]
  {
  }

  /** maprot moves the pages of the image. */
  method Rotate(k: Core, a: int, b: int, c: int)
    requires k.Valid() && 0 <= a <= b <= c <= |k.m.ents|
    modifies k`m, k.mem
    ensures k.Valid() && |k.m.ents| == |old(k.m).ents|
    ensures var im := old(Image(k.mem[..], k.m.ents)); Image(k.mem[..], k.m.ents) == im[..a] + im[b..c] + im[a..b] + im[c..]
  {
    hide Good, Image, Exact, Rotated;
    ghost var mem0, ents := k.mem[..], k.m.ents;
    k.Maprot(a, b, c);
    SelfIn(k.m.ents);
    KeptImage(mem0, k.mem[..], k.free, k.m, k.ours, k.m.ents);
    RotatedImage(mem0, ents, a, b, c);
  }

  lemma SelfIn(s: seq<int>)
    ensures forall i :: 0 <= i < |s| ==> s[i] in s
  {
  }

  /** clearseg for the d pages before entry a, from the last down. */
  method ClearPages(k: Core, a: int, d: int)
    requires k.Valid() && 0 <= d <= a <= |k.m.ents|
    modifies k.mem
    ensures k.Valid()
    ensures var im := old(Image(k.mem[..], k.m.ents)); Image(k.mem[..], k.m.ents) == im[..a - d] + Blanks(d) + im[a..]
  {
    hide Good, Exact;
    ghost var im := Image(k.mem[..], k.m.ents);
    var i, left := a, d;
    while left > 0
      invariant 0 <= left <= d && i == a - d + left && k.Valid()
      invariant forall t {:trigger im[t]} :: 0 <= t < |im| ==>
                  Image(k.mem[..], k.m.ents)[t] == if i <= t < a then Cleared() else im[t]
    {
      left := left - 1;
      i := i - 1;
      var pg := k.Mapent(i);
      PutPage(k, pg, Cleared(), i);
    }
    ClearedRange(im, Image(k.mem[..], k.m.ents), a, d);
  }

  lemma ClearedRange(im: seq<Page>, now: seq<Page>, a: int, d: int)
    requires 0 <= d <= a <= |im| == |now|
    requires forall t {:trigger im[t]} :: 0 <= t < |im| ==> now[t] == if a - d <= t < a then Cleared() else im[t]
    ensures now == im[..a - d] + Blanks(d) + im[a..]
  {
    hide Blanks, Cleared;
    var r := im[..a - d] + Blanks(d) + im[a..];
    forall t | 0 <= t < |im|
      ensures now[t] == r[t]
    {
      var x := im[t];
      assert now[t] == if a - d <= t < a then Cleared() else x;
    }
  }

  /** d new pages of zeros come in at entry at, and what was there goes behind them. */
  method InsertPages(k: Core, sw: SwapArea, n: int, at: int, d: int, w: World)
    requires k.Valid() && sw.Valid() && n == |k.m.ents| && 0 <= at <= n && 0 < d && n + d <= NPM * NPM && Ready(k, sw, n, n + d, w)
    modifies k, k.mem, sw, sw.swapmap
    ensures k.Valid() && sw.Valid() && |k.free| == FreeAfter(n, n + d, |old(k.free)|, w)
    ensures var im := old(Image(k.mem[..], k.m.ents)); Image(k.mem[..], k.m.ents) == im[..at] + Blanks(d) + im[at..]
    ensures if Swapped(n, n + d, |old(k.free)|) then k.ours == multiset(w.free) && sw.ps == w.ps
            else k.ours == old(k.ours) && sw.ps == old(sw.ps) && sw.l == old(sw.l) && sw.dev == old(sw.dev)
  {
    hide Good, Image, Exact, Mapneed, Ready, Swapped, FreeAfter, Held, ResourceMap.Holds, ResourceMap.Canonical, ResourceMap.InUse;
    ghost var im := Image(k.mem[..], k.m.ents);
    ImageSize(k.mem[..], k.m.ents);
    Expand(k, sw, n, n + d, w);
    Inserted(im, Image(k.mem[..], k.m.ents), at, d);
    ShiftPages(k, n, at, d);
  }

  /** The last d pages become cleared ones at entry at. */
  method ShiftPages(k: Core, n: int, at: int, d: int)
    requires k.Valid() && 0 <= at <= n && 0 < d && |k.m.ents| == n + d
    modifies k`m, k.mem
    ensures k.Valid()
    ensures var im := old(Image(k.mem[..], k.m.ents));
            |im| == n + d && Image(k.mem[..], k.m.ents) == EndMoved(im, n, at, d)[..at] + Blanks(d) + EndMoved(im, n, at, d)[at + d..]
  {
    hide Good, Image, Exact, Held;
    ImageSize(k.mem[..], k.m.ents);
    Rotate(k, at, n, n + d);
    ClearPages(k, at + d, d);
  }

  lemma ImageSize(mem: seq<Page>, ents: seq<int>)
    ensures |Image(mem, ents)| == |ents|
  {
  }

  /** The image with its last d pages at entry at. */
  ghost function EndMoved(im: seq<Page>, n: int, at: int, d: int): (r: seq<Page>)
    requires 0 <= at <= n && 0 < d && |im| == n + d
    ensures |r| == |im|
  {
    im[..at] + im[n..n + d] + im[at..n] + im[n + d..]
  }

  lemma Inserted(im: seq<Page>, im1: seq<Page>, at: int, d: int)
    requires 0 <= at <= |im| && 0 < d && |im1| == |im| + d && im1[..|im|] == im
    ensures var n := |im|;
            var im2 := EndMoved(im1, n, at, d);
            im2[..at] + Blanks(d) + im2[at + d..] == im[..at] + Blanks(d) + im[at..]
  {
    var n := |im|;
    var im2 := im1[..at] + im1[n..n + d] + im1[at..n] + im1[n + d..];
    assert im1[..n][..at] == im1[..at] && im1[..n][at..] == im1[at..n];
    assert im2[..at] == im1[..at];
    assert im2[at + d..] == im1[at..n];
  }

  /** The d pages from entry at on are freed, and what is behind them moves up. */
  method RemovePages(k: Core, sw: SwapArea, n: int, at: int, d: int, w: World)
    requires k.Valid() && sw.Valid() && n == |k.m.ents| && 0 <= at && 0 <= d && at + d <= n
    modifies k, k.mem, sw, sw.swapmap
    ensures k.Valid() && sw.Valid() && |k.free| == FreeAfter(n, n - d, |old(k.free)|, w)
    ensures var im := old(Image(k.mem[..], k.m.ents)); Image(k.mem[..], k.m.ents) == im[..at] + im[at + d..]
    ensures k.ours == old(k.ours) && sw.ps == old(sw.ps) && sw.l == old(sw.l) && sw.dev == old(sw.dev)
  {
    hide Good, Image, Exact, Mapneed, FreeAfter, ResourceMap.Holds, ResourceMap.Canonical, ResourceMap.InUse;
    ghost var im := Image(k.mem[..], k.m.ents);
    MapBound(k.mem[..], k.free, k.m, k.ours);
    Rotate(k, at, at + d, n);
    Expand(k, sw, n, n - d, w);
    Removed(im, at, d);
  }

  lemma MapBound(mem: seq<Page>, free: seq<int>, m: Map, ours: multiset<int>)
    requires Good(mem, free, m, ours)
    ensures |m.ents| <= NPM * NPM
  {
    hide Own;
    if m.ents != [] {
      EntAt(mem, free, m, ours, |m.ents| - 1);
    }
  }

  lemma Removed(im: seq<Page>, at: int, d: int)
    requires 0 <= at && 0 <= d && at + d <= |im|
    ensures var n := |im|; (im[..at] + im[at + d..n] + im[at..at + d] + im[n..])[..n - d] == im[..at] + im[at + d..]
  {
  }

  // ---- the system calls ----

  /** roomfor: core for the pages to come, or swap space to move the image out of the way. */
  ghost predicate Room(n: int, newsize: int, nfree: int, l: seq<ResourceMap.Run>) {
    newsize <= n || Mapneed(n, newsize) <= nfree || ResourceMap.HasRoom(l, SwapSize(newsize))
  }

  method Roomfor(k: Core, sw: SwapArea, n: int, newsize: int) returns (ok: bool)
    requires sw.Valid() && 0 <= n
    ensures ok == Room(n, newsize, |k.free|, sw.l)
  {
    if newsize <= n || Mapneed(n, newsize) <= |k.free| {
      return true;
    }
    ok := ResourceMap.SwapFits(sw.swapmap, SwapSize(newsize), sw.l);
  }

  /** The data kept, pages of zeros for what is new, and the stack. */
  function Broken(im: seq<Page>, dsize: nat, nd: nat): seq<Page>
    requires dsize <= |im|
  {
    if nd > dsize then im[..dsize] + Blanks(nd - dsize) + im[dsize..] else im[..nd] + im[dsize..]
  }

  /** The page of the image at user page pg: data from ds on, the stack up to the top of user space; -1 for neither. */
  function IndexAt(l: PageBuild.Layout, pg: int): int {
    if l.ds <= pg < l.ds + l.nd then pg - l.ds
    else if 0xC0000 - l.ns <= pg < 0xC0000 then l.nd + pg - (0xC0000 - l.ns)
    else -1
  }

  /** Every user page that was there and still is has kept its contents, and every new one is zeros. */
  ghost predicate SpaceKept(l: PageBuild.Layout, l': PageBuild.Layout, im: seq<Page>, im': seq<Page>) {
    forall pg {:trigger IndexAt(l', pg)} :: IndexAt(l', pg) >= 0 ==>
      && IndexAt(l', pg) < |im'|
      && if IndexAt(l, pg) < 0 then im'[IndexAt(l', pg)] == Cleared()
         else IndexAt(l, pg) < |im| && im'[IndexAt(l', pg)] == im[IndexAt(l, pg)]
  }

  ghost predicate StackApart(l: PageBuild.Layout) {
    l.ns <= PageTables.TOP && PageTables.Apart(l.ds, l.nd, PageTables.TOP - l.ns, l.ns)
  }

  lemma BrokenAt(im: seq<Page>, a: nat, d: nat)
    requires a <= |im|
    ensures |Broken(im, a, d)| == |im| - a + d
    ensures forall i {:trigger Broken(im, a, d)[i]} :: 0 <= i < |im| - a + d ==>
              Broken(im, a, d)[i] == if i < d then if i < a then im[i] else Cleared() else im[a + i - d]
  {
    hide Cleared;
  }

  lemma BrokenKeeps(l: PageBuild.Layout, l': PageBuild.Layout, im: seq<Page>, d: nat)
    requires |im| == l.nd + l.ns && StackApart(l) && StackApart(l') && d == l'.nd + l'.ns - l.ns
    requires l' == l.(nd := l'.nd, xrw := l'.xrw) || (l' == l.(ns := l'.ns, xrw := l'.xrw) && l.ns <= l'.ns)
    ensures SpaceKept(l, l', im, Broken(im, l.nd, d))
  {
    BrokenAt(im, l.nd, d);
    hide Cleared, Broken;
    forall pg | IndexAt(l', pg) >= 0
      ensures var i, j := IndexAt(l, pg), IndexAt(l', pg);
              j < |im| - l.nd + d && if i < 0 then l.nd <= j < d else i < |im| && i == if j < d then j else l.nd + j - d
      ensures var i, j := IndexAt(l, pg), IndexAt(l', pg); i >= 0 && j < d ==> j < l.nd
    {
    }
  }

  lemma BrokenSpace(l: PageBuild.Layout, l': PageBuild.Layout, im: seq<Page>, im': seq<Page>, d: nat, maxmem: int)
    requires |im| == l.nd + l.ns && PageBuild.Accepted(l', maxmem) && d == l'.nd + l'.ns - l.ns && im' == Broken(im, l.nd, d)
    requires l' == l.(nd := l'.nd, xrw := l'.xrw) || (l' == l.(ns := l'.ns, xrw := l'.xrw) && l.ns <= l'.ns)
    ensures StackApart(l) ==> SpaceKept(l, l', im, im')
  {
    hide Broken, SpaceKept;
    if StackApart(l) {
      BrokenKeeps(l, l', im, d);
    }
  }

  /** The pages of data up to byte nsiz, in the unsigned arithmetic of the source. */
  function NewData(nsiz: nat, ds: nat): nat {
    var n := (nsiz + 4095) % 0x1_0000_0000 / 4096 - ds;
    if n < 0 then 0 else n
  }

  /** The data end on the page of the byte before nsiz, unless nsiz is before them or wraps round. */
  predicate LeastData(nsiz: nat, ds: nat, nd: nat) {
    && (nsiz <= 0xFFFF_F000 ==> nsiz <= (ds + nd) * 4096)
    && (nd == 0 || (ds + nd - 1) * 4096 < nsiz)
    && (nsiz <= ds * 4096 || 0xFFFF_F000 < nsiz < 0x1_0000_0000 ==> nd == 0)
  }

  lemma NewDataLeast(nsiz: nat, ds: nat)
    ensures LeastData(nsiz, ds, NewData(nsiz, ds))
  {
    var a := (nsiz + 4095) % 0x1_0000_0000;
    assert a / 4096 * 4096 <= a < a / 4096 * 4096 + 4096;
  }

  /** estabur accepts an image of these many pages, and no more than a map can list. */
  lemma Fitting(l: PageBuild.Layout, maxmem: int)
    requires PageBuild.Accepted(l, maxmem)
    ensures l.nd + l.ns <= PageTables.TOP <= NPM * NPM
  {
  }

  /** The call is granted: there is room, and the sizes are good. */
  ghost predicate Granted(k: Core, sw: SwapArea, l: PageBuild.Layout, l': PageBuild.Layout, maxmem: int)
    reads k, sw
  {
    Room(l.nd + l.ns, l'.nd + l'.ns, |k.free|, sw.l) && PageBuild.Accepted(l', maxmem)
  }

  /** sbreak to the page of byte nsiz, in a process of the sizes l. */
  method Sbreak(k: Core, sw: SwapArea, l: PageBuild.Layout, nsiz: nat, maxmem: int, w: World) returns (ok: bool, l': PageBuild.Layout)
    requires k.Valid() && sw.Valid() && l.nd + l.ns == |k.m.ents|
    requires var l1 := l.(nd := NewData(nsiz, l.ds), xrw := PageTables.RO);
             Granted(k, sw, l, l1, maxmem) ==> Ready(k, sw, l.nd + l.ns, l1.nd + l.ns, w)
    modifies k, k.mem, sw, sw.swapmap
    ensures k.Valid() && sw.Valid()
    ensures ok == old(Granted(k, sw, l, l.(nd := NewData(nsiz, l.ds), xrw := PageTables.RO), maxmem))
    ensures !ok ==> l' == l && k.m == old(k.m) && k.free == old(k.free) && k.mem[..] == old(k.mem[..]) && sw.l == old(sw.l)
    ensures ok ==> l' == l.(nd := NewData(nsiz, l.ds), xrw := PageTables.RO) && |k.m.ents| == l'.nd + l'.ns
    ensures ok && nsiz <= 0xFFFF_F000 ==> nsiz <= (l'.ds + l'.nd) * 4096
    ensures ok ==> l'.nd == 0 || (l'.ds + l'.nd - 1) * 4096 < nsiz
    ensures ok && 0xFFFF_F000 < nsiz < 0x1_0000_0000 ==> l'.nd == 0
    ensures ok ==> Image(k.mem[..], k.m.ents) == Broken(old(Image(k.mem[..], k.m.ents)), l.nd, l'.nd)
    ensures ok && StackApart(l) ==> SpaceKept(l, l', old(Image(k.mem[..], k.m.ents)), Image(k.mem[..], k.m.ents))
    ensures ok ==> |k.free| == FreeAfter(l.nd + l.ns, l'.nd + l'.ns, |old(k.free)|, w)
    ensures ok ==> if Swapped(l.nd + l.ns, l'.nd + l'.ns, |old(k.free)|) then k.ours == multiset(w.free) && sw.ps == w.ps
                   else k.ours == old(k.ours) && sw.l == old(sw.l) && sw.ps == old(sw.ps)
  {
    hide Good, Image, Exact, Mapneed, Ready, Swapped, FreeAfter, Room, PageBuild.Accepted, SpaceKept, StackApart;
    hide ResourceMap.Holds, ResourceMap.Canonical, ResourceMap.InUse;
    NewDataLeast(nsiz, l.ds);
    var n, nd := l.nd + l.ns, NewData(nsiz, l.ds);
    l' := l;
    ok := Roomfor(k, sw, n, nd + l.ns);
    if !ok {
      return;
    }
    var l1 := l.(nd := nd, xrw := PageTables.RO);
    ok := PageBuild.Accepted(l1, maxmem);
    if !ok {
      return;
    }
    Fitting(l1, maxmem);
    l' := l1;
    if nd > l.nd {
      InsertPages(k, sw, n, l.nd, nd - l.nd, w);
    } else {
      NotSwapped(n, nd + l.ns, |k.free|);
      RemovePages(k, sw, n, nd, l.nd - nd, w);
    }
    BrokenSpace(l, l', old(Image(k.mem[..], k.m.ents)), Image(k.mem[..], k.m.ents), l'.nd + l'.ns - l.ns, maxmem);
  }

  lemma NotSwapped(n: int, newsize: int, nfree: int)
    requires newsize <= n
    ensures !Swapped(n, newsize, nfree)
  {
  }

  const SINCR := 1

  /** The pages that grow adds for a fault at byte sp: down to the page of sp, and one more. */
  function StackMore(sp: nat, ns: nat): int { (PageTables.TOP * 4096 - sp) / 4096 - ns + SINCR }

  /** grow, for a fault at byte sp of a process of the sizes l: pages of zeros between the data and the stack. */
  method Grow(k: Core, sw: SwapArea, l: PageBuild.Layout, sp: nat, maxmem: int, w: World) returns (ok: bool, l': PageBuild.Layout)
    requires k.Valid() && sw.Valid() && l.nd + l.ns == |k.m.ents| && l.ns <= PageTables.TOP
    requires sp < (PageTables.TOP - l.ns) * 4096 ==>
               var l1 := l.(ns := l.ns + StackMore(sp, l.ns), xrw := PageTables.RO);
               Granted(k, sw, l, l1, maxmem) ==> Ready(k, sw, l.nd + l.ns, l1.nd + l1.ns, w)
    modifies k, k.mem, sw, sw.swapmap
    ensures k.Valid() && sw.Valid()
    ensures ok == (sp < (PageTables.TOP - l.ns) * 4096 &&
                   old(Granted(k, sw, l, l.(ns := l.ns + StackMore(sp, l.ns), xrw := PageTables.RO), maxmem)))
    ensures !ok ==> l' == l && k.m == old(k.m) && k.free == old(k.free) && k.mem[..] == old(k.mem[..]) && sw.l == old(sw.l)
    ensures ok ==> l.ns < l'.ns && l' == l.(ns := l'.ns, xrw := PageTables.RO)
    ensures ok ==> (0xC0000 - l'.ns) * 4096 < sp <= (0xC0000 - l'.ns + 1) * 4096
    ensures ok ==> |k.m.ents| == l'.nd + l'.ns && Image(k.mem[..], k.m.ents) == Broken(old(Image(k.mem[..], k.m.ents)), l.nd, l.nd + l'.ns - l.ns)
    ensures ok && StackApart(l) ==> SpaceKept(l, l', old(Image(k.mem[..], k.m.ents)), Image(k.mem[..], k.m.ents))
    ensures ok ==> |k.free| == FreeAfter(l.nd + l.ns, l'.nd + l'.ns, |old(k.free)|, w)
    ensures ok ==> if Swapped(l.nd + l.ns, l'.nd + l'.ns, |old(k.free)|) then k.ours == multiset(w.free) && sw.ps == w.ps
                   else k.ours == old(k.ours) && sw.l == old(sw.l) && sw.ps == old(sw.ps)
  {
    hide Good, Image, Exact, Mapneed, Ready, Swapped, FreeAfter, Room, PageBuild.Accepted, SpaceKept, StackApart;
    hide ResourceMap.Holds, ResourceMap.Canonical, ResourceMap.InUse;
    ok, l' := false, l;
    if sp >= (PageTables.TOP - l.ns) * 4096 {
      return;
    }
    StackPages(sp, l.ns);
    var n, si := l.nd + l.ns, StackMore(sp, l.ns);
    ok := Roomfor(k, sw, n, n + si);
    if !ok {
      return;
    }
    var l1 := l.(ns := l.ns + si, xrw := PageTables.RO);
    ok := PageBuild.Accepted(l1, maxmem);
    if !ok {
      return;
    }
    Fitting(l1, maxmem);
    l' := l1;
    InsertPages(k, sw, n, l.nd, si, w);
    BrokenSpace(l, l', old(Image(k.mem[..], k.m.ents)), Image(k.mem[..], k.m.ents), l'.nd + l'.ns - l.ns, maxmem);
  }

  lemma StackPages(sp: nat, ns: nat)
    requires sp < (PageTables.TOP - ns) * 4096
    ensures 0 < StackMore(sp, ns)
    ensures var n := ns + StackMore(sp, ns); (PageTables.TOP - n) * 4096 < sp <= (PageTables.TOP - n + 1) * 4096
  {
    var q := (PageTables.TOP * 4096 - sp) / 4096;
    assert q * 4096 <= PageTables.TOP * 4096 - sp < (q + 1) * 4096;
  }
}
