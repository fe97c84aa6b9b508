/** Files as blocks: bmap (usr/sys/sys/subr.c). */
module FsFile {
  import opened FsTree
  import opened FsGraft
  import opened FsStore
  import opened FsAttach
  import opened FsPaths
  import opened FsBlocks
  import opened Fs

  // ---- the contents of a file ----

  ghost function RootFor(inode: Inode, bn: int): Root
    requires 0 <= bn < LIMIT && |inode.addr| == NADDR
  {
    Root(Level(SlotOf(bn)), inode.addr[SlotOf(bn)])
  }

  /** The bytes of logical block bn. */
  ghost function FileBlock(disk: seq<Block>, inode: Inode, bn: int): (s: seq<int>)
    requires 0 <= bn < LIMIT && |inode.addr| == NADDR
    ensures |s| == BSIZE
  {
    Contents(disk, RootFor(inode, bn), PathOf(bn))
  }

  ghost predicate Shapely(inodes: seq<Inode>) {
    forall i :: 0 <= i < |inodes| ==> |inodes[i].addr| == NADDR
  }

  /** No file has changed, hole or not. */
  ghost predicate SameBlocks(disk: seq<Block>, inodes: seq<Inode>, disk': seq<Block>, inodes': seq<Inode>) {
    && Shapely(inodes) && Shapely(inodes') && |inodes| == |inodes'|
    && (forall i :: 0 <= i < |inodes| ==> inodes'[i].size == inodes[i].size)
    && forall i, bn :: 0 <= i < |inodes| && 0 <= bn < LIMIT ==>
         FileBlock(disk', inodes'[i], bn) == FileBlock(disk, inodes[i], bn)
  }

  lemma FilesToBlocks(disk: seq<Block>, inodes: seq<Inode>, disk': seq<Block>, inodes': seq<Inode>)
    requires Shapely(inodes) && Shapely(inodes') && |inodes| == |inodes'|
    requires forall i :: 0 <= i < |inodes| ==> inodes'[i].size == inodes[i].size
    requires SameFiles(disk, Roots(inodes), disk', Roots(inodes'))
    ensures SameBlocks(disk, inodes, disk', inodes')
  {
    hide Contents, PathOf, SlotOf;
    forall i, bn | 0 <= i < |inodes| && 0 <= bn < LIMIT
      ensures FileBlock(disk', inodes'[i], bn) == FileBlock(disk, inodes[i], bn)
    {
      RootOf(inodes, i, SlotOf(bn));
      RootOf(inodes', i, SlotOf(bn));
    }
  }

  /** Every logical block is where it was, but for block bn of file ip. */
  ghost predicate SamePlaces(disk: seq<Block>, inodes: seq<Inode>, disk': seq<Block>, inodes': seq<Inode>, ip: int, bn: int) {
    && Shapely(inodes) && Shapely(inodes') && |inodes| == |inodes'|
    && forall i, c :: 0 <= i < |inodes| && 0 <= c < LIMIT && (i != ip || c != bn) ==>
         Physical(disk', inodes'[i], c) == Physical(disk, inodes[i], c)
  }

  lemma PathsToPlaces(disk: seq<Block>, inodes: seq<Inode>, disk': seq<Block>, inodes': seq<Inode>, ip: int, bn: int)
    requires Shapely(inodes) && Shapely(inodes') && |inodes| == |inodes'| && 0 <= ip < |inodes| && 0 <= bn < LIMIT
    requires SamePaths(disk, Roots(inodes), disk', Roots(inodes'), NADDR * ip + SlotOf(bn), PathOf(bn))
    ensures SamePlaces(disk, inodes, disk', inodes', ip, bn)
  {
    hide Walk, PathOf, SlotOf, Roots;
    forall i, c | 0 <= i < |inodes| && 0 <= c < LIMIT && (i != ip || c != bn)
      ensures Physical(disk', inodes'[i], c) == Physical(disk, inodes[i], c)
    {
      RootOf(inodes, i, SlotOf(c));
      RootOf(inodes', i, SlotOf(c));
      RootIndex(|inodes|, ip, SlotOf(bn));
      RootIndex(|inodes|, i, SlotOf(c));
      if NADDR * i + SlotOf(c) == NADDR * ip + SlotOf(bn) && PathOf(c) <= PathOf(bn) {
        LocateInjective(bn, c);
      }
    }
  }

  lemma PlacesSelf(disk: seq<Block>, inodes: seq<Inode>, ip: int, bn: int)
    requires Shapely(inodes)
    ensures SamePlaces(disk, inodes, disk, inodes, ip, bn)
  {
  }

  lemma PlacesTrans(disk: seq<Block>, inodes: seq<Inode>, disk1: seq<Block>, inodes1: seq<Inode>,
                    disk2: seq<Block>, inodes2: seq<Inode>, ip: int, bn: int)
    requires SamePlaces(disk, inodes, disk1, inodes1, ip, bn) && SamePlaces(disk1, inodes1, disk2, inodes2, ip, bn)
    ensures SamePlaces(disk, inodes, disk2, inodes2, ip, bn)
  {
    hide Physical;
    forall i, c | 0 <= i < |inodes| && 0 <= c < LIMIT && (i != ip || c != bn)
      ensures Physical(disk2, inodes2[i], c) == Physical(disk, inodes[i], c)
    {
      assert Physical(disk1, inodes1[i], c) == Physical(disk, inodes[i], c);
    }
  }

  // ---- new blocks ----

  /** The cleared block that alloc returns becomes address s of inode ip. */
  method GrowRoot(fs: FileSystem, ip: int, s: int, ghost q0: seq<int>) returns (nb: int, err: Error)
    requires fs.Valid(multiset{}) && 0 <= ip < |fs.inodes| && 0 <= s < NADDR && fs.inodes[ip].addr[s] == 0 && |q0| == Level(s) && IsPath(q0)
    modifies fs
    ensures old(fs.groups) == [] ==> fs.groups == []
    ensures fs.Valid(multiset{})
    ensures nb == 0 ==> err == ENOSPC && fs.disk == old(fs.disk) && fs.inodes == old(fs.inodes) && fs.groups == []
    ensures nb != 0 ==> && err == NoError && nb > 0
                        && fs.inodes == old(fs.inodes)[ip := old(fs.inodes)[ip].(addr := old(fs.inodes)[ip].addr[s := nb])]
    ensures SameFiles(old(fs.disk), Roots(old(fs.inodes)), fs.disk, Roots(fs.inodes))
    ensures SamePaths(old(fs.disk), Roots(old(fs.inodes)), fs.disk, Roots(fs.inodes), NADDR * ip + s, q0)
    ensures (nb == 0 <==> NFree(old(fs.groups)) == 0) && NFree(fs.groups) == NFree(old(fs.groups)) - if nb == 0 then 0 else 1
    ensures nb != 0 ==> Deep(fs.disk, nb, q0, 1)
  {
    hide Good, Roots, FreeOf, Forest, SameFiles, SamePaths, NFree, Deep;
    ghost var disk0, roots, r := fs.disk, Roots(fs.inodes), NADDR * ip + s;
    SameSelf(disk0, roots);
    PathsSelf(disk0, roots, r, q0);
    FreeNone(fs.groups);
    nb, err := fs.Alloc(multiset{});
    if nb != 0 {
      ghost var disk1 := fs.disk;
      PositiveData(fs.disk, roots, fs.groups, multiset{} + multiset{nb}, fs.isize, fs.fsize);
      BlankDeep(disk1, nb, q0);
      SameAlloc(disk0, roots, nb);
      PathsApart(disk0, roots, nb, Blank, r, q0);
      RootOf(fs.inodes, ip, s);
      PathsRoot(disk1, roots, r, nb, q0);
      RootsUpdate(fs.inodes, ip, s, nb);
      AttachRoot(disk1, roots, fs.groups, multiset{} + multiset{nb}, fs.isize, fs.fsize, NADDR * ip + s, nb);
      SameRoot(disk1, roots, NADDR * ip + s, nb);
      assert multiset{} + multiset{nb} - multiset{nb} == multiset{};
      fs.inodes := fs.inodes[ip := fs.inodes[ip].(addr := fs.inodes[ip].addr[s := nb])];
      SameTrans(disk0, roots, disk1, roots, disk1, Roots(fs.inodes));
      PathsTrans(disk0, roots, disk1, roots, disk1, Roots(fs.inodes), r, q0);
    }
  }

  lemma PositiveData(disk: seq<Block>, roots: seq<Root>, groups: seq<seq<int>>, held: multiset<int>, lo: int, hi: int)
    requires Good(disk, roots, groups, held, lo, hi)
    ensures 1 <= lo <= hi == |disk|
  {
  }

  /** The cleared block that alloc returns becomes entry i of the indirect block b that path leads to. */
  method GrowNode(fs: FileSystem, ip: int, s: int, ghost path: seq<int>, b: int, i: int, ghost q0: seq<int>) returns (nb: int, err: Error)
    requires fs.Valid(multiset{}) && 0 <= ip < |fs.inodes| && 0 <= s < NADDR
    requires IsPath(path) && |path| < Level(s) == |q0| && 0 <= i < NINDIR && path + [i] <= q0
    requires b != 0 && Walk(fs.disk, fs.inodes[ip].addr[s], path) == b && Entries(fs.disk, b)[i] == 0
    requires Deep(fs.disk, fs.inodes[ip].addr[s], q0, |path| + 1)
    modifies fs
    ensures old(fs.groups) == [] ==> fs.groups == []
    ensures fs.Valid(multiset{}) && fs.inodes == old(fs.inodes)
    ensures nb == 0 ==> err == ENOSPC && fs.disk == old(fs.disk) && fs.groups == []
    ensures nb != 0 ==> err == NoError && nb > 0 && IsPath(path + [i])
                        && Walk(fs.disk, fs.inodes[ip].addr[s], path + [i]) == nb
    ensures SameFiles(old(fs.disk), Roots(old(fs.inodes)), fs.disk, Roots(fs.inodes))
    ensures SamePaths(old(fs.disk), Roots(old(fs.inodes)), fs.disk, Roots(fs.inodes), NADDR * ip + s, q0)
    ensures (nb == 0 <==> NFree(old(fs.groups)) == 0) && NFree(fs.groups) == NFree(old(fs.groups)) - if nb == 0 then 0 else 1
    ensures nb != 0 ==> Deep(fs.disk, fs.inodes[ip].addr[s], q0, |path| + 2)
  {
    hide Good, Roots, FreeOf, Forest, SameFiles, Walk, Tree, Entries, Put, SamePaths, NFree, Deep;
    ghost var disk0, roots, r := fs.disk, Roots(fs.inodes), NADDR * ip + s;
    RootOf(fs.inodes, ip, s);
    SameSelf(disk0, roots);
    PathsSelf(disk0, roots, r, q0);
    NodeShape(disk0, roots, fs.groups, multiset{}, fs.isize, fs.fsize, r, path, b);
    FreeNone(fs.groups);
    nb, err := fs.Alloc(multiset{});
    if nb != 0 {
      ghost var disk1, held := fs.disk, multiset{} + multiset{nb};
      PositiveData(disk1, roots, fs.groups, held, fs.isize, fs.fsize);
      SameAlloc(disk0, roots, nb);
      PathsApart(disk0, roots, nb, Blank, r, q0);
      AllocWalk(disk0, roots, r, path, b, nb);
      PathsApart(disk0, roots, nb, Blank, -1, []);
      DeepFrame(disk0, roots, disk1, r, q0, |path| + 1);
      NodeShape(disk1, roots, fs.groups, held, fs.isize, fs.fsize, r, path, b);
      AttachNode(disk1, roots, fs.groups, held, fs.isize, fs.fsize, r, path, i, b, nb);
      SameNode(disk1, roots, fs.groups, held, fs.isize, fs.fsize, r, path, i, b, nb);
      PathsNode(disk1, roots, fs.groups, held, fs.isize, fs.fsize, r, path, i, b, nb, q0);
      NodeDeep(disk1, roots, fs.groups, held, fs.isize, fs.fsize, r, path, i, b, nb, q0);
      assert held - multiset{nb} == multiset{};
      AddrsOf(disk1, roots[r].level - |path|, b);
      fs.disk := fs.disk[b := Ind(Addrs(fs.disk[b])[i := nb])];
      PutIs(disk1, b, i, nb);
      SameTrans(disk0, roots, disk1, roots, fs.disk, roots);
      PathsTrans(disk0, roots, disk1, roots, fs.disk, roots, r, q0);
    }
  }

  lemma AddrsOf(disk: seq<Block>, level: nat, b: int)
    requires level > 0 && Shaped(disk, level, b)
    ensures Addrs(disk[b]) == Entries(disk, b)
  {
  }

  lemma PutIs(disk: seq<Block>, b: int, i: int, nb: int)
    requires 0 <= b < |disk| && 0 <= i < NINDIR
    ensures Put(disk, b, i, nb) == disk[b := Ind(Entries(disk, b)[i := nb])]
  {
  }

  /** Clearing a block outside all trees moves no path. */
  lemma AllocWalk(disk: seq<Block>, roots: seq<Root>, r: int, path: seq<int>, b: int, nb: int)
    requires 0 <= r < |roots| && IsPath(path) && |path| < roots[r].level
    requires 0 <= nb < |disk| && nb !in Forest(disk, roots) && b != 0 && Walk(disk, roots[r].bn, path) == b
    ensures Walk(disk[nb := Blank], roots[r].bn, path) == b && nb != b
    ensures Entries(disk[nb := Blank], b) == Entries(disk, b)
  {
    hide Forest, Tree, Walk;
    InForest(disk, roots, r);
    WalkInTree(disk, roots[r].level, roots[r].bn, path);
    WalkFrame(disk, disk[nb := Blank], roots[r].level, roots[r].bn, path);
  }

  /** The first logical block reached with k levels of indirection, less one. */
  function Base(k: int): int { if k == 0 then 10 else if k == 1 then 138 else if k == 2 then 16522 else LIMIT }

  /** The loop of bmap that finds the number of levels: j is 3, 2 or 1 for 1, 2 or 3 of them, and 0 for none. */
  method Levels(bn: int) returns (j: int, w: int)
    requires bn >= 10
    ensures 0 <= j <= 3 && (j == 0 <==> bn >= LIMIT)
    ensures j > 0 ==> SlotOf(bn) == NADDR - j && Within(bn) == w
  {
    var unit := 1;
    j, w := 3, bn - 10;
    while j > 0
      invariant 0 <= j <= 3 && unit == Unit(3 - j) && w == bn - Base(3 - j) && w >= 0
    {
      unit := unit * 128;
      if w < unit {
        break;
      }
      w := w - unit;
      j := j - 1;
    }
  }

  /** One turn of the loop of bmap through the indirect blocks: from block b, after t of them, to the next. */
  method StepDown(fs: FileSystem, ip: int, s: int, w: int, t: int, b: int, write: bool, ghost d: int, ghost disk0: seq<Block>)
    returns (nb: int, err: Error, ghost d': int)
    requires fs.Valid(multiset{}) && 0 <= ip < |fs.inodes| && 0 <= s < NADDR && 0 <= t < Level(s)
    requires b != 0 && Walk(fs.disk, fs.inodes[ip].addr[s], Digits(Level(s), w)[..t]) == b
    requires Deep(fs.disk, fs.inodes[ip].addr[s], Digits(Level(s), w), d)
    requires SameFiles(disk0, Roots(fs.inodes), fs.disk, Roots(fs.inodes))
    requires SamePaths(disk0, Roots(fs.inodes), fs.disk, Roots(fs.inodes), NADDR * ip + s, Digits(Level(s), w))
    modifies fs
    ensures old(fs.groups) == [] ==> fs.groups == []
    ensures fs.Valid(multiset{}) && fs.inodes == old(fs.inodes)
    ensures SameFiles(disk0, Roots(fs.inodes), fs.disk, Roots(fs.inodes))
    ensures SamePaths(disk0, Roots(fs.inodes), fs.disk, Roots(fs.inodes), NADDR * ip + s, Digits(Level(s), w))
    ensures Walk(fs.disk, fs.inodes[ip].addr[s], Digits(Level(s), w)[..t + 1]) == nb
    ensures Deep(fs.disk, fs.inodes[ip].addr[s], Digits(Level(s), w), d') && NFree(fs.groups) == NFree(old(fs.groups)) + d - d'
    ensures if d' == d then fs.disk == old(fs.disk) else write && d == t + 1
    ensures if nb != 0 then err == NoError
            else if write then err == ENOSPC && fs.groups == [] && d' == t + 1 && NFree(old(fs.groups)) == 0 else err == NoError
  {
    hide Good, Roots, Walk, SameFiles, Entries, Digits, SamePaths, NFree, Deep;
    var level := Level(s);
    ghost var path, roots, r, disk1 := Digits(level, w), Roots(fs.inodes), NADDR * ip + s, fs.disk;
    RootOf(fs.inodes, ip, s);
    NodeShape(fs.disk, roots, fs.groups, multiset{}, fs.isize, fs.fsize, r, path[..t], b);
    AddrsOf(fs.disk, level - t, b);
    var i := (w / Unit(level - 1 - t)) % NINDIR;
    assert path[..t + 1] == path[..t] + [i];
    WalkAppend(fs.disk, fs.inodes[ip].addr[s], path[..t], i);
    DeepAt(fs.disk, fs.inodes[ip].addr[s], path, d, t);
    nb, err, d' := Addrs(fs.disk[b])[i], NoError, d;
    if nb == 0 && write {
      nb, err := GrowNode(fs, ip, s, path[..t], b, i, path);
      SameTrans(disk0, roots, disk1, roots, fs.disk, roots);
      PathsTrans(disk0, roots, disk1, roots, fs.disk, roots, r, path);
      d' := if nb == 0 then d else d + 1;
    }
  }

  /** The loop of bmap through the indirect blocks under address s, to block w below it. */
  method Descend(fs: FileSystem, ip: int, s: int, w: int, write: bool, ghost d0: int) returns (nb: int, err: Error)
    requires fs.Valid(multiset{}) && 0 <= ip < |fs.inodes| && 0 <= s < NADDR && fs.inodes[ip].addr[s] != 0
    requires Deep(fs.disk, fs.inodes[ip].addr[s], Digits(Level(s), w), d0)
    modifies fs
    ensures old(fs.groups) == [] ==> fs.groups == []
    ensures fs.Valid(multiset{}) && fs.inodes == old(fs.inodes)
    ensures SameFiles(old(fs.disk), Roots(fs.inodes), fs.disk, Roots(fs.inodes))
    ensures SamePaths(old(fs.disk), Roots(fs.inodes), fs.disk, Roots(fs.inodes), NADDR * ip + s, Digits(Level(s), w))
    ensures !write || d0 == Level(s) + 1 ==> fs.disk == old(fs.disk) && NFree(fs.groups) == NFree(old(fs.groups))
    ensures write ==>
              var d := if nb == -1 then d0 + NFree(old(fs.groups)) else Level(s) + 1;
              && (nb == -1 <==> d0 + NFree(old(fs.groups)) < Level(s) + 1)
              && NFree(fs.groups) == NFree(old(fs.groups)) + d0 - d
              && Deep(fs.disk, fs.inodes[ip].addr[s], Digits(Level(s), w), d)
    ensures var ph := Walk(fs.disk, fs.inodes[ip].addr[s], Digits(Level(s), w));
            if nb == -1 then if write then err == ENOSPC && fs.groups == [] else err == NoError && ph == 0
            else err == NoError && nb == ph && nb > 0
  {
    hide Good, Roots, Walk, SameFiles, Entries, Digits, SamePaths, NFree, Deep;
    var level := Level(s);
    ghost var path, roots, r, disk0 := Digits(level, w), Roots(fs.inodes), NADDR * ip + s, fs.disk;
    RootOf(fs.inodes, ip, s);
    SameSelf(fs.disk, roots);
    PathsSelf(fs.disk, roots, r, path);
    nb := fs.inodes[ip].addr[s];
    WalkNone(fs.disk, nb);
    assert path[..0] == [];
    ghost var d, free := d0, NFree(fs.groups);
    DeepPath(fs.disk, nb, path, d0);
    var t := 0;
    while t < level
      invariant fs.Valid(multiset{}) && fs.inodes == old(fs.inodes)
      invariant 0 <= t <= level && nb != 0 && Walk(fs.disk, fs.inodes[ip].addr[s], path[..t]) == nb
      invariant SameFiles(disk0, roots, fs.disk, roots) && SamePaths(disk0, roots, fs.disk, roots, r, path)
      invariant !write || d0 == level + 1 ==> fs.disk == disk0 && d == d0
      invariant Deep(fs.disk, fs.inodes[ip].addr[s], path, d) && NFree(fs.groups) == free + d0 - d
      invariant old(fs.groups) == [] ==> fs.groups == []
    {
      nb, err, d := StepDown(fs, ip, s, w, t, nb, write, d, disk0);
      if nb == 0 {
        if !write {
          WalkZero(fs.disk, fs.inodes[ip].addr[s], path, t + 1);
        }
        return -1, err;
      }
      t := t + 1;
    }
    assert path[..t] == path;
    DeepEnd(fs.disk, fs.inodes[ip].addr[s], path, d);
    NodeShape(fs.disk, roots, fs.groups, multiset{}, fs.isize, fs.fsize, r, path, nb);
    PositiveData(fs.disk, roots, fs.groups, multiset{}, fs.isize, fs.fsize);
    err := NoError;
  }

  lemma DeepPath(disk: seq<Block>, b: int, q: seq<int>, d: int)
    requires Deep(disk, b, q, d)
    ensures IsPath(q) && 0 <= d <= |q| + 1
  {
  }

  /** Where the path has come to an end. */
  lemma DeepAt(disk: seq<Block>, b: int, q: seq<int>, d: int, t: int)
    requires Deep(disk, b, q, d) && 0 <= t < |q| && Walk(disk, b, q[..t]) != 0
    ensures Walk(disk, b, q[..t + 1]) == 0 <==> d == t + 1
  {
    hide Walk;
  }

  lemma DeepEnd(disk: seq<Block>, b: int, q: seq<int>, d: int)
    requires Deep(disk, b, q, d) && Walk(disk, b, q) != 0
    ensures d == |q| + 1
  {
    hide Walk;
    assert q[..|q|] == q;
  }

  lemma WalkNone(disk: seq<Block>, b: int)
    ensures Walk(disk, b, []) == b
  {
  }

  // ---- which blocks a write takes ----

  ghost function SpaceAt(disk: seq<Block>, inode: Inode, groups: seq<seq<int>>): Space
    requires |inode.addr| == NADDR
  {
    Space(Have(disk, inode), NFree(groups))
  }

  /** The path of bn goes to depth d now, and all others are as they were. */
  lemma HaveGrows(disk: seq<Block>, inodes: seq<Inode>, disk': seq<Block>, inodes': seq<Inode>, ip: int, bn: int, d0: int, d: int)
    requires Shapely(inodes) && Shapely(inodes') && |inodes| == |inodes'| && 0 <= ip < |inodes| && 0 <= bn < LIMIT
    requires SamePaths(disk, Roots(inodes), disk', Roots(inodes'), NADDR * ip + SlotOf(bn), PathOf(bn))
    requires Deep(disk, inodes[ip].addr[SlotOf(bn)], PathOf(bn), d0) && Deep(disk', inodes'[ip].addr[SlotOf(bn)], PathOf(bn), d)
    requires d0 <= d
    ensures Have(disk', inodes'[ip]) == Have(disk, inodes[ip]) + NodesUpTo(bn, d)
  {
    hide Walk, PathOf, SlotOf, Roots, Have, NodesUpTo;
    forall c, k | 0 <= c < LIMIT && 0 <= k <= |PathOf(c)|
      ensures Present(disk', inodes'[ip], c, k) <==>
              Present(disk, inodes[ip], c, k) || Place(SlotOf(c), PathOf(c)[..k]) in NodesUpTo(bn, d)
    {
      PresentGrows(disk, inodes, disk', inodes', ip, bn, d0, d, c, k);
    }
    HaveUnion(disk, inodes[ip], disk', inodes'[ip], bn, d);
  }

  lemma HaveUnion(disk: seq<Block>, inode: Inode, disk': seq<Block>, inode': Inode, bn: int, d: int)
    requires |inode.addr| == NADDR == |inode'.addr| && 0 <= bn < LIMIT && d <= |PathOf(bn)| + 1
    requires forall c, k :: 0 <= c < LIMIT && 0 <= k <= |PathOf(c)| ==>
               (Present(disk', inode', c, k) <==>
                Present(disk, inode, c, k) || Place(SlotOf(c), PathOf(c)[..k]) in NodesUpTo(bn, d))
    ensures Have(disk', inode') == Have(disk, inode) + NodesUpTo(bn, d)
  {
    hide PathOf, SlotOf, Present;
    forall p
      ensures p in Have(disk', inode') <==> p in Have(disk, inode) + NodesUpTo(bn, d)
    {
      if p in NodesUpTo(bn, d) {
        var k :| 0 <= k < d && p == Place(SlotOf(bn), PathOf(bn)[..k]);
        HaveIn(disk', inode', bn, k);
        assert Present(disk', inode', bn, k);
      }
      if p in Have(disk, inode) {
        var c, k :| 0 <= c < LIMIT && 0 <= k <= |PathOf(c)| && Present(disk, inode, c, k) && p == Place(SlotOf(c), PathOf(c)[..k]);
        assert Present(disk', inode', c, k);
      }
    }
  }

  lemma PresentGrows(disk: seq<Block>, inodes: seq<Inode>, disk': seq<Block>, inodes': seq<Inode>, ip: int, bn: int, d0: int, d: int,
                     c: int, k: int)
    requires Shapely(inodes) && Shapely(inodes') && |inodes| == |inodes'| && 0 <= ip < |inodes| && 0 <= bn < LIMIT
    requires SamePaths(disk, Roots(inodes), disk', Roots(inodes'), NADDR * ip + SlotOf(bn), PathOf(bn))
    requires Deep(disk, inodes[ip].addr[SlotOf(bn)], PathOf(bn), d0) && Deep(disk', inodes'[ip].addr[SlotOf(bn)], PathOf(bn), d)
    requires d0 <= d && 0 <= c < LIMIT && 0 <= k <= |PathOf(c)|
    ensures Present(disk', inodes'[ip], c, k) <==>
            Present(disk, inodes[ip], c, k) || Place(SlotOf(c), PathOf(c)[..k]) in NodesUpTo(bn, d)
  {
    hide Walk, PathOf, SlotOf, Roots, NodesUpTo;
    var q := PathOf(c)[..k];
    NodesIn(bn, d, c, k);
    if SlotOf(c) == SlotOf(bn) && q <= PathOf(bn) {
      assert |q| == k && q == PathOf(bn)[..k];
    } else {
      RootOf(inodes, ip, SlotOf(c));
      RootOf(inodes', ip, SlotOf(c));
      assert IsPath(q);
      assert NADDR * ip + SlotOf(c) == NADDR * ip + SlotOf(bn) ==> SlotOf(c) == SlotOf(bn);
    }
  }

  /** The account after the path of bn has been followed, and filled as far as there were blocks. */
  lemma SpaceTaken(s0: Space, s1: Space, bn: int, d0: int, d: int)
    requires 0 <= bn < LIMIT && Lacking(s0, bn) == |PathOf(bn)| + 1 - d0
    requires d == if d0 + s0.free < |PathOf(bn)| + 1 then d0 + s0.free else |PathOf(bn)| + 1
    requires s1 == Space(s0.have + NodesUpTo(bn, d), s0.free + d0 - d)
    ensures s1 == TakeBlock(s0, bn)
  {
    hide NodesUpTo;
  }

  // ---- bmap ----

  /** What following the path of bn to depth d has done to the files and to the space. */
  lemma MapEnd(disk: seq<Block>, inodes: seq<Inode>, groups: seq<seq<int>>, disk': seq<Block>, inodes': seq<Inode>,
               groups': seq<seq<int>>, ip: int, bn: int, d0: int, d: int)
    requires Shapely(inodes) && Shapely(inodes') && |inodes| == |inodes'| && 0 <= ip < |inodes| && 0 <= bn < LIMIT
    requires forall i :: 0 <= i < |inodes| ==> inodes'[i].size == inodes[i].size
    requires SameFiles(disk, Roots(inodes), disk', Roots(inodes'))
    requires SamePaths(disk, Roots(inodes), disk', Roots(inodes'), NADDR * ip + SlotOf(bn), PathOf(bn))
    requires Deep(disk, inodes[ip].addr[SlotOf(bn)], PathOf(bn), d0) && Deep(disk', inodes'[ip].addr[SlotOf(bn)], PathOf(bn), d)
    requires d0 <= d
    ensures SameBlocks(disk, inodes, disk', inodes') && SamePlaces(disk, inodes, disk', inodes', ip, bn)
    ensures var s := SpaceAt(disk, inodes[ip], groups);
            var n := |PathOf(bn)| + 1;
            NFree(groups') == NFree(groups) + d0 - d && d == (if d0 + NFree(groups) < n then d0 + NFree(groups) else n) ==>
              && (d < n <==> Lacking(s, bn) > s.free)
              && SpaceAt(disk', inodes'[ip], groups') == TakeBlock(s, bn)
  {
    hide SameFiles, SameBlocks, SamePlaces, SamePaths, Deep, Roots, Have, NFree, NodesUpTo, Lacking, TakeBlock, Walk, PathOf, SlotOf;
    FilesToBlocks(disk, inodes, disk', inodes');
    PathsToPlaces(disk, inodes, disk', inodes', ip, bn);
    HaveGrows(disk, inodes, disk', inodes', ip, bn, d0, d);
    LackSize(disk, inodes[ip], bn, d0);
    LackIs(disk, inodes[ip], groups, bn);
    var s := SpaceAt(disk, inodes[ip], groups);
    var n := |PathOf(bn)| + 1;
    if NFree(groups') == NFree(groups) + d0 - d && d == if d0 + NFree(groups) < n then d0 + NFree(groups) else n {
      SpaceTaken(s, SpaceAt(disk', inodes'[ip], groups'), bn, d0, d);
    }
  }

  /** The part of bmap from the address in the inode on: slot s, and block w below it. */
  method MapBlock(fs: FileSystem, ip: int, bn: int, s: int, w: int, write: bool) returns (nb: int, err: Error)
    requires fs.Valid(multiset{}) && 0 <= ip < |fs.inodes| && 0 <= bn < LIMIT && s == SlotOf(bn) && Digits(Level(s), w) == PathOf(bn)
    modifies fs
    ensures old(fs.groups) == [] ==> fs.groups == []
    ensures fs.Valid(multiset{}) && |fs.inodes| == |old(fs.inodes)|
    ensures SameBlocks(old(fs.disk), old(fs.inodes), fs.disk, fs.inodes)
    ensures SamePlaces(old(fs.disk), old(fs.inodes), fs.disk, fs.inodes, ip, bn)
    ensures !write ==> fs.disk == old(fs.disk) && fs.inodes == old(fs.inodes) && NFree(fs.groups) == NFree(old(fs.groups))
    ensures if nb == -1 then if write then err == ENOSPC && fs.groups == []
                             else err == NoError && Physical(fs.disk, fs.inodes[ip], bn) == 0
            else err == NoError && nb == Physical(fs.disk, fs.inodes[ip], bn) && nb > 0
    ensures Physical(old(fs.disk), old(fs.inodes)[ip], bn) != 0 ==>
              fs.disk == old(fs.disk) && fs.inodes == old(fs.inodes) && nb == Physical(old(fs.disk), old(fs.inodes)[ip], bn)
    ensures var s := SpaceAt(old(fs.disk), old(fs.inodes)[ip], old(fs.groups));
            write ==> (nb == -1 <==> Lacking(s, bn) > s.free) && SpaceAt(fs.disk, fs.inodes[ip], fs.groups) == TakeBlock(s, bn)
  {
    hide Good, Roots, Walk, SameFiles, SameBlocks, Digits, SamePaths, SamePlaces, NFree, Deep, Have, NodesUpTo, Lacking, TakeBlock;
    hide PathOf, SlotOf;
    ghost var disk0, inodes0, groups0 := fs.disk, fs.inodes, fs.groups;
    ghost var r, path := NADDR * ip + s, PathOf(bn);
    SameSelf(disk0, Roots(inodes0));
    PathsSelf(disk0, Roots(inodes0), r, path);
    ghost var d0 := DeepIs(disk0, inodes0[ip].addr[s], path);
    PhysicalDeep(disk0, inodes0[ip], bn, d0);
    MapEnd(disk0, inodes0, groups0, disk0, inodes0, groups0, ip, bn, d0, d0);
    ghost var d := d0;
    if fs.inodes[ip].addr[s] == 0 {
      EmptyDeep(disk0, path, d0);
      if !write {
        WalkEmpty(fs.disk, path);
        return -1, NoError;
      }
      nb, err := GrowRoot(fs, ip, s, path);
      if nb == 0 {
        MapEnd(disk0, inodes0, groups0, fs.disk, fs.inodes, fs.groups, ip, bn, d0, d0);
        return -1, ENOSPC;
      }
      d := 1;
    }
    ghost var disk1, inodes1 := fs.disk, fs.inodes;
    ghost var free1 := NFree(fs.groups);
    nb, err := Descend(fs, ip, s, w, write, d);
    SameTrans(disk0, Roots(inodes0), disk1, Roots(inodes1), fs.disk, Roots(fs.inodes));
    PathsTrans(disk0, Roots(inodes0), disk1, Roots(inodes1), fs.disk, Roots(fs.inodes), r, path);
    if write {
      d := if nb == -1 then d + free1 else |path| + 1;
      MapEnd(disk0, inodes0, groups0, fs.disk, fs.inodes, fs.groups, ip, bn, d0, d);
    }
  }

  /**
   * bmap: the physical block of logical block bn of file ip; for a write it
   * is made if need be. There is none for a write exactly if fewer blocks are
   * free than are missing on the way to it.
   */
  method Bmap(fs: FileSystem, ip: int, bn: int, write: bool) returns (nb: int, err: Error)
    requires fs.Valid(multiset{}) && 0 <= ip < |fs.inodes|
    modifies fs
    ensures old(fs.groups) == [] ==> fs.groups == []
    ensures fs.Valid(multiset{}) && |fs.inodes| == |old(fs.inodes)|
    ensures SameBlocks(old(fs.disk), old(fs.inodes), fs.disk, fs.inodes)
    ensures SamePlaces(old(fs.disk), old(fs.inodes), fs.disk, fs.inodes, ip, bn)
    ensures !write || !(0 <= bn < LIMIT) ==> fs.disk == old(fs.disk) && fs.inodes == old(fs.inodes) && NFree(fs.groups) == NFree(old(fs.groups))
    ensures !(0 <= bn < LIMIT) ==> nb == 0 && err == EFBIG
    ensures 0 <= bn < LIMIT ==>
              if nb == -1 then if write then err == ENOSPC && fs.groups == []
                               else err == NoError && Physical(fs.disk, fs.inodes[ip], bn) == 0
              else err == NoError && nb == Physical(fs.disk, fs.inodes[ip], bn) && nb > 0
    ensures 0 <= bn < LIMIT && !(write && nb == -1) ==> AddressIs(fs.disk, fs.inodes[ip].addr, bn, if nb == -1 then 0 else nb)
    ensures 0 <= bn < LIMIT && Physical(old(fs.disk), old(fs.inodes)[ip], bn) != 0 ==>
              fs.disk == old(fs.disk) && fs.inodes == old(fs.inodes) && nb == Physical(old(fs.disk), old(fs.inodes)[ip], bn)
    ensures var s := SpaceAt(old(fs.disk), old(fs.inodes)[ip], old(fs.groups));
            write && 0 <= bn < LIMIT ==>
              (nb == -1 <==> Lacking(s, bn) > s.free) && SpaceAt(fs.disk, fs.inodes[ip], fs.groups) == TakeBlock(s, bn)
  {
    hide Good, Roots, SameFiles, SameBlocks, Digits, SamePlaces, NFree, Have, Lacking, TakeBlock, Physical, AddressIs;
    if bn < 0 || bn >= LIMIT {
      SameSelf(fs.disk, Roots(fs.inodes));
      FilesToBlocks(fs.disk, fs.inodes, fs.disk, fs.inodes);
      PlacesSelf(fs.disk, fs.inodes, ip, bn);
    }
    if bn < 0 {
      return 0, EFBIG;
    }
    var s, w := bn, 0;
    if bn >= NADDR - 3 {
      var j;
      j, w := Levels(bn);
      if j == 0 {
        return 0, EFBIG;
      }
      s := NADDR - j;
    }
    nb, err := MapBlock(fs, ip, bn, s, w, write);
    PhysicalIs(fs.disk, fs.inodes[ip], bn);
  }

  lemma LackIs(disk: seq<Block>, inode: Inode, groups: seq<seq<int>>, bn: int)
    requires |inode.addr| == NADDR && 0 <= bn < LIMIT
    ensures Lacking(SpaceAt(disk, inode, groups), bn) == |Nodes(bn) - Have(disk, inode)|
  {
    hide Have, NFree, Nodes;
  }

  lemma PhysicalDeep(disk: seq<Block>, inode: Inode, bn: int, d: int)
    requires |inode.addr| == NADDR && 0 <= bn < LIMIT && Deep(disk, inode.addr[SlotOf(bn)], PathOf(bn), d)
    ensures 0 <= d <= |PathOf(bn)| + 1 && (Physical(disk, inode, bn) != 0 <==> d == |PathOf(bn)| + 1)
  {
    hide Walk, PathOf, SlotOf;
    var q := PathOf(bn);
    assert q[..|q|] == q;
  }

  lemma EmptyDeep(disk: seq<Block>, q: seq<int>, d: int)
    requires Deep(disk, 0, q, d)
    ensures d == 0
  {
    assert q[..0] == [];
  }

  lemma WalkEmpty(disk: seq<Block>, path: seq<int>)
    requires IsPath(path)
    ensures Walk(disk, 0, path) == 0
  {
  }

  lemma BlocksTrans(disk: seq<Block>, inodes: seq<Inode>, disk1: seq<Block>, inodes1: seq<Inode>,
                    disk2: seq<Block>, inodes2: seq<Inode>)
    requires SameBlocks(disk, inodes, disk1, inodes1) && SameBlocks(disk1, inodes1, disk2, inodes2)
    ensures SameBlocks(disk, inodes, disk2, inodes2)
  {
    hide FileBlock;
    forall i, bn | 0 <= i < |inodes| && 0 <= bn < LIMIT
      ensures FileBlock(disk2, inodes2[i], bn) == FileBlock(disk, inodes[i], bn)
    {
      assert FileBlock(disk1, inodes1[i], bn) == FileBlock(disk, inodes[i], bn);
    }
  }
}
