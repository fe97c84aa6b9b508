/**
 * readi and writei of usr/sys/sys/rdwri.c for regular files, against files
 * as bytes.
 */
module FsIo {
  import opened FsTree
  import opened FsStore
  import opened FsAttach
  import opened FsPaths
  import opened FsBlocks
  import opened Fs
  import opened FsFile

  /** The first offset that no block can hold. */
  const SPAN: int := LIMIT * BSIZE

  /** Byte off of a file; a byte never written is 0. */
  ghost function FileByte(disk: seq<Block>, inode: Inode, off: int): int
    requires 0 <= off < SPAN && |inode.addr| == NADDR
  {
    FileBlock(disk, inode, off / BSIZE)[off % BSIZE]
  }

  /** It is byte off % 512 of the block that the addresses give for block off / 512, or 0 in a hole. */
  lemma ByteIs(disk: seq<Block>, inode: Inode, off: int) returns (b: int)
    requires 0 <= off < SPAN && |inode.addr| == NADDR
    ensures 0 <= off / 512 < LIMIT && AddressIs(disk, inode.addr, off / 512, b)
    ensures b == 0 ==> FileByte(disk, inode, off) == 0
    ensures 0 < b < |disk| && disk[b].Data? && |disk[b].bytes| == 512 ==> FileByte(disk, inode, off) == disk[b].bytes[off % 512]
    ensures 0 < b < |disk| && disk[b].Blank? ==> FileByte(disk, inode, off) == 0
  {
    hide AddressIs, Walk, SlotOf, PathOf;
    PhysicalIs(disk, inode, off / 512);
    b := Physical(disk, inode, off / 512);
  }

  /** chunk put over the bytes of s from on. */
  function Splice(s: seq<int>, on: int, chunk: seq<int>): (r: seq<int>)
    requires 0 <= on && on + |chunk| <= |s|
    ensures |r| == |s|
    ensures forall k :: 0 <= k < |s| ==> r[k] == if on <= k < on + |chunk| then chunk[k - on] else s[k]
  {
    s[..on] + chunk + s[on + |chunk|..]
  }

  /** off_t is 32 bits. */
  function Wrap(x: int): int { if x >= 0x8000_0000 then x - 0x1_0000_0000 else x }

  /** Of all blocks of all files, only block bn of file ip differs: it has become bytes. */
  ghost predicate OneBlock(disk: seq<Block>, inodes: seq<Inode>, disk': seq<Block>, ip: int, bn: int, bytes: seq<int>) {
    && Shapely(inodes)
    && forall i, c :: 0 <= i < |inodes| && 0 <= c < LIMIT ==>
         FileBlock(disk', inodes[i], c) == if i == ip && c == bn then bytes else FileBlock(disk, inodes[i], c)
  }

  lemma OneBlockSeen(disk: seq<Block>, inodes: seq<Inode>, groups: seq<seq<int>>, lo: int, hi: int,
                     ip: int, bn: int, b: int, bytes: seq<int>)
    requires Shapely(inodes) && Good(disk, Roots(inodes), groups, multiset{}, lo, hi)
    requires 0 <= ip < |inodes| && 0 <= bn < LIMIT && |bytes| == BSIZE
    requires b == Physical(disk, inodes[ip], bn) && b != 0
    ensures lo <= b < hi && Shaped(disk, 0, b)
    ensures Good(disk[b := Data(bytes)], Roots(inodes), groups, multiset{}, lo, hi)
    ensures OneBlock(disk, inodes, disk[b := Data(bytes)], ip, bn, bytes)
  {
    hide Good, Roots, Walk, PathOf, SlotOf;
    var roots, r := Roots(inodes), NADDR * ip + SlotOf(bn);
    RootOf(inodes, ip, SlotOf(bn));
    NodeShape(disk, roots, groups, multiset{}, lo, hi, r, PathOf(bn), b);
    WriteData(disk, roots, groups, multiset{}, lo, hi, r, PathOf(bn), b, bytes);
    var disk' := disk[b := Data(bytes)];
    forall i, c | 0 <= i < |inodes| && 0 <= c < LIMIT
      ensures FileBlock(disk', inodes[i], c) == if i == ip && c == bn then bytes else FileBlock(disk, inodes[i], c)
    {
      RootOf(inodes, i, SlotOf(c));
      var s := NADDR * i + SlotOf(c);
      WriteSeen(disk, roots, groups, multiset{}, lo, hi, r, PathOf(bn), b, bytes, s, PathOf(c));
      RootIndex(|inodes|, ip, SlotOf(bn));
      RootIndex(|inodes|, i, SlotOf(c));
      if i == ip && SlotOf(c) == SlotOf(bn) && PathOf(c) == PathOf(bn) {
        LocateInjective(bn, c);
      }
    }
  }

  /** A scribble on block 0, which is outside the data area, is in no file. */
  lemma BlockZero(disk: seq<Block>, inodes: seq<Inode>, groups: seq<seq<int>>, lo: int, hi: int, blk: Block)
    requires Shapely(inodes) && Good(disk, Roots(inodes), groups, multiset{}, lo, hi)
    ensures |disk| > 0
    ensures Good(disk[0 := blk], Roots(inodes), groups, multiset{}, lo, hi)
    ensures SameBlocks(disk, inodes, disk[0 := blk], inodes)
  {
    hide Forest, FreeOf, Roots, AllTyped, SameFiles, SameBlocks, GroupOk;
    var roots := Roots(inodes);
    ForestNoZero(disk, roots);
    OutsideForest(disk, roots, 0, blk);
    var disk' := disk[0 := blk];
    forall k | 0 <= k < |groups|
      ensures GroupOk(disk', groups, k)
    {
      GroupZero(disk, groups, k, blk);
    }
    SameZero(disk, roots, blk);
    FilesToBlocks(disk, inodes, disk', inodes);
  }

  /** Nor does it move any block of a file. */
  lemma PlacesZero(disk: seq<Block>, inodes: seq<Inode>, blk: Block, ip: int, bn: int)
    requires Shapely(inodes) && |disk| > 0
    ensures SamePlaces(disk, inodes, disk[0 := blk], inodes, ip, bn)
  {
    hide Physical;
    forall i, c | 0 <= i < |inodes| && 0 <= c < LIMIT
      ensures Physical(disk[0 := blk], inodes[i], c) == Physical(disk, inodes[i], c)
    {
      PlaceZero(disk, inodes, blk, i, c);
    }
  }

  lemma PlaceZero(disk: seq<Block>, inodes: seq<Inode>, blk: Block, i: int, c: int)
    requires Shapely(inodes) && |disk| > 0 && 0 <= i < |inodes| && 0 <= c < LIMIT
    ensures Physical(disk[0 := blk], inodes[i], c) == Physical(disk, inodes[i], c)
  {
    hide Walk, Tree, PathOf, SlotOf;
    var root := RootFor(inodes[i], c);
    NoZero(disk, root.level, root.bn);
    WalkFrame(disk, disk[0 := blk], root.level, root.bn, PathOf(c));
  }

  /** What changes no path leaves the places where there are blocks. */
  lemma HaveKept(disk: seq<Block>, inodes: seq<Inode>, disk': seq<Block>, ip: int)
    requires Shapely(inodes) && 0 <= ip < |inodes| && SamePaths(disk, Roots(inodes), disk', Roots(inodes), -1, [])
    ensures Have(disk', inodes[ip]) == Have(disk, inodes[ip])
  {
    hide Walk, PathOf, SlotOf, Roots, Have;
    forall c, k | 0 <= c < LIMIT && 0 <= k <= |PathOf(c)|
      ensures Present(disk', inodes[ip], c, k) <==> Present(disk, inodes[ip], c, k)
    {
      RootOf(inodes, ip, SlotOf(c));
      RootIndex(|inodes|, ip, SlotOf(c));
      assert IsPath(PathOf(c)[..k]);
    }
    HaveSame(disk, inodes[ip], disk');
  }

  lemma HaveSame(disk: seq<Block>, inode: Inode, disk': seq<Block>)
    requires |inode.addr| == NADDR
    requires forall c, k :: 0 <= c < LIMIT && 0 <= k <= |PathOf(c)| ==> (Present(disk', inode, c, k) <==> Present(disk, inode, c, k))
    ensures Have(disk', inode) == Have(disk, inode)
  {
    hide PathOf, SlotOf, Present;
  }

  lemma HaveZero(disk: seq<Block>, inodes: seq<Inode>, blk: Block, ip: int)
    requires Shapely(inodes) && 0 <= ip < |inodes| && |disk| > 0
    ensures Have(disk[0 := blk], inodes[ip]) == Have(disk, inodes[ip])
  {
    hide SamePaths, Roots;
    ForestNoZero(disk, Roots(inodes));
    PathsApart(disk, Roots(inodes), 0, blk, -1, []);
    HaveKept(disk, inodes, disk[0 := blk], ip);
  }

  lemma HaveData(disk: seq<Block>, inodes: seq<Inode>, groups: seq<seq<int>>, lo: int, hi: int, ip: int, bn: int, b: int, bytes: seq<int>)
    requires Shapely(inodes) && Good(disk, Roots(inodes), groups, multiset{}, lo, hi)
    requires 0 <= ip < |inodes| && 0 <= bn < LIMIT && |bytes| == BSIZE
    requires b == Physical(disk, inodes[ip], bn) && b != 0
    ensures 0 <= b < |disk| && Have(disk[b := Data(bytes)], inodes[ip]) == Have(disk, inodes[ip])
  {
    hide Good, Roots, Walk, PathOf, SlotOf, SamePaths, Have;
    RootOf(inodes, ip, SlotOf(bn));
    PathsData(disk, Roots(inodes), groups, multiset{}, lo, hi, NADDR * ip + SlotOf(bn), PathOf(bn), b, bytes, -1, []);
    HaveKept(disk, inodes, disk[b := Data(bytes)], ip);
  }

  /** Nor does a write to the data block of a place. */
  lemma PlacesData(disk: seq<Block>, inodes: seq<Inode>, groups: seq<seq<int>>, lo: int, hi: int,
                   ip: int, bn: int, b: int, bytes: seq<int>)
    requires Shapely(inodes) && Good(disk, Roots(inodes), groups, multiset{}, lo, hi)
    requires 0 <= ip < |inodes| && 0 <= bn < LIMIT && |bytes| == BSIZE
    requires b == Physical(disk, inodes[ip], bn) && b != 0
    ensures 0 <= b < |disk| && SamePlaces(disk, inodes, disk[b := Data(bytes)], inodes, ip, bn)
  {
    hide Good, Roots, Walk, PathOf, SlotOf, SamePaths, SamePlaces;
    var r := NADDR * ip + SlotOf(bn);
    RootOf(inodes, ip, SlotOf(bn));
    PathsData(disk, Roots(inodes), groups, multiset{}, lo, hi, r, PathOf(bn), b, bytes, r, PathOf(bn));
    PathsToPlaces(disk, inodes, disk[b := Data(bytes)], inodes, ip, bn);
  }

  lemma GroupZero(disk: seq<Block>, groups: seq<seq<int>>, k: int, blk: Block)
    requires 0 <= k < |groups| && GroupOk(disk, groups, k) && |disk| > 0
    ensures GroupOk(disk[0 := blk], groups, k)
  {
  }

  lemma ForestNoZero(disk: seq<Block>, roots: seq<Root>)
    ensures 0 !in Forest(disk, roots)
  {
    hide Tree, Sum;
    var ms := RootTrees(disk, roots);
    forall r | 0 <= r < |roots|
      ensures 0 !in ms[r]
    {
      NoZero(disk, roots[r].level, roots[r].bn);
    }
    if 0 in Sum(ms) {
      var r := SumFind(ms, 0);
    }
  }

  lemma SameZero(disk: seq<Block>, roots: seq<Root>, blk: Block)
    requires |disk| > 0
    ensures SameFiles(disk, roots, disk[0 := blk], roots)
  {
    hide Walk, Tree;
    var disk' := disk[0 := blk];
    forall r, q | 0 <= r < |roots| && IsPath(q) && |q| == roots[r].level
      ensures Contents(disk', roots[r], q) == Contents(disk, roots[r], q)
    {
      NoZero(disk, roots[r].level, roots[r].bn);
      WalkFrame(disk, disk', roots[r].level, roots[r].bn, q);
    }
  }

  // ---- writei ----

  /** File ip has data[..moved] at offset and is otherwise as it was, and so is every other file. */
  ghost predicate Written(disk: seq<Block>, inodes: seq<Inode>, disk': seq<Block>, inodes': seq<Inode>,
                          ip: int, offset: int, data: seq<int>, moved: int)
  {
    && Shapely(inodes) && Shapely(inodes') && |inodes| == |inodes'| && 0 <= moved <= |data|
    && (forall i :: 0 <= i < |inodes| && i != ip ==> inodes'[i].size == inodes[i].size)
    && (forall i, off :: 0 <= i < |inodes| && 0 <= off < SPAN ==>
          FileByte(disk', inodes'[i], off) ==
          if i == ip && offset <= off < offset + moved then data[off - offset] else FileByte(disk, inodes[i], off))
  }

  lemma WrittenNone(disk: seq<Block>, inodes: seq<Inode>, ip: int, offset: int, data: seq<int>)
    requires Shapely(inodes)
    ensures Written(disk, inodes, disk, inodes, ip, offset, data, 0)
  {
  }

  /** What bmap does, or a scribble on block 0, is not a write to any file. */
  lemma WrittenSame(disk: seq<Block>, inodes: seq<Inode>, disk1: seq<Block>, inodes1: seq<Inode>,
                    disk2: seq<Block>, inodes2: seq<Inode>, ip: int, offset: int, data: seq<int>, moved: int)
    requires Written(disk, inodes, disk1, inodes1, ip, offset, data, moved)
    requires SameBlocks(disk1, inodes1, disk2, inodes2)
    ensures Written(disk, inodes, disk2, inodes2, ip, offset, data, moved)
  {
    hide FileBlock;
    forall i, off | 0 <= i < |inodes| && 0 <= off < SPAN
      ensures FileByte(disk2, inodes2[i], off) == FileByte(disk1, inodes1[i], off)
    {
      BlockOf(off);
    }
  }

  lemma BlockOf(off: int)
    requires 0 <= off < SPAN
    ensures 0 <= off / BSIZE < LIMIT && 0 <= off % BSIZE < BSIZE && off == off / BSIZE * BSIZE + off % BSIZE
  {
  }

  lemma SameBlock(a: int, b: int)
    requires 0 <= a && 0 <= b
    ensures a / BSIZE == b / BSIZE ==> a - b == a % BSIZE - b % BSIZE
    ensures a / BSIZE != b / BSIZE ==> a < b / BSIZE * BSIZE || a >= b / BSIZE * BSIZE + BSIZE
  {
  }

  /** One chunk, within one block, more. */
  lemma WrittenMore(disk: seq<Block>, inodes: seq<Inode>, disk1: seq<Block>, inodes1: seq<Inode>, disk2: seq<Block>,
                    ip: int, offset: int, data: seq<int>, moved: int, n: int)
    requires Written(disk, inodes, disk1, inodes1, ip, offset, data, moved) && 0 <= ip < |inodes1|
    requires 0 <= offset + moved < SPAN && 0 < n && moved + n <= |data| && (offset + moved) % BSIZE + n <= BSIZE
    requires var at := offset + moved;
             OneBlock(disk1, inodes1, disk2, ip, at / BSIZE,
                      Splice(FileBlock(disk1, inodes1[ip], at / BSIZE), at % BSIZE, data[moved..moved + n]))
    ensures Written(disk, inodes, disk2, inodes1, ip, offset, data, moved + n)
  {
    hide FileBlock, Splice, OneBlock, FileByte;
    OneBlockShape(disk1, inodes1, disk2, ip, (offset + moved) / BSIZE,
                  Splice(FileBlock(disk1, inodes1[ip], (offset + moved) / BSIZE), (offset + moved) % BSIZE, data[moved..moved + n]));
    forall i, off | 0 <= i < |inodes| && 0 <= off < SPAN
      ensures FileByte(disk2, inodes1[i], off) ==
              if i == ip && offset <= off < offset + moved + n then data[off - offset] else FileByte(disk, inodes[i], off)
    {
      ByteMore(disk1, inodes1, disk2, ip, offset + moved, data[moved..moved + n], i, off);
    }
  }

  lemma OneBlockShape(disk: seq<Block>, inodes: seq<Inode>, disk': seq<Block>, ip: int, bn: int, bytes: seq<int>)
    requires OneBlock(disk, inodes, disk', ip, bn, bytes)
    ensures Shapely(inodes)
  {
  }

  /** One byte after a chunk has been put over the bytes of a block. */
  lemma ByteMore(disk: seq<Block>, inodes: seq<Inode>, disk': seq<Block>, ip: int, at: int, chunk: seq<int>, i: int, off: int)
    requires Shapely(inodes) && 0 <= ip < |inodes| && 0 <= i < |inodes| && 0 <= at < SPAN && 0 <= off < SPAN
    requires at % BSIZE + |chunk| <= BSIZE
    requires OneBlock(disk, inodes, disk', ip, at / BSIZE, Splice(FileBlock(disk, inodes[ip], at / BSIZE), at % BSIZE, chunk))
    ensures FileByte(disk', inodes[i], off) ==
            if i == ip && at <= off < at + |chunk| then chunk[off - at] else FileByte(disk, inodes[i], off)
  {
    hide FileBlock, Splice;
    BlockOf(off);
    BlockOf(at);
    SameBlock(off, at);
    var c, k := off / BSIZE, off % BSIZE;
    assert FileByte(disk, inodes[i], off) == FileBlock(disk, inodes[i], c)[k];
    if i == ip && c == at / BSIZE {
      var bytes := Splice(FileBlock(disk, inodes[ip], at / BSIZE), at % BSIZE, chunk);
      assert FileBlock(disk', inodes[i], c) == bytes;
      assert bytes[k] == if at % BSIZE <= k < at % BSIZE + |chunk| then chunk[k - at % BSIZE] else FileBlock(disk, inodes[i], c)[k];
    } else {
      assert FileBlock(disk', inodes[i], c) == FileBlock(disk, inodes[i], c);
      assert i == ip ==> !(at <= off < at + |chunk|);
    }
  }

  /** The bytes that a buffer for block b holds when it has been read, or is about to be overwritten whole. */
  function Buffer(b: Block): (s: seq<int>)
    ensures |s| == BSIZE
  {
    if b.Data? && |b.bytes| == BSIZE then b.bytes else Zeros(BSIZE)
  }

  /** The body of writei's loop: one block. */
  method WriteChunk(fs: FileSystem, ip: int, at: int, chunk: seq<int>) returns (done: bool, err: Error)
    requires fs.Valid(multiset{}) && 0 <= ip < |fs.inodes| && 0 <= at && 0 < |chunk| <= BSIZE - at % BSIZE
    modifies fs
    ensures old(fs.groups) == [] ==> fs.groups == []
    ensures fs.Valid(multiset{}) && |fs.inodes| == |old(fs.inodes)|
    ensures !done ==> err == ENOSPC && fs.groups == [] && at < SPAN && SameBlocks(old(fs.disk), old(fs.inodes), fs.disk, fs.inodes)
    ensures SamePlaces(old(fs.disk), old(fs.inodes), fs.disk, fs.inodes, ip, at / BSIZE)
    ensures done && at >= SPAN ==>
              && err == EFBIG && |old(fs.disk)| > 0 && fs.inodes == old(fs.inodes)
              && fs.disk == old(fs.disk)[0 := Data(Splice(Buffer(old(fs.disk)[0]), at % BSIZE, chunk))]
              && SameBlocks(old(fs.disk), old(fs.inodes), fs.disk, fs.inodes)
    ensures done && at < SPAN ==>
              && err == NoError
              && exists disk1: seq<Block> :: (
                && SameBlocks(old(fs.disk), old(fs.inodes), disk1, fs.inodes)
                && OneBlock(disk1, fs.inodes, fs.disk, ip, at / BSIZE,
                            Splice(FileBlock(disk1, fs.inodes[ip], at / BSIZE), at % BSIZE, chunk)))
    ensures var s, s' := SpaceAt(old(fs.disk), old(fs.inodes)[ip], old(fs.groups)), SpaceAt(fs.disk, fs.inodes[ip], fs.groups);
            if at < SPAN then (done <==> Lacking(s, at / BSIZE) <= s.free) && s' == TakeBlock(s, at / BSIZE) else s' == s
  {
    hide Good, Roots, SameBlocks, SamePlaces, OneBlock, Splice, Have, NFree, Lacking, TakeBlock;
    var bn, on := at / BSIZE, at % BSIZE;
    var nb;
    nb, err := Bmap(fs, ip, bn, true);
    if nb < 0 {
      return false, err;
    }
    done := true;
    ghost var disk1 := fs.disk;
    if err == EFBIG {
      PositiveData(fs.disk, Roots(fs.inodes), fs.groups, multiset{}, fs.isize, fs.fsize);
      var blk := Data(Splice(Buffer(fs.disk[0]), on, chunk));
      BlockZero(fs.disk, fs.inodes, fs.groups, fs.isize, fs.fsize, blk);
      PlacesZero(fs.disk, fs.inodes, blk, ip, bn);
      HaveZero(fs.disk, fs.inodes, blk, ip);
      fs.disk := fs.disk[0 := blk];
      BlocksTrans(old(fs.disk), old(fs.inodes), disk1, fs.inodes, fs.disk, fs.inodes);
    } else {
      ghost var bytes := Splice(FileBlock(disk1, fs.inodes[ip], bn), on, chunk);
      OneBlockSeen(fs.disk, fs.inodes, fs.groups, fs.isize, fs.fsize, ip, bn, nb, bytes);
      PlacesData(fs.disk, fs.inodes, fs.groups, fs.isize, fs.fsize, ip, bn, nb, bytes);
      HaveData(fs.disk, fs.inodes, fs.groups, fs.isize, fs.fsize, ip, bn, nb, bytes);
      PositiveData(fs.disk, Roots(fs.inodes), fs.groups, multiset{}, fs.isize, fs.fsize);
      BufferIs(fs.disk, fs.inodes[ip], bn, nb);
      fs.disk := fs.disk[nb := Data(Splice(Buffer(fs.disk[nb]), on, chunk))];
      PlacesTrans(old(fs.disk), old(fs.inodes), disk1, fs.inodes, fs.disk, fs.inodes, ip, bn);
    }
  }

  lemma BufferIs(disk: seq<Block>, inode: Inode, bn: int, b: int)
    requires 0 <= bn < LIMIT && |inode.addr| == NADDR && b == Physical(disk, inode, bn) && 0 < b < |disk| && Shaped(disk, 0, b)
    ensures Buffer(disk[b]) == FileBlock(disk, inode, bn)
  {
  }

  lemma WrittenSize(disk: seq<Block>, inodes: seq<Inode>, disk1: seq<Block>, inodes1: seq<Inode>,
                    ip: int, offset: int, data: seq<int>, moved: int, size: int)
    requires Written(disk, inodes, disk1, inodes1, ip, offset, data, moved) && 0 <= ip < |inodes1|
    ensures Written(disk, inodes, disk1, inodes1[ip := inodes1[ip].(size := size)], ip, offset, data, moved)
  {
    var inodes2 := inodes1[ip := inodes1[ip].(size := size)];
    forall i, off | 0 <= i < |inodes| && 0 <= off < SPAN
      ensures FileByte(disk1, inodes2[i], off) == FileByte(disk1, inodes1[i], off)
    {
    }
  }

  /** No logical block has moved, but for those of file ip from offset to end. */
  ghost predicate Unmoved(disk: seq<Block>, inodes: seq<Inode>, disk': seq<Block>, inodes': seq<Inode>,
                          ip: int, offset: int, end: int)
  {
    && Shapely(inodes) && Shapely(inodes') && |inodes| == |inodes'|
    && forall i, c :: 0 <= i < |inodes| && 0 <= c < LIMIT && (i != ip || c < offset / BSIZE || end <= c * BSIZE) ==>
         Physical(disk', inodes'[i], c) == Physical(disk, inodes[i], c)
  }

  lemma UnmovedMore(disk: seq<Block>, inodes: seq<Inode>, disk1: seq<Block>, inodes1: seq<Inode>,
                    disk2: seq<Block>, inodes2: seq<Inode>, ip: int, offset: int, at: int, n: int, end: int)
    requires Unmoved(disk, inodes, disk1, inodes1, ip, offset, end)
    requires 0 <= offset <= at && at + n <= end && 0 < n
    requires SamePlaces(disk1, inodes1, disk2, inodes2, ip, at / BSIZE)
    ensures Unmoved(disk, inodes, disk2, inodes2, ip, offset, end)
  {
    hide Physical;
    forall i, c | 0 <= i < |inodes| && 0 <= c < LIMIT && (i != ip || c < offset / BSIZE || end <= c * BSIZE)
      ensures Physical(disk2, inodes2[i], c) == Physical(disk, inodes[i], c)
    {
      BlockAt(offset, at);
      assert i != ip || c != at / BSIZE;
      assert Physical(disk1, inodes1[i], c) == Physical(disk, inodes[i], c);
    }
  }

  lemma BlockAt(offset: int, at: int)
    requires 0 <= offset <= at
    ensures offset / BSIZE <= at / BSIZE && at / BSIZE * BSIZE <= at
  {
  }

  lemma UnmovedSelf(disk: seq<Block>, inodes: seq<Inode>, ip: int, offset: int, end: int)
    requires Shapely(inodes)
    ensures Unmoved(disk, inodes, disk, inodes, ip, offset, end)
  {
  }

  lemma UnmovedSize(disk: seq<Block>, inodes: seq<Inode>, disk1: seq<Block>, inodes1: seq<Inode>,
                    ip: int, offset: int, end: int, size: int)
    requires Unmoved(disk, inodes, disk1, inodes1, ip, offset, end) && 0 <= ip < |inodes1|
    ensures Unmoved(disk, inodes, disk1, inodes1[ip := inodes1[ip].(size := size)], ip, offset, end)
  {
    var inodes2 := inodes1[ip := inodes1[ip].(size := size)];
    forall i, c | 0 <= i < |inodes| && 0 <= c < LIMIT
      ensures Physical(disk1, inodes2[i], c) == Physical(disk1, inodes1[i], c)
    {
    }
  }

  /** A chunk of a write, with what the whole write has done so far. */
  method WriteStep(fs: FileSystem, ip: int, offset: int, data: seq<int>, moved: int, n: int,
                   ghost disk0: seq<Block>, ghost inodes0: seq<Inode>)
    returns (done: bool, err: Error)
    requires fs.Valid(multiset{}) && 0 <= ip < |fs.inodes| && 0 <= offset && 0 <= moved
    requires 0 < n && moved + n <= |data| && n <= BSIZE - (offset + moved) % BSIZE
    requires Written(disk0, inodes0, fs.disk, fs.inodes, ip, offset, data, moved)
    requires Unmoved(disk0, inodes0, fs.disk, fs.inodes, ip, offset, offset + |data|)
    modifies fs
    ensures old(fs.groups) == [] ==> fs.groups == []
    ensures fs.Valid(multiset{}) && |fs.inodes| == |old(fs.inodes)| && fs.inodes[ip].size == old(fs.inodes)[ip].size
    ensures Written(disk0, inodes0, fs.disk, fs.inodes, ip, offset, data, if done then moved + n else moved)
    ensures Unmoved(disk0, inodes0, fs.disk, fs.inodes, ip, offset, offset + |data|)
    ensures !done ==> err == ENOSPC && fs.groups == [] && offset + moved < SPAN
    ensures done ==> if offset + moved >= SPAN then err == EFBIG else err == NoError && offset + moved + n <= SPAN
    ensures var s, s' := SpaceAt(old(fs.disk), old(fs.inodes)[ip], old(fs.groups)), SpaceAt(fs.disk, fs.inodes[ip], fs.groups);
            var bn := (offset + moved) / BSIZE;
            if offset + moved < SPAN then (done <==> Lacking(s, bn) <= s.free) && s' == TakeBlock(s, bn) else s' == s
  {
    hide Have, NFree, Lacking, TakeBlock, Written, Unmoved, Good, Roots, SameBlocks, SamePlaces, OneBlock, Splice;
    var at := offset + moved;
    ghost var disk1, inodes1 := fs.disk, fs.inodes;
    done, err := WriteChunk(fs, ip, at, data[moved..moved + n]);
    SizesKept(disk1, inodes1, fs.disk, fs.inodes, ip);
    UnmovedMore(disk0, inodes0, disk1, inodes1, fs.disk, fs.inodes, ip, offset, at, n, offset + |data|);
    if !done {
      WrittenSame(disk0, inodes0, disk1, inodes1, fs.disk, fs.inodes, ip, offset, data, moved);
    } else if at >= SPAN {
      WrittenSame(disk0, inodes0, disk1, inodes1, fs.disk, fs.inodes, ip, offset, data, moved);
      WrittenPast(disk0, inodes0, fs.disk, fs.inodes, ip, offset, data, moved, moved + n);
    } else {
      ghost var disk2: seq<Block> :| SameBlocks(disk1, inodes1, disk2, fs.inodes) &&
        OneBlock(disk2, fs.inodes, fs.disk, ip, at / BSIZE,
                 Splice(FileBlock(disk2, fs.inodes[ip], at / BSIZE), at % BSIZE, data[moved..moved + n]));
      WrittenSame(disk0, inodes0, disk1, inodes1, disk2, fs.inodes, ip, offset, data, moved);
      WrittenMore(disk0, inodes0, disk2, fs.inodes, fs.disk, ip, offset, data, moved, n);
      WithinSpan(at, n);
    }
  }

  /** i_size after bytes up to end were moved. */
  function Grown(size: int, end: int): int { if Wrap(end) > size then Wrap(end) else size }

  /** How many of n bytes written at offset are moved when no block is lacking: up to SPAN, and then one chunk. */
  function Moves(offset: int, n: int): int {
    var at := if offset < SPAN then SPAN else offset;
    var most := if offset < 0 then 0 else at - offset + BSIZE - at % BSIZE;
    if n < most then n else most
  }

  // ---- the blocks that a write takes ----

  /** The last of the blocks that n bytes at offset are to go to, and one more; no block is past SPAN. */
  function BlocksEnd(offset: int, n: int): (e: int)
    ensures e <= LIMIT
  {
    var e := (offset + n - 1) / BSIZE + 1;
    if e < LIMIT then e else LIMIT
  }

  /** Fewer blocks are free than are missing on the way to any of the blocks that n bytes at offset are to go to. */
  ghost predicate Short(s: Space, offset: int, n: int) {
    offset >= 0 && n > 0 && |Needs(offset / BSIZE, BlocksEnd(offset, n)) - s.have| > s.free
  }

  /** What becomes of the space, and the first block that there is none for. */
  ghost function TakeWrite(s: Space, offset: int, n: int): Taking {
    if offset < 0 || n <= 0 then Taking(s, 0) else TakeBlocks(s, offset / BSIZE, BlocksEnd(offset, n))
  }

  /** The account of the space after moved bytes of a write. */
  ghost predicate Going(s0: Space, s: Space, offset: int, total: int, moved: int) {
    && 0 <= offset && 0 <= moved < total && (moved > 0 ==> (offset + moved) % BSIZE == 0 && offset + moved <= SPAN)
    && TakeWrite(s0, offset, total) == TakeBlocks(s, (offset + moved) / BSIZE, BlocksEnd(offset, total))
  }

  lemma GoStart(s: Space, offset: int, total: int)
    requires offset >= 0 && total > 0
    ensures Going(s, s, offset, total, 0)
  {
    hide TakeBlocks;
  }

  /** How the end of a chunk lies to the end of its block and of the write. */
  lemma ChunkEnd(offset: int, total: int, moved: int, n: int)
    requires 0 <= offset && 0 <= moved < total
    requires var at := offset + moved; n == if BSIZE - at % BSIZE < total - moved then BSIZE - at % BSIZE else total - moved
    ensures var at, e := offset + moved, BlocksEnd(offset, total);
            && (at < SPAN ==> at / BSIZE < e) && (at >= SPAN ==> at / BSIZE >= e)
            && (at < SPAN && moved + n == total ==> at / BSIZE + 1 == e)
            && (moved + n < total ==> (at + n) % BSIZE == 0 && (at + n) / BSIZE == at / BSIZE + 1)
            && (at < SPAN ==> at + n <= SPAN)
  {
    var at := offset + moved;
    var b, r := at / BSIZE, at % BSIZE;
    assert at == b * BSIZE + r;
    if moved + n < total {
      assert at + n == (b + 1) * BSIZE;
    } else {
      assert offset + total - 1 == b * BSIZE + (r + n - 1);
      assert (offset + total - 1) / BSIZE == b;
    }
    assert b <= (offset + total - 1) / BSIZE;
  }

  lemma GoNext(s0: Space, s: Space, s': Space, offset: int, total: int, moved: int, n: int)
    requires Going(s0, s, offset, total, moved)
    requires var at := offset + moved; n == if BSIZE - at % BSIZE < total - moved then BSIZE - at % BSIZE else total - moved
    requires var at := offset + moved;
             if at < SPAN then Lacking(s, at / BSIZE) <= s.free && s' == TakeBlock(s, at / BSIZE) else s' == s
    ensures if moved + n == total || offset + moved >= SPAN then TakeWrite(s0, offset, total) == Taking(s', BlocksEnd(offset, total))
            else Going(s0, s', offset, total, moved + n)
  {
    hide Lacking, TakeBlock, TakeWrite;
    ChunkEnd(offset, total, moved, n);
    var b, e := (offset + moved) / BSIZE, BlocksEnd(offset, total);
    if offset + moved < SPAN {
      assert TakeBlocks(s, b, e) == TakeBlocks(s', b + 1, e);
    }
  }

  lemma GoStop(s0: Space, s: Space, offset: int, total: int, moved: int)
    requires Going(s0, s, offset, total, moved) && offset + moved < SPAN && Lacking(s, (offset + moved) / BSIZE) > s.free
    ensures var w := TakeWrite(s0, offset, total);
            && w == Taking(TakeBlock(s, (offset + moved) / BSIZE), (offset + moved) / BSIZE) && w.stop < BlocksEnd(offset, total)
            && moved == if w.stop * BSIZE > offset then w.stop * BSIZE - offset else 0
  {
    hide Lacking, TakeBlock;
    var at := offset + moved;
    ChunkEnd(offset, total, moved, if BSIZE - at % BSIZE < total - moved then BSIZE - at % BSIZE else total - moved);
    assert at == at / BSIZE * BSIZE + at % BSIZE;
  }

  lemma ShortIff(s: Space, offset: int, total: int)
    requires s.free >= 0
    ensures Short(s, offset, total) <==> offset >= 0 && total > 0 && TakeWrite(s, offset, total).stop < BlocksEnd(offset, total)
  {
    hide TakeBlocks, Needs;
    if offset >= 0 && total > 0 {
      StopIff(s, offset / BSIZE, BlocksEnd(offset, total));
    }
  }

  lemma SizeSpace(disk: seq<Block>, inode: Inode, groups: seq<seq<int>>, size: int)
    requires |inode.addr| == NADDR
    ensures SpaceAt(disk, inode.(size := size), groups) == SpaceAt(disk, inode, groups)
  {
    hide PathOf, SlotOf, Walk, NFree;
  }

  /** writei's update of i_size. */
  method GrowSize(fs: FileSystem, ip: int, offset: int, data: seq<int>, moved: int, ghost disk0: seq<Block>, ghost inodes0: seq<Inode>)
    requires fs.Valid(multiset{}) && 0 <= ip < |fs.inodes|
    requires Written(disk0, inodes0, fs.disk, fs.inodes, ip, offset, data, moved)
    requires Unmoved(disk0, inodes0, fs.disk, fs.inodes, ip, offset, offset + |data|)
    modifies fs`inodes
    ensures fs.Valid(multiset{}) && |fs.inodes| == |old(fs.inodes)|
    ensures Written(disk0, inodes0, fs.disk, fs.inodes, ip, offset, data, moved)
    ensures Unmoved(disk0, inodes0, fs.disk, fs.inodes, ip, offset, offset + |data|)
    ensures SpaceAt(fs.disk, fs.inodes[ip], fs.groups) == SpaceAt(fs.disk, old(fs.inodes)[ip], fs.groups)
    ensures fs.inodes[ip].size == Grown(old(fs.inodes)[ip].size, offset + moved)
  {
    hide Written, Unmoved, Good, Roots, SpaceAt;
    var end := Wrap(offset + moved);
    if end > fs.inodes[ip].size {
      RootsSize(fs.inodes, ip, end);
      WrittenSize(disk0, inodes0, fs.disk, fs.inodes, ip, offset, data, moved, end);
      SizeSpace(fs.disk, fs.inodes[ip], fs.groups, end);
      UnmovedSize(disk0, inodes0, fs.disk, fs.inodes, ip, offset, offset + |data|, end);
      fs.inodes := fs.inodes[ip := fs.inodes[ip].(size := end)];
    }
  }

  /** One turn of writei's loop: a chunk, i_size, and the account of the space. */
  method WriteTurn(fs: FileSystem, ip: int, offset: int, data: seq<int>, moved: int, ghost disk0: seq<Block>, ghost inodes0: seq<Inode>,
                   ghost s0: Space)
    returns (moved': int, err: Error)
    requires fs.Valid(multiset{}) && 0 <= ip < |fs.inodes| && Going(s0, SpaceAt(fs.disk, fs.inodes[ip], fs.groups), offset, |data|, moved)
    requires Written(disk0, inodes0, fs.disk, fs.inodes, ip, offset, data, moved)
    requires Unmoved(disk0, inodes0, fs.disk, fs.inodes, ip, offset, offset + |data|)
    modifies fs
    ensures old(fs.groups) == [] ==> fs.groups == []
    ensures fs.Valid(multiset{}) && |fs.inodes| == |old(fs.inodes)| && moved <= moved' <= |data|
    ensures Written(disk0, inodes0, fs.disk, fs.inodes, ip, offset, data, moved')
    ensures Unmoved(disk0, inodes0, fs.disk, fs.inodes, ip, offset, offset + |data|)
    ensures fs.inodes[ip].size == if moved' == moved then old(fs.inodes)[ip].size else Grown(old(fs.inodes)[ip].size, offset + moved')
    ensures moved' == moved <==> err == ENOSPC
    ensures err == ENOSPC ==> fs.groups == [] && offset + moved < SPAN
    ensures err != ENOSPC ==> if offset + moved >= SPAN then err == EFBIG else err == NoError && offset + moved' <= SPAN
    ensures var at := offset + moved;
            err != ENOSPC ==> moved' - moved == if BSIZE - at % BSIZE < |data| - moved then BSIZE - at % BSIZE else |data| - moved
    ensures var s, w := SpaceAt(fs.disk, fs.inodes[ip], fs.groups), TakeWrite(s0, offset, |data|);
            if err == ENOSPC then
              && s == w.s && w.stop < BlocksEnd(offset, |data|)
              && moved' == if w.stop * BSIZE > offset then w.stop * BSIZE - offset else 0
            else if moved' == |data| || err != NoError then w == Taking(s, BlocksEnd(offset, |data|))
            else Going(s0, s, offset, |data|, moved')
  {
    hide Written, Unmoved, Good, Roots, SpaceAt, TakeWrite, Lacking, TakeBlock;
    var at := offset + moved;
    var n := BSIZE - at % BSIZE;
    n := if n < |data| - moved then n else |data| - moved;
    var done;
    ghost var s := SpaceAt(fs.disk, fs.inodes[ip], fs.groups);
    moved' := moved;
    done, err := WriteStep(fs, ip, offset, data, moved, n, disk0, inodes0);
    if !done {
      GoStop(s0, s, offset, |data|, moved);
    } else {
      GoNext(s0, s, SpaceAt(fs.disk, fs.inodes[ip], fs.groups), offset, |data|, moved, n);
      moved' := moved + n;
      GrowSize(fs, ip, offset, data, moved', disk0, inodes0);
    }
  }

  /**
   * writei for a regular file. It moves all of data, unless fewer blocks are
   * free than it needs or the file would pass SPAN. In the first case it moves
   * what goes to the blocks before the first that there is none for; in the
   * second the chunk that does not fit is scribbled on block 0 and counted in
   * i_size.
   */
  method Writei(fs: FileSystem, ip: int, offset: int, data: seq<int>) returns (moved: int, err: Error)
    requires fs.Valid(multiset{}) && 0 <= ip < |fs.inodes| && offset < 0x8000_0000
    modifies fs
    ensures old(fs.groups) == [] ==> fs.groups == []
    ensures fs.Valid(multiset{}) && |fs.inodes| == |old(fs.inodes)| && 0 <= moved <= |data|
    ensures Written(old(fs.disk), old(fs.inodes), fs.disk, fs.inodes, ip, offset, data, moved)
    ensures Unmoved(old(fs.disk), old(fs.inodes), fs.disk, fs.inodes, ip, offset, offset + |data|)
    ensures fs.inodes[ip].size == if moved == 0 then old(fs.inodes)[ip].size
                                  else Grown(old(fs.inodes)[ip].size, offset + moved)
    ensures err != ENOSPC ==> moved == Moves(offset, |data|)
    ensures err == EINVAL <==> offset < 0
    ensures err == NoError ==> moved == |data| && (data != [] ==> offset + |data| <= SPAN)
    ensures err == EINVAL ==> moved == 0
    ensures err == ENOSPC ==> moved < |data| && fs.groups == [] && offset + moved < SPAN
    ensures err == EFBIG ==> moved > 0 && SPAN < offset + moved
    ensures var s := SpaceAt(old(fs.disk), old(fs.inodes)[ip], old(fs.groups));
            var w := TakeWrite(s, offset, |data|);
            && (err == ENOSPC <==> Short(s, offset, |data|))
            && SpaceAt(fs.disk, fs.inodes[ip], fs.groups) == w.s
            && (err == ENOSPC ==> moved == if w.stop * BSIZE > offset then w.stop * BSIZE - offset else 0)
  {
    hide Written, Unmoved, Good, Roots, SpaceAt, TakeWrite, Short, Going, Lacking, TakeBlock;
    ghost var disk0, inodes0, size0 := fs.disk, fs.inodes, fs.inodes[ip].size;
    ghost var s0 := SpaceAt(fs.disk, fs.inodes[ip], fs.groups);
    SpaceFree(fs.disk, fs.inodes[ip], fs.groups);
    ShortIff(s0, offset, |data|);
    NoTake(s0, offset, |data|);
    WrittenNone(fs.disk, fs.inodes, ip, offset, data);
    UnmovedSelf(fs.disk, fs.inodes, ip, offset, offset + |data|);
    moved, err := 0, NoError;
    if offset < 0 {
      return 0, EINVAL;
    }
    if data == [] {
      return;
    }
    GoStart(s0, offset, |data|);
    while true
      invariant fs.Valid(multiset{}) && |fs.inodes| == |inodes0|
      invariant Going(s0, SpaceAt(fs.disk, fs.inodes[ip], fs.groups), offset, |data|, moved)
      invariant 0 <= moved < |data| && err == NoError && (moved > 0 ==> offset + moved <= SPAN)
      invariant old(fs.groups) == [] ==> fs.groups == []
      invariant Written(disk0, inodes0, fs.disk, fs.inodes, ip, offset, data, moved)
      invariant Unmoved(disk0, inodes0, fs.disk, fs.inodes, ip, offset, offset + |data|)
      invariant fs.inodes[ip].size == if moved == 0 then size0 else Grown(size0, offset + moved)
      decreases |data| - moved
    {
      ghost var was := moved;
      GoAt(s0, SpaceAt(fs.disk, fs.inodes[ip], fs.groups), offset, |data|, moved);
      moved, err := WriteTurn(fs, ip, offset, data, moved, disk0, inodes0, s0);
      if err != NoError || moved == |data| {
        MovesTo(offset, |data|, was, moved, err);
        return;
      }
      GrownTwice(size0, offset + was, offset + moved);
    }
  }

  lemma GoAt(s0: Space, s: Space, offset: int, total: int, moved: int)
    requires Going(s0, s, offset, total, moved)
    ensures moved > 0 ==> (offset + moved) % BSIZE == 0
  {
    hide TakeWrite, TakeBlocks;
  }

  lemma GrownTwice(size: int, end: int, end': int)
    requires 0 <= end <= end' <= SPAN
    ensures Grown(Grown(size, end), end') == Grown(size, end')
  {
  }

  /** What the last turn leaves is all that was to be moved. */
  lemma MovesTo(offset: int, total: int, moved: int, moved': int, err: Error)
    requires 0 <= offset && 0 <= moved < total && (moved > 0 ==> (offset + moved) % BSIZE == 0 && offset + moved <= SPAN)
    requires err != ENOSPC ==> if offset + moved >= SPAN then err == EFBIG else err == NoError && moved' == total && offset + moved' <= SPAN
    requires var at := offset + moved;
             err != ENOSPC ==> moved' - moved == if BSIZE - at % BSIZE < total - moved then BSIZE - at % BSIZE else total - moved
    ensures err != ENOSPC ==> moved' == Moves(offset, total)
  {
  }

  lemma SpaceFree(disk: seq<Block>, inode: Inode, groups: seq<seq<int>>)
    requires |inode.addr| == NADDR
    ensures SpaceAt(disk, inode, groups).free >= 0
  {
    hide Have;
  }

  lemma NoTake(s: Space, offset: int, n: int)
    ensures offset < 0 || n <= 0 ==> TakeWrite(s, offset, n).s == s && !Short(s, offset, n)
  {
    hide TakeBlocks, Needs;
  }

  lemma WithinSpan(at: int, n: int)
    requires 0 <= at < SPAN && at % BSIZE + n <= BSIZE
    ensures at + n <= SPAN
  {
    BlockOf(at);
  }

  lemma SizesKept(disk: seq<Block>, inodes: seq<Inode>, disk1: seq<Block>, inodes1: seq<Inode>, ip: int)
    requires (exists d: seq<Block> :: SameBlocks(disk, inodes, d, inodes1)) && 0 <= ip < |inodes1|
    ensures inodes1[ip].size == inodes[ip].size
  {
  }

  /** What is counted past SPAN is in no file. */
  lemma WrittenPast(disk: seq<Block>, inodes: seq<Inode>, disk1: seq<Block>, inodes1: seq<Inode>,
                    ip: int, offset: int, data: seq<int>, moved: int, moved': int)
    requires Written(disk, inodes, disk1, inodes1, ip, offset, data, moved)
    requires offset + moved >= SPAN && moved <= moved' <= |data|
    ensures Written(disk, inodes, disk1, inodes1, ip, offset, data, moved')
  {
    hide FileBlock;
  }

  // ---- readi ----

  /** The bytes of a file from offset to end. */
  ghost predicate IsSlice(disk: seq<Block>, inode: Inode, offset: int, out: seq<int>)
  {
    && |inode.addr| == NADDR && 0 <= offset && offset + |out| <= SPAN
    && forall k :: 0 <= k < |out| ==> out[k] == FileByte(disk, inode, offset + k)
  }

  lemma SliceMore(disk: seq<Block>, inode: Inode, offset: int, out: seq<int>, n: int)
    requires IsSlice(disk, inode, offset, out) && offset + |out| < SPAN
    requires 0 <= n && (offset + |out|) % BSIZE + n <= BSIZE
    ensures var at := offset + |out|;
            IsSlice(disk, inode, offset, out + FileBlock(disk, inode, at / BSIZE)[at % BSIZE..at % BSIZE + n])
  {
    hide FileBlock;
    var at := offset + |out|;
    var more := FileBlock(disk, inode, at / BSIZE)[at % BSIZE..at % BSIZE + n];
    WithinSpan(at, n);
    forall k | 0 <= k < |out + more|
      ensures (out + more)[k] == FileByte(disk, inode, offset + k)
    {
      if k >= |out| {
        Ahead(at, k - |out|);
      }
    }
  }

  lemma Ahead(at: int, k: int)
    requires 0 <= at && 0 <= k && at % BSIZE + k < BSIZE
    ensures (at + k) / BSIZE == at / BSIZE && (at + k) % BSIZE == at % BSIZE + k
  {
  }

  /** Logical block bn in a buffer: a cleared one for a hole. */
  method ReadBlock(fs: FileSystem, ip: int, bn: int) returns (bytes: seq<int>, err: Error)
    requires fs.Valid(multiset{}) && 0 <= ip < |fs.inodes| && 0 <= bn
    modifies fs
    ensures old(fs.groups) == [] ==> fs.groups == []
    ensures fs.Valid(multiset{}) && fs.disk == old(fs.disk) && fs.inodes == old(fs.inodes)
    ensures if bn < LIMIT then err == NoError && bytes == FileBlock(fs.disk, fs.inodes[ip], bn) else err == EFBIG
  {
    hide Good, Roots, SameBlocks;
    var nb;
    nb, err := Bmap(fs, ip, bn, false);
    bytes := Zeros(BSIZE);
    if err == NoError {
      if nb < 0 {
        HoleIs(fs.disk, fs.inodes[ip], bn);
      } else {
        PhysicalShape(fs, ip, bn, nb);
        BufferIs(fs.disk, fs.inodes[ip], bn, nb);
        bytes := Bytes(fs.disk[nb]);
      }
    }
  }

  /** How many bytes readi delivers. */
  function Readable(size: int, offset: int, count: int): int {
    var end := if size < SPAN then size else SPAN;
    if end <= offset then 0 else if end - offset < count then end - offset else count
  }

  /** readi for a regular file: the bytes of the file, up to i_size or, if that is less, up to SPAN. */
  method Readi(fs: FileSystem, ip: int, offset: int, count: nat) returns (out: seq<int>, err: Error)
    requires fs.Valid(multiset{}) && 0 <= ip < |fs.inodes|
    modifies fs
    ensures old(fs.groups) == [] ==> fs.groups == []
    ensures fs.Valid(multiset{}) && fs.disk == old(fs.disk) && fs.inodes == old(fs.inodes)
    ensures count > 0 && offset < 0 ==> out == [] && err == EINVAL
    ensures offset >= 0 ==> |out| == Readable(fs.inodes[ip].size, offset, count)
    ensures offset >= 0 && out != [] ==> IsSlice(fs.disk, fs.inodes[ip], offset, out)
    ensures offset >= 0 && offset + count <= SPAN ==> err == NoError
  {
    hide Good, Roots, IsSlice, FileBlock;
    out, err := [], NoError;
    if count == 0 {
      return;
    }
    if offset < 0 {
      return [], EINVAL;
    }
    ghost var disk0, inodes0 := fs.disk, fs.inodes;
    if offset < SPAN {
      SliceNone(fs.disk, fs.inodes[ip], offset);
    }
    while true
      invariant fs.Valid(multiset{}) && fs.disk == disk0 && fs.inodes == inodes0 && err == NoError
      invariant old(fs.groups) == [] ==> fs.groups == []
      invariant |out| < count && (out != [] ==> offset + |out| <= SPAN && offset + |out| <= fs.inodes[ip].size)
      invariant offset < SPAN ==> IsSlice(fs.disk, fs.inodes[ip], offset, out)
      decreases count - |out|
    {
      var at := offset + |out|;
      var bn, on := at / BSIZE, at % BSIZE;
      var n := if BSIZE - on < count - |out| then BSIZE - on else count - |out|;
      var diff := fs.inodes[ip].size - at;
      if diff <= 0 {
        return;
      }
      n := if diff < n then diff else n;
      var bytes;
      bytes, err := ReadBlock(fs, ip, bn);
      if err != NoError {
        Beyond(at);
        return;
      }
      WithinSpan(at, n);
      SliceMore(fs.disk, fs.inodes[ip], offset, out, n);
      out := out + bytes[on..on + n];
      if |out| == count {
        return;
      }
    }
  }

  lemma Beyond(at: int)
    requires 0 <= at && at / BSIZE >= LIMIT
    ensures at >= SPAN
  {
  }

  lemma SliceNone(disk: seq<Block>, inode: Inode, offset: int)
    requires 0 <= offset < SPAN && |inode.addr| == NADDR
    ensures IsSlice(disk, inode, offset, [])
  {
  }

  lemma HoleIs(disk: seq<Block>, inode: Inode, bn: int)
    requires 0 <= bn < LIMIT && |inode.addr| == NADDR && Physical(disk, inode, bn) == 0
    ensures FileBlock(disk, inode, bn) == Zeros(BSIZE)
  {
  }

  lemma PhysicalShape(fs: FileSystem, ip: int, bn: int, b: int)
    requires fs.Valid(multiset{}) && 0 <= ip < |fs.inodes| && 0 <= bn < LIMIT
    requires b == Physical(fs.disk, fs.inodes[ip], bn) && b > 0
    ensures 0 < b < |fs.disk| && Shaped(fs.disk, 0, b)
    ensures Buffer(fs.disk[b]) == Bytes(fs.disk[b])
  {
    hide Good, Walk, PathOf, SlotOf;
    RootOf(fs.inodes, ip, SlotOf(bn));
    NodeShape(fs.disk, Roots(fs.inodes), fs.groups, multiset{}, fs.isize, fs.fsize, NADDR * ip + SlotOf(bn), PathOf(bn), b);
    PositiveData(fs.disk, Roots(fs.inodes), fs.groups, multiset{}, fs.isize, fs.fsize);
  }

  // ---- runs ----

  datatype Write = Write(offset: int, data: seq<int>)

  /** The byte that the writes ws, made in turn on an empty file, leave at off. */
  ghost function LastByte(ws: seq<Write>, off: int): int {
    if ws == [] then 0 else
    var w := ws[|ws| - 1];
    if w.offset <= off < w.offset + |w.data| then w.data[off - w.offset] else LastByte(ws[..|ws| - 1], off)
  }

  /** i_size after the writes. */
  ghost function SizeOf(ws: seq<Write>): int {
    if ws == [] then 0 else
    var w, e := ws[|ws| - 1], SizeOf(ws[..|ws| - 1]);
    if w.data == [] then e else Grown(e, w.offset + |w.data|)
  }

  /** As long as ends fit in an offset i_size is the furthest of them. */
  lemma {:induction false} SizeIsFurthest(ws: seq<Write>)
    requires forall k :: 0 <= k < |ws| ==> ws[k].data == [] || ws[k].offset + |ws[k].data| < 0x8000_0000
    ensures SizeOf(ws) >= 0
    ensures forall k :: 0 <= k < |ws| && ws[k].data != [] ==> ws[k].offset + |ws[k].data| <= SizeOf(ws)
    ensures SizeOf(ws) == 0 || exists k :: 0 <= k < |ws| && ws[k].data != [] && ws[k].offset + |ws[k].data| == SizeOf(ws)
  {
    if ws != [] {
      var us := ws[..|ws| - 1];
      SizeIsFurthest(us);
      if k :| 0 <= k < |us| && us[k].data != [] && us[k].offset + |us[k].data| == SizeOf(us) {
        assert ws[k] == us[k];
      }
      assert forall k :: 0 <= k < |us| ==> ws[k] == us[k];
    }
  }

  ghost predicate Holds(disk: seq<Block>, inode: Inode, ws: seq<Write>) {
    && |inode.addr| == NADDR && inode.size == SizeOf(ws)
    && forall off :: 0 <= off < SPAN ==> FileByte(disk, inode, off) == LastByte(ws, off)
  }

  lemma EmptyHolds(disk: seq<Block>, inode: Inode)
    requires inode == Inode(Zeros(NADDR), 0)
    ensures Holds(disk, inode, [])
  {
    forall off | 0 <= off < SPAN
      ensures FileByte(disk, inode, off) == 0
    {
      BlockOf(off);
      HoleIs(disk, inode, off / BSIZE);
    }
  }

  lemma HoldsMore(disk: seq<Block>, inodes: seq<Inode>, disk1: seq<Block>, inodes1: seq<Inode>, ip: int, ws: seq<Write>,
                  offset: int, data: seq<int>, moved: int)
    requires 0 <= ip < |inodes| && Holds(disk, inodes[ip], ws)
    requires Written(disk, inodes, disk1, inodes1, ip, offset, data, moved)
    requires inodes1[ip].size == if moved == 0 then inodes[ip].size else Grown(inodes[ip].size, offset + moved)
    ensures Holds(disk1, inodes1[ip], ws + [Write(offset, data[..moved])])
  {
    hide FileByte;
    var w := Write(offset, data[..moved]);
    assert (ws + [w])[..|ws|] == ws;
  }

  /** The space after the writes ws to an empty file, with n blocks free before them. */
  ghost function SpaceAfter(n: int, ws: seq<Write>): Space {
    if ws == [] then Space({}, n) else
    var w := ws[|ws| - 1];
    TakeWrite(SpaceAfter(n, ws[..|ws| - 1]), w.offset, |w.data|).s
  }

  ghost predicate TooMuch(s: Space, w: Write) { Short(s, w.offset, |w.data|) }

  /** How much is written before a block is lacking. */
  ghost function Fitting(s: Space, w: Write): int {
    var b := TakeWrite(s, w.offset, |w.data|).stop;
    if b * BSIZE > w.offset then b * BSIZE - w.offset else 0
  }

  /** What a call of writei in the space s, which ends with err, has written: all that was asked for but for the two errors. */
  ghost predicate Takes(s: Space, w: Write, err: Error, done: Write) {
    && done.offset == w.offset && done.data <= w.data
    && (err == EINVAL <==> w.offset < 0)
    && (err == ENOSPC <==> TooMuch(s, w))
    && (err == ENOSPC ==> |done.data| < |w.data| && w.offset + |done.data| < SPAN)
    && |done.data| == (if err == ENOSPC then Fitting(s, w) else Moves(w.offset, |w.data|))
    && (err == EFBIG ==> w.data != [] && w.offset + |w.data| > SPAN)
    && (err == NoError ==> done.data == w.data && (w.data != [] ==> w.offset + |w.data| <= SPAN))
  }

  /** The blocks of the data area that no other file than ip has. */
  ghost function Outside(disk: seq<Block>, inodes: seq<Inode>, ip: int, lo: int, hi: int): (n: int)
    requires Shapely(inodes) && 0 <= ip < |inodes|
    ensures n >= 0
  {
    |Unused(disk, Roots(inodes[ip := Inode(Zeros(NADDR), 0)]), lo, hi)|
  }

  /**
   * A file is truncated, written to any number of times, whether or not the
   * calls succeed, and read: every byte read is the last one written there,
   * or zero, and there are as many as i_size and SPAN allow. Which calls run
   * out of space, and how much they write, follows from the blocks that no
   * other file has.
   */
  method Replay(fs: FileSystem, ip: int, ws: seq<Write>, offset: nat, count: nat)
    returns (done: seq<Write>, errs: seq<Error>, out: seq<int>)
    requires fs.Valid(multiset{}) && 0 <= ip < |fs.inodes|
    requires forall i :: 0 <= i < |ws| ==> ws[i].offset < 0x8000_0000
    modifies fs
    ensures fs.Valid(multiset{}) && ip < |fs.inodes|
    ensures var n := old(Outside(fs.disk, fs.inodes, ip, fs.isize, fs.fsize));
            |done| == |ws| == |errs| && forall i :: 0 <= i < |ws| ==> Takes(SpaceAfter(n, ws[..i]), ws[i], errs[i], done[i])
    ensures ENOSPC in errs ==> fs.groups == []
    ensures fs.inodes[ip].size == SizeOf(done)
    ensures |out| == Readable(SizeOf(done), offset, count)
    ensures forall k :: 0 <= k < |out| ==> out[k] == LastByte(done, offset + k)
  {
    hide Holds, Takes, Good, Roots, Written, Unmoved, IsSlice, SizeOf, LastByte, Moves, SpaceAt, SpaceAfter, Unused, TakeWrite, Short, FreeSet;
    ghost var n := Outside(fs.disk, fs.inodes, ip, fs.isize, fs.fsize);
    fs.Itrunc(ip);
    EmptyHolds(fs.disk, fs.inodes[ip]);
    EmptySpace(fs.disk, fs.groups, n);
    done, errs := [], [];
    SpaceStart(n, ws);
    for j := 0 to |ws|
      invariant fs.Valid(multiset{}) && ip < |fs.inodes| && Holds(fs.disk, fs.inodes[ip], done)
      invariant |done| == j == |errs| && forall i :: 0 <= i < j ==> Takes(SpaceAfter(n, ws[..i]), ws[i], errs[i], done[i])
      invariant ENOSPC in errs ==> fs.groups == []
      invariant SpaceAt(fs.disk, fs.inodes[ip], fs.groups) == SpaceAfter(n, ws[..j])
    {
      ghost var disk0, inodes0 := fs.disk, fs.inodes;
      var moved, err := Writei(fs, ip, ws[j].offset, ws[j].data);
      HoldsMore(disk0, inodes0, fs.disk, fs.inodes, ip, done, ws[j].offset, ws[j].data, moved);
      var w := Write(ws[j].offset, ws[j].data[..moved]);
      TakesIs(SpaceAfter(n, ws[..j]), ws[j], err, moved);
      SpaceNext(n, ws, j);
      done, errs := done + [w], errs + [err];
    }
    var err;
    out, err := Readi(fs, ip, offset, count);
    ReadHolds(fs.disk, fs.inodes[ip], done, offset, out);
  }

  lemma EmptySpace(disk: seq<Block>, groups: seq<seq<int>>, n: int)
    requires NFree(groups) == n
    ensures SpaceAt(disk, Inode(Zeros(NADDR), 0), groups) == Space({}, n)
  {
    hide NFree, PathOf, SlotOf;
    var inode := Inode(Zeros(NADDR), 0);
    forall c, k | 0 <= c < LIMIT && 0 <= k <= |PathOf(c)|
      ensures !Present(disk, inode, c, k)
    {
      assert IsPath(PathOf(c)[..k]);
      WalkEmpty(disk, PathOf(c)[..k]);
    }
  }

  lemma SpaceStart(n: int, ws: seq<Write>)
    ensures SpaceAfter(n, ws[..0]) == Space({}, n)
  {
  }

  lemma SpaceNext(n: int, ws: seq<Write>, j: int)
    requires 0 <= j < |ws|
    ensures SpaceAfter(n, ws[..j + 1]) == TakeWrite(SpaceAfter(n, ws[..j]), ws[j].offset, |ws[j].data|).s
  {
    hide TakeWrite;
    assert ws[..j + 1][..j] == ws[..j];
  }

  lemma TakesIs(s: Space, w: Write, err: Error, moved: int)
    requires 0 <= moved <= |w.data| && (err == EINVAL <==> w.offset < 0)
    requires err == NoError ==> moved == |w.data| && (w.data != [] ==> w.offset + |w.data| <= SPAN)
    requires err == ENOSPC ==> moved < |w.data| && w.offset + moved < SPAN && moved == Fitting(s, w)
    requires err != ENOSPC ==> moved == Moves(w.offset, |w.data|)
    requires err == EFBIG ==> moved > 0 && SPAN < w.offset + moved
    requires err == ENOSPC <==> TooMuch(s, w)
    ensures Takes(s, w, err, Write(w.offset, w.data[..moved]))
  {
    hide Short, TakeWrite;
  }

  lemma ReadHolds(disk: seq<Block>, inode: Inode, ws: seq<Write>, offset: int, out: seq<int>)
    requires Holds(disk, inode, ws) && (out != [] ==> IsSlice(disk, inode, offset, out))
    ensures inode.size == SizeOf(ws)
    ensures forall k :: 0 <= k < |out| ==> out[k] == LastByte(ws, offset + k)
  {
  }

  /** A write that is to pass SPAN, and whose end is an offset. */
  predicate Oversteps(w: Write) {
    w.offset >= 0 && w.data != [] && w.offset + |w.data| > SPAN && w.offset + Moves(w.offset, |w.data|) < 0x8000_0000
  }

  /** What i_size promises can be read. */
  ghost predicate ReadsBack(size: int) {
    forall off :: 0 <= off < size ==> Readable(size, off, 1) == 1
  }

  /** The file reads back up to i_size exactly when no write that had space was to pass SPAN. */
  lemma {:induction false} ReadsBackIff(n: int, ws: seq<Write>, errs: seq<Error>, done: seq<Write>)
    requires |ws| == |errs| == |done|
    requires forall i :: 0 <= i < |ws| ==> ws[i].offset < 0x8000_0000 && Takes(SpaceAfter(n, ws[..i]), ws[i], errs[i], done[i])
    ensures ReadsBack(SizeOf(done)) <==> !exists i :: 0 <= i < |ws| && Oversteps(ws[i]) && !TooMuch(SpaceAfter(n, ws[..i]), ws[i])
  {
    hide Takes, Oversteps, SpaceAfter;
    SizePasses(n, ws, errs, done);
    if SizeOf(done) > SPAN {
      assert Readable(SizeOf(done), SPAN, 1) == 0;
    }
  }

  lemma {:induction false} SizePasses(n: int, ws: seq<Write>, errs: seq<Error>, done: seq<Write>)
    requires |ws| == |errs| == |done|
    requires forall i :: 0 <= i < |ws| ==> ws[i].offset < 0x8000_0000 && Takes(SpaceAfter(n, ws[..i]), ws[i], errs[i], done[i])
    ensures SizeOf(done) > SPAN <==> exists i :: 0 <= i < |ws| && Oversteps(ws[i]) && !TooMuch(SpaceAfter(n, ws[..i]), ws[i])
  {
    hide Takes, Oversteps, Grown, SpaceAfter, TooMuch;
    if ws != [] {
      var m := |ws| - 1;
      forall i | 0 <= i < m
        ensures ws[..m][..i] == ws[..i]
      {
      }
      SizePasses(n, ws[..m], errs[..m], done[..m]);
      StepPasses(SpaceAfter(n, ws[..m]), ws[m], errs[m], done[m], SizeOf(done[..m]));
      if i :| 0 <= i < m && Oversteps(ws[i]) && !TooMuch(SpaceAfter(n, ws[..i]), ws[i]) {
        assert ws[..m][i] == ws[i] && ws[..m][..i] == ws[..i];
      }
    }
  }

  lemma StepPasses(s: Space, w: Write, err: Error, done: Write, size: int)
    requires Takes(s, w, err, done) && w.offset < 0x8000_0000
    ensures (if done.data == [] then size else Grown(size, done.offset + |done.data|)) > SPAN
            <==> size > SPAN || (Oversteps(w) && !TooMuch(s, w))
  {
    hide TooMuch, Fitting;
  }

  /** One byte written at SPAN to an empty file is in no block, but i_size counts it. */
  method OnePast(fs: FileSystem, ip: int, x: int) returns (moved: int, err: Error, out: seq<int>)
    requires fs.Valid(multiset{}) && 0 <= ip < |fs.inodes|
    modifies fs
    ensures fs.Valid(multiset{}) && ip < |fs.inodes|
    ensures moved == 1 && err == EFBIG && fs.inodes[ip].size == SPAN + 1 && out == []
  {
    hide Good, Roots, Written, Unmoved, IsSlice;
    fs.Itrunc(ip);
    moved, err := Writei(fs, ip, SPAN, [x]);
    var e;
    out, e := Readi(fs, ip, SPAN, 1);
  }
}
