/**
 * Logical block numbers of a file, the paths that lead to them, and the
 * blocks that a file has along its paths, against how many are free: which
 * writes run out of space.
 */
module FsBlocks {
  import opened FsTree
  import opened Fs
  import Sets

  // ---- logical block numbers ----

  /** Blocks under one address, by levels of indirection. */
  function Unit(level: int): (n: int)
    ensures n > 0
  {
    if level <= 0 then 1 else if level == 1 then 128 else if level == 2 then 16384 else 2097152
  }

  /** The first logical block number that no path leads to. */
  const LIMIT: int := 10 + 128 + 16384 + 2097152

  /** The slot of the inode through which logical block bn is reached. */
  function SlotOf(bn: int): (s: int)
    requires 0 <= bn < LIMIT
    ensures 0 <= s < NADDR
  {
    if bn < 10 then bn else if bn < 138 then 10 else if bn < 16522 then 11 else 12
  }

  /** The number of logical block bn among those reached through its slot. */
  function Within(bn: int): (w: int)
    requires 0 <= bn < LIMIT
    ensures 0 <= w < Unit(Level(SlotOf(bn)))
  {
    if bn < 10 then 0 else if bn < 138 then bn - 10 else if bn < 16522 then bn - 138 else bn - 16522
  }

  /** The entries, level by level, that lead to block w below an address. */
  function Digits(level: int, w: int): (p: seq<int>)
    requires 0 <= level <= 3
    ensures |p| == level && forall k :: 0 <= k < level ==> 0 <= p[k] < NINDIR && p[k] == (w / Unit(level - 1 - k)) % NINDIR
  {
    if level == 0 then []
    else if level == 1 then [w % 128]
    else if level == 2 then [w / 128 % 128, w % 128]
    else [w / 16384 % 128, w / 128 % 128, w % 128]
  }

  function PathOf(bn: int): (p: seq<int>)
    requires 0 <= bn < LIMIT
    ensures |p| == Level(SlotOf(bn)) && forall k :: 0 <= k < |p| ==> 0 <= p[k] < NINDIR
  {
    Digits(Level(SlotOf(bn)), Within(bn))
  }

  /** Different logical blocks are reached differently. */
  lemma LocateInjective(a: int, b: int)
    requires 0 <= a < LIMIT && 0 <= b < LIMIT && SlotOf(a) == SlotOf(b) && PathOf(a) == PathOf(b)
    ensures a == b
  {
    DigitsInjective(Level(SlotOf(a)), Within(a), Within(b));
  }

  lemma {:induction false} DigitsInjective(level: int, v: int, w: int)
    requires 0 <= level <= 3 && 0 <= v < Unit(level) && 0 <= w < Unit(level) && Digits(level, v) == Digits(level, w)
    ensures v == w
    decreases level
  {
    if level > 0 {
      LastDigit(level, v);
      LastDigit(level, w);
      DigitsInjective(level - 1, v / 128, w / 128);
    }
  }

  lemma LastDigit(level: int, v: int)
    requires 1 <= level <= 3 && 0 <= v < Unit(level)
    ensures 0 <= v / 128 < Unit(level - 1)
    ensures Digits(level, v)[..level - 1] == Digits(level - 1, v / 128)
    ensures Digits(level, v)[level - 1] == v % 128 && v == v / 128 * 128 + v % 128
  {
    if level == 3 {
      assert v / 128 / 128 == v / 16384;
    }
  }

  /** The physical block of logical block bn, or 0. */
  ghost function Physical(disk: seq<Block>, inode: Inode, bn: int): int
    requires 0 <= bn < LIMIT && |inode.addr| == NADDR
  {
    Walk(disk, inode.addr[SlotOf(bn)], PathOf(bn))
  }

  // ---- where a logical block is, in terms of addresses ----

  /** Address i in the indirect block x; 0 if there is no such block, or it is cleared. */
  function AddressIn(disk: seq<Block>, x: int, i: int): int {
    if 0 < x < |disk| && disk[x].Ind? && |disk[x].addr| == 128 && 0 <= i < 128 then disk[x].addr[i] else 0
  }

  /**
   * b is what the addresses of the inode and of its indirect blocks give for
   * logical block bn: the first ten directly, 128 through address 10, 128 * 128
   * through address 11 and 128 * 128 * 128 through address 12.
   */
  ghost predicate AddressIs(disk: seq<Block>, addr: seq<int>, bn: int, b: int)
    requires |addr| == 13
  {
    && (0 <= bn < 10 ==> b == addr[bn])
    && (forall i {:trigger AddressIn(disk, addr[10], i)} :: 0 <= i < 128 && bn == 10 + i ==> b == AddressIn(disk, addr[10], i))
    && (forall i, j {:trigger AddressIn(disk, AddressIn(disk, addr[11], i), j)} :: 0 <= i < 128 && 0 <= j < 128 && bn == 138 + 128 * i + j ==>
          b == AddressIn(disk, AddressIn(disk, addr[11], i), j))
    && (forall i, j, k {:trigger AddressIn(disk, AddressIn(disk, AddressIn(disk, addr[12], i), j), k)} ::
          0 <= i < 128 && 0 <= j < 128 && 0 <= k < 128 && bn == 16522 + 16384 * i + 128 * j + k ==>
          b == AddressIn(disk, AddressIn(disk, AddressIn(disk, addr[12], i), j), k))
  }

  /** Every logical block has one such place. */
  lemma PlaceExists(bn: int) returns (s: int, i: int, j: int, k: int)
    requires 0 <= bn < LIMIT
    ensures if s == 10 then bn == 10 + i && 0 <= i < 128
            else if s == 11 then bn == 138 + 128 * i + j && 0 <= i < 128 && 0 <= j < 128
            else if s == 12 then bn == 16522 + 16384 * i + 128 * j + k && 0 <= i < 128 && 0 <= j < 128 && 0 <= k < 128
            else s == bn < 10
  {
    s, i, j, k := if bn < 10 then bn else if bn < 138 then 10 else if bn < 16522 then 11 else 12, 0, 0, 0;
    if s == 10 {
      i := bn - 10;
    } else if s == 11 {
      i, j := (bn - 138) / 128, (bn - 138) % 128;
    } else if s == 12 {
      var w := bn - 16522;
      i, j, k := w / 16384, w / 128 % 128, w % 128;
      assert w / 128 / 128 == i;
    }
  }

  lemma EntryIs(disk: seq<Block>, x: int, i: int)
    requires 0 <= i < 128 && x != 0
    ensures Entries(disk, x)[i] == AddressIn(disk, x, i)
  {
  }

  lemma WalkOne(disk: seq<Block>, x: int, path: seq<int>)
    requires IsPath(path) && path != []
    ensures Walk(disk, x, path) == Walk(disk, AddressIn(disk, x, path[0]), path[1..])
  {
    if x != 0 {
      EntryIs(disk, x, path[0]);
    } else {
      WalkFromZero(disk, path[1..]);
    }
  }

  lemma WalkFromZero(disk: seq<Block>, path: seq<int>)
    requires IsPath(path)
    ensures Walk(disk, 0, path) == 0
  {
  }

  lemma WalkPath(disk: seq<Block>, x: int, i: int, j: int, k: int)
    requires 0 <= i < 128 && 0 <= j < 128 && 0 <= k < 128
    ensures Walk(disk, x, []) == x
    ensures Walk(disk, x, [i]) == AddressIn(disk, x, i)
    ensures Walk(disk, x, [i, j]) == AddressIn(disk, AddressIn(disk, x, i), j)
    ensures Walk(disk, x, [i, j, k]) == AddressIn(disk, AddressIn(disk, AddressIn(disk, x, i), j), k)
  {
    hide AddressIn;
    var y := AddressIn(disk, x, i);
    WalkOne(disk, x, [i]);
    WalkOne(disk, x, [i, j]);
    WalkOne(disk, x, [i, j, k]);
    assert [i][1..] == [] && [i, j][1..] == [j] && [i, j, k][1..] == [j, k] && [j][1..] == [] && [j, k][1..] == [k] && [k][1..] == [];
    WalkOne(disk, y, [j]);
    WalkOne(disk, y, [j, k]);
    WalkOne(disk, AddressIn(disk, y, j), [k]);
  }

  lemma PathOne(bn: int, i: int)
    requires 0 <= i < 128 && bn == 10 + i
    ensures SlotOf(bn) == 10 && PathOf(bn) == [i]
  {
  }

  lemma PathTwo(bn: int, i: int, j: int)
    requires 0 <= i < 128 && 0 <= j < 128 && bn == 138 + 128 * i + j
    ensures 0 <= bn < LIMIT && SlotOf(bn) == 11 && PathOf(bn) == [i, j]
  {
    assert (bn - 138) / 128 == i;
  }

  lemma PathThree(bn: int, i: int, j: int, k: int)
    requires 0 <= i < 128 && 0 <= j < 128 && 0 <= k < 128 && bn == 16522 + 16384 * i + 128 * j + k
    ensures 0 <= bn < LIMIT && SlotOf(bn) == 12 && PathOf(bn) == [i, j, k]
  {
    var w := bn - 16522;
    Base128(w, i, j, k);
    DigitsThree(w, i, j, k);
    hide Digits;
  }

  lemma Base128(w: int, i: int, j: int, k: int)
    requires 0 <= i < 128 && 0 <= j < 128 && 0 <= k < 128 && w == 16384 * i + 128 * j + k
    ensures w / 128 == 128 * i + j && w % 128 == k && w / 128 % 128 == j && w / 16384 == i && 0 <= w < 2097152
  {
    assert w == 128 * (128 * i + j) + k;
    assert w / 128 == 128 * i + j;
    assert w == 16384 * i + (128 * j + k);
  }

  lemma DigitsThree(w: int, i: int, j: int, k: int)
    requires w / 16384 == i && w / 128 % 128 == j && w % 128 == k && 0 <= i < 128
    ensures Digits(3, w) == [i, j, k]
  {
  }

  /** What bmap's path leads to is what the addresses give. */
  lemma PhysicalIs(disk: seq<Block>, inode: Inode, bn: int)
    requires |inode.addr| == NADDR && 0 <= bn < LIMIT
    ensures AddressIs(disk, inode.addr, bn, Physical(disk, inode, bn))
  {
    hide Walk, AddressIn, SlotOf, PathOf, IsPath;
    var b := Physical(disk, inode, bn);
    if bn < 10 {
      DirectIs(disk, inode, bn);
    }
    forall i | 0 <= i < 128 && bn == 10 + i
      ensures b == AddressIn(disk, inode.addr[10], i)
    {
      PathOne(bn, i);
      WalkPath(disk, inode.addr[10], i, 0, 0);
    }
    forall i, j | 0 <= i < 128 && 0 <= j < 128 && bn == 138 + 128 * i + j
      ensures b == AddressIn(disk, AddressIn(disk, inode.addr[11], i), j)
    {
      PathTwo(bn, i, j);
      WalkPath(disk, inode.addr[11], i, j, 0);
    }
    forall i, j, k | 0 <= i < 128 && 0 <= j < 128 && 0 <= k < 128 && bn == 16522 + 16384 * i + 128 * j + k
      ensures b == AddressIn(disk, AddressIn(disk, AddressIn(disk, inode.addr[12], i), j), k)
    {
      PathThree(bn, i, j, k);
      WalkPath(disk, inode.addr[12], i, j, k);
    }
  }

  lemma DirectIs(disk: seq<Block>, inode: Inode, bn: int)
    requires |inode.addr| == NADDR && 0 <= bn < 10
    ensures Physical(disk, inode, bn) == inode.addr[bn]
  {
  }

  // ---- the blocks along a path ----

  /** Where a block of a file is: an address of the inode, and entries from there on; data is at full paths. */
  datatype Place = Place(slot: int, path: seq<int>)

  /** The first n places on the way to logical block bn. */
  ghost function NodesUpTo(bn: int, n: int): set<Place>
    requires 0 <= bn < LIMIT && n <= |PathOf(bn)| + 1
  {
    set k | 0 <= k < n :: Place(SlotOf(bn), PathOf(bn)[..k])
  }

  /** All of them: its indirect blocks and its data. */
  ghost function Nodes(bn: int): set<Place>
    requires 0 <= bn < LIMIT
  {
    NodesUpTo(bn, |PathOf(bn)| + 1)
  }

  ghost predicate Present(disk: seq<Block>, inode: Inode, c: int, k: int)
    requires |inode.addr| == NADDR && 0 <= c < LIMIT && 0 <= k <= |PathOf(c)|
  {
    Walk(disk, inode.addr[SlotOf(c)], PathOf(c)[..k]) != 0
  }

  /** The places at which a file has a block. */
  ghost function Have(disk: seq<Block>, inode: Inode): set<Place>
    requires |inode.addr| == NADDR
  {
    set c, k | 0 <= c < LIMIT && 0 <= k <= |PathOf(c)| && Present(disk, inode, c, k) :: Place(SlotOf(c), PathOf(c)[..k])
  }

  lemma HaveIn(disk: seq<Block>, inode: Inode, c: int, k: int)
    requires |inode.addr| == NADDR && 0 <= c < LIMIT && 0 <= k <= |PathOf(c)|
    ensures Place(SlotOf(c), PathOf(c)[..k]) in Have(disk, inode) <==> Present(disk, inode, c, k)
  {
    hide SlotOf, PathOf, Walk;
    var p := Place(SlotOf(c), PathOf(c)[..k]);
    if p in Have(disk, inode) {
      var d, l :| 0 <= d < LIMIT && 0 <= l <= |PathOf(d)| && Present(disk, inode, d, l) && p == Place(SlotOf(d), PathOf(d)[..l]);
      assert PathOf(d)[..l] == PathOf(c)[..k] && SlotOf(d) == SlotOf(c);
    }
  }

  lemma NodesIn(bn: int, n: int, c: int, k: int)
    requires 0 <= bn < LIMIT && n <= |PathOf(bn)| + 1 && 0 <= c < LIMIT && 0 <= k <= |PathOf(c)|
    ensures Place(SlotOf(c), PathOf(c)[..k]) in NodesUpTo(bn, n) <==>
            SlotOf(c) == SlotOf(bn) && PathOf(c)[..k] <= PathOf(bn) && k < n
  {
    hide SlotOf, PathOf;
    var p := Place(SlotOf(c), PathOf(c)[..k]);
    if p in NodesUpTo(bn, n) {
      var l :| 0 <= l < n && p == Place(SlotOf(bn), PathOf(bn)[..l]);
      assert |PathOf(c)[..k]| == k && |PathOf(bn)[..l]| == l;
    }
    if SlotOf(c) == SlotOf(bn) && PathOf(c)[..k] <= PathOf(bn) && k < n {
      assert |PathOf(c)[..k]| == k;
      assert PathOf(bn)[..k] == PathOf(c)[..k];
    }
  }

  /** The first d places on the path q have a block, and no others. */
  ghost predicate Deep(disk: seq<Block>, b: int, q: seq<int>, d: int) {
    && IsPath(q) && 0 <= d <= |q| + 1
    && forall k :: 0 <= k <= |q| ==> (Walk(disk, b, q[..k]) != 0 <==> k < d)
  }

  /** A path that meets an empty entry leads nowhere. */
  lemma {:induction false} WalkZero(disk: seq<Block>, b: int, path: seq<int>, t: int)
    requires IsPath(path) && 0 <= t <= |path| && Walk(disk, b, path[..t]) == 0
    ensures Walk(disk, b, path) == 0
    decreases t
  {
    if t > 0 && b != 0 {
      assert path[..t][1..] == path[1..][..t - 1];
      WalkZero(disk, Entries(disk, b)[path[0]], path[1..], t - 1);
    }
  }

  lemma WalkBeyond(disk: seq<Block>, b: int, q: seq<int>, k: int, l: int)
    requires IsPath(q) && 0 <= k <= l <= |q| && Walk(disk, b, q[..k]) == 0
    ensures Walk(disk, b, q[..l]) == 0
  {
    assert q[..l][..k] == q[..k];
    WalkZero(disk, b, q[..l], k);
  }

  /** Each path has blocks up to some place. */
  lemma DeepIs(disk: seq<Block>, b: int, q: seq<int>) returns (d: int)
    requires IsPath(q)
    ensures Deep(disk, b, q, d)
  {
    hide Walk;
    d := 0;
    while d <= |q| && Walk(disk, b, q[..d]) != 0
      invariant 0 <= d <= |q| + 1 && forall k :: 0 <= k < d ==> Walk(disk, b, q[..k]) != 0
    {
      d := d + 1;
    }
    forall k | d <= k <= |q|
      ensures Walk(disk, b, q[..k]) == 0
    {
      WalkBeyond(disk, b, q, d, k);
    }
  }

  /** How many places are still without a block. */
  lemma {:induction false} LackSize(disk: seq<Block>, inode: Inode, bn: int, d: int)
    requires |inode.addr| == NADDR && 0 <= bn < LIMIT && Deep(disk, inode.addr[SlotOf(bn)], PathOf(bn), d)
    ensures |Nodes(bn) - Have(disk, inode)| == |PathOf(bn)| + 1 - d
  {
    hide SlotOf, PathOf, Have, Walk;
    var n := |PathOf(bn)| + 1;
    forall k | 0 <= k < n
      ensures Place(SlotOf(bn), PathOf(bn)[..k]) in Have(disk, inode) <==> k < d
    {
      HaveIn(disk, inode, bn, k);
    }
    NodesCount(bn, d, n);
    assert Nodes(bn) - Have(disk, inode) == NodesUpTo(bn, n) - NodesUpTo(bn, d) by {
      forall p
        ensures p in Nodes(bn) - Have(disk, inode) <==> p in NodesUpTo(bn, n) - NodesUpTo(bn, d)
      {
        if p in Nodes(bn) {
          var k :| 0 <= k < n && p == Place(SlotOf(bn), PathOf(bn)[..k]);
          NodesIn(bn, d, bn, k);
        }
      }
    }
  }

  lemma NodesMore(bn: int, n: int)
    requires 0 <= bn < LIMIT && 0 < n <= |PathOf(bn)| + 1
    ensures NodesUpTo(bn, n) == NodesUpTo(bn, n - 1) + {Place(SlotOf(bn), PathOf(bn)[..n - 1])}
    ensures forall d :: 0 <= d < n ==> Place(SlotOf(bn), PathOf(bn)[..n - 1]) !in NodesUpTo(bn, d)
  {
    hide SlotOf, PathOf;
    forall d | 0 <= d < n
      ensures Place(SlotOf(bn), PathOf(bn)[..n - 1]) !in NodesUpTo(bn, d)
    {
      NodesIn(bn, d, bn, n - 1);
    }
  }

  lemma {:induction false} NodesCount(bn: int, d: int, n: int)
    requires 0 <= bn < LIMIT && 0 <= d <= n <= |PathOf(bn)| + 1
    ensures |NodesUpTo(bn, n) - NodesUpTo(bn, d)| == n - d
    decreases n
  {
    hide SlotOf, PathOf, NodesUpTo;
    if d < n {
      NodesCount(bn, d, n - 1);
      NodesMore(bn, n);
      var p := Place(SlotOf(bn), PathOf(bn)[..n - 1]);
      assert NodesUpTo(bn, n) - NodesUpTo(bn, d) == (NodesUpTo(bn, n - 1) - NodesUpTo(bn, d)) + {p};
    } else {
      assert NodesUpTo(bn, n) - NodesUpTo(bn, d) == {};
    }
  }

  // ---- space ----

  /** The places at which a file has a block, and the number of free blocks. */
  datatype Space = Space(have: set<Place>, free: int)

  /** How many blocks a write to logical block bn needs. */
  ghost function Lacking(s: Space, bn: int): (n: int)
    requires 0 <= bn < LIMIT
    ensures n >= 0
  {
    |Nodes(bn) - s.have|
  }

  lemma LackBound(s: Space, bn: int)
    requires 0 <= bn < LIMIT
    ensures Lacking(s, bn) <= |PathOf(bn)| + 1
  {
    NodesCount(bn, 0, |PathOf(bn)| + 1);
    assert NodesUpTo(bn, 0) == {};
    assert Nodes(bn) - {} == Nodes(bn);
    Sets.Smaller(Nodes(bn) - s.have, Nodes(bn));
  }

  /** A write to logical block bn takes what it lacks, or all there is. */
  ghost function TakeBlock(s: Space, bn: int): Space
    requires 0 <= bn < LIMIT
  {
    if Lacking(s, bn) <= s.free then Space(s.have + Nodes(bn), s.free - Lacking(s, bn))
    else
      LackBound(s, bn);
      Space(s.have + NodesUpTo(bn, |PathOf(bn)| + 1 - Lacking(s, bn) + s.free), 0)
  }

  /** Writes to the blocks from lo to hi in turn, up to the first that runs out of space; stop is that block, or hi. */
  datatype Taking = Taking(s: Space, stop: int)

  ghost function TakeBlocks(s: Space, lo: int, hi: int): Taking
    requires 0 <= lo && hi <= LIMIT
    decreases hi - lo
  {
    if lo >= hi then Taking(s, hi)
    else if Lacking(s, lo) > s.free then Taking(TakeBlock(s, lo), lo)
    else TakeBlocks(TakeBlock(s, lo), lo + 1, hi)
  }

  /** All places on the ways to the blocks from lo to hi. */
  ghost function Needs(lo: int, hi: int): set<Place>
    requires 0 <= lo && hi <= LIMIT
    decreases hi - lo
  {
    if lo >= hi then {} else Nodes(lo) + Needs(lo + 1, hi)
  }

  /** Such writes run out of space exactly when fewer blocks are free than are missing on the way to any of the blocks. */
  lemma {:induction false} StopIff(s: Space, lo: int, hi: int)
    requires 0 <= lo && hi <= LIMIT && s.free >= 0
    ensures TakeBlocks(s, lo, hi).stop < hi <==> |Needs(lo, hi) - s.have| > s.free
    ensures |Needs(lo, hi) - s.have| <= s.free ==>
              TakeBlocks(s, lo, hi) == Taking(Space(s.have + Needs(lo, hi), s.free - |Needs(lo, hi) - s.have|), hi)
    decreases hi - lo
  {
    if lo >= hi {
      assert Needs(lo, hi) - s.have == {};
      assert s.have + {} == s.have;
    } else {
      TakeStep(s, lo, hi);
      hide Nodes, NodesUpTo, TakeBlock, TakeBlocks, Needs, Lacking;
      var a, b := Nodes(lo), Needs(lo + 1, hi);
      LackSum(a, b, s.have);
      if |a - s.have| <= s.free {
        TakenIs(s, lo);
        StopIff(Space(s.have + a, s.free - |a - s.have|), lo + 1, hi);
        assert s.have + a + b == s.have + (a + b);
      }
    }
  }

  lemma TakeStep(s: Space, lo: int, hi: int)
    requires 0 <= lo < hi <= LIMIT
    ensures Needs(lo, hi) == Nodes(lo) + Needs(lo + 1, hi) && Lacking(s, lo) == |Nodes(lo) - s.have|
    ensures TakeBlocks(s, lo, hi) == if Lacking(s, lo) > s.free then Taking(TakeBlock(s, lo), lo)
                                     else TakeBlocks(TakeBlock(s, lo), lo + 1, hi)
  {
    hide Nodes, TakeBlock;
  }

  lemma TakenIs(s: Space, bn: int)
    requires 0 <= bn < LIMIT && Lacking(s, bn) <= s.free
    ensures TakeBlock(s, bn) == Space(s.have + Nodes(bn), s.free - |Nodes(bn) - s.have|)
  {
  }

  lemma LackSum(a: set<Place>, b: set<Place>, h: set<Place>)
    ensures |(a + b) - h| == |a - h| + |b - (h + a)| && |a - h| <= |(a + b) - h|
  {
    assert (a + b) - h == (a - h) + (b - (h + a));
  }
}
