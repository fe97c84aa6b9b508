/**
 * Blocks of files: alloc and free (usr/sys/sys/alloc.c), itrunc and tloop
 * (usr/sys/sys/iget.c).
 *
 * The buffer cache is taken as the plain disk it stands for, and a stretch
 * of the kernel between sleeps on the free list or inode lock as one step.
 */
module Fs {
  import opened FsTree
  import opened FsStore
  import opened FsAttach

  const NADDR := 13

  datatype Error = NoError | ENOSPC | EFBIG | EINVAL

  datatype Inode = Inode(addr: seq<int>, size: int)

  /** Levels of indirection above the data at address slot s of an inode. */
  function Level(s: int): nat { if s < NADDR - 3 then 0 else if s == NADDR - 3 then 1 else if s == NADDR - 2 then 2 else 3 }

  /** All addresses of all inodes. */
  ghost function Roots(inodes: seq<Inode>): (roots: seq<Root>)
    requires forall i :: 0 <= i < |inodes| ==> |inodes[i].addr| == NADDR
    ensures |roots| == NADDR * |inodes|
    ensures forall r :: 0 <= r < NADDR * |inodes| ==>
              roots[r] == Root(Level(r % NADDR), inodes[r / NADDR].addr[r % NADDR])
  {
    seq(NADDR * |inodes|, r requires 0 <= r < NADDR * |inodes| =>
      Root(Level(r % NADDR), inodes[r / NADDR].addr[r % NADDR]))
  }

  lemma RootIndex(n: nat, ip: int, s: int)
    requires 0 <= ip < n && 0 <= s < NADDR
    ensures 0 <= NADDR * ip + s < NADDR * n
    ensures (NADDR * ip + s) / NADDR == ip && (NADDR * ip + s) % NADDR == s
  {
  }

  lemma RootOf(inodes: seq<Inode>, ip: int, s: int)
    requires forall i :: 0 <= i < |inodes| ==> |inodes[i].addr| == NADDR
    requires 0 <= ip < |inodes| && 0 <= s < NADDR
    ensures 0 <= NADDR * ip + s < |Roots(inodes)|
    ensures Roots(inodes)[NADDR * ip + s] == Root(Level(s), inodes[ip].addr[s])
  {
    RootIndex(|inodes|, ip, s);
  }

  lemma RootsUpdate(inodes: seq<Inode>, ip: int, s: int, bn: int)
    requires forall i :: 0 <= i < |inodes| ==> |inodes[i].addr| == NADDR
    requires 0 <= ip < |inodes| && 0 <= s < NADDR
    ensures 0 <= NADDR * ip + s < |Roots(inodes)|
    ensures Roots(inodes[ip := inodes[ip].(addr := inodes[ip].addr[s := bn])]) ==
            Roots(inodes)[NADDR * ip + s := Root(Level(s), bn)]
  {
    RootIndex(|inodes|, ip, s);
    var inodes' := inodes[ip := inodes[ip].(addr := inodes[ip].addr[s := bn])];
    forall r | 0 <= r < NADDR * |inodes| && r != NADDR * ip + s
      ensures Roots(inodes')[r] == Roots(inodes)[r]
    {
      assert r / NADDR == ip && r % NADDR == s ==> r == NADDR * ip + s;
    }
  }

  lemma RootsSize(inodes: seq<Inode>, ip: int, size: int)
    requires forall i :: 0 <= i < |inodes| ==> |inodes[i].addr| == NADDR
    requires 0 <= ip < |inodes|
    ensures Roots(inodes[ip := inodes[ip].(size := size)]) == Roots(inodes)
  {
  }

  /** The numbers lo..hi-1, once each. */
  ghost function Range(lo: int, hi: int): multiset<int>
    requires lo <= hi
    decreases hi - lo
  {
    if lo == hi then multiset{} else Range(lo, hi - 1) + multiset{hi - 1}
  }

  lemma {:induction false} RangeCount(lo: int, hi: int, x: int)
    requires lo <= hi
    ensures Range(lo, hi)[x] == if lo <= x < hi then 1 else 0
    decreases hi - lo
  {
    if lo < hi {
      RangeCount(lo, hi - 1, x);
    }
  }

  lemma EmptyGood(disk: seq<Block>, roots: seq<Root>, lo: int, hi: int)
    requires 1 <= lo <= hi == |disk| && forall r :: 0 <= r < |roots| ==> roots[r].bn == 0
    ensures Good(disk, roots, [], Range(lo, hi), lo, hi)
  {
    SumEmpty(RootTrees(disk, roots));
    assert GroupSets([]) == [];
    RangeCount(lo, hi, 0);
    forall x | x != 0
      ensures Forest(disk, roots)[x] + FreeOf([])[x] + Range(lo, hi)[x] == if lo <= x < hi then 1 else 0
    {
      RangeCount(lo, hi, x);
    }
  }

  class FileSystem {
    const isize: int
    const fsize: int
    var nfree: int
    var free: seq<int>
    var disk: seq<Block>
    var inodes: seq<Inode>
    /** The groups of the free list, the one in the superblock first. */
    ghost var groups: seq<seq<int>>

    ghost predicate Fields()
      reads this
    {
      && (forall i :: 0 <= i < |inodes| ==> |inodes[i].addr| == NADDR)
      && |free| == NICFREE
      && (if groups == [] then nfree == 0 else nfree == |groups[0]| <= NICFREE && free[..nfree] == groups[0])
      && |disk| == fsize
    }

    /** All is in order, with the blocks in held taken out by the call in progress. */
    ghost predicate Valid(held: multiset<int>)
      reads this
    {
      Fields() && Good(disk, Roots(inodes), groups, held, isize, fsize)
    }

    /** A file system of n empty files whose data area is still held: what free is then called on, block by block. */
    constructor (isize: int, fsize: int, n: nat)
      requires 1 <= isize <= fsize
      ensures Valid(Range(isize, fsize)) && |inodes| == n
      ensures forall i :: 0 <= i < n ==> inodes[i] == Inode(Zeros(NADDR), 0)
    {
      this.isize, this.fsize := isize, fsize;
      nfree, free, disk := 0, Zeros(NICFREE), seq(fsize, i => Blank);
      inodes := seq(n, i => Inode(Zeros(NADDR), 0));
      groups := [];
      new;
      EmptyGood(disk, Roots(inodes), isize, fsize);
    }

    /** badblock */
    predicate BadBlock(bn: int) { bn < isize || bn >= fsize }

    /** alloc: a cleared block, or 0 when there is no free block left. */
    method Alloc(ghost held: multiset<int>) returns (b: int, err: Error)
      requires Valid(held)
      modifies this`nfree, this`free, this`disk, this`groups
      ensures b == 0 ==> err == ENOSPC && disk == old(disk) && groups == [] && Valid(held)
      ensures b == 0 <==> forall x :: x != 0 ==> x !in FreeOf(old(groups))
      ensures old(groups) == [] ==> groups == []
      ensures b != 0 ==> && err == NoError && isize <= b < fsize && b !in Forest(old(disk), Roots(inodes))
                         && disk == old(disk)[b := Blank] && Valid(held + multiset{b})
      ensures NFree(groups) == NFree(old(groups)) - if b == 0 then 0 else 1
    {
      hide Good, Roots, FreeOf, Forest, NFree;
      ghost var roots := Roots(inodes);
      GroupFacts(disk, roots, groups, held, isize, fsize);
      FreeNone(groups);
      NoneFree();
      ghost var disk0, groups0 := disk, groups;
      if nfree <= 0 || nfree > NICFREE {
        ListEnds(disk, roots, groups, held, isize, fsize);
        nfree, groups := 0, [];
        return 0, ENOSPC;
      }
      nfree := nfree - 1;
      b := free[nfree];
      assert b == groups[0][nfree] by { assert free[..nfree + 1][nfree] == groups[0][nfree]; }
      if b == 0 {
        ListEnds(disk, roots, groups, held, isize, fsize);
        nfree, groups := 0, [];
        return 0, ENOSPC;
      }
      InGroup(groups, 0, nfree);
      if nfree <= 0 {
        TakeHead(disk, roots, groups, held, isize, fsize);
        nfree, free := disk[b].nfree, disk[b].free;
        groups := groups[1..];
      } else {
        TakeLast(disk, roots, groups, held, isize, fsize);
        assert free[..nfree] == groups[0][..nfree];
        groups := groups[0 := groups[0][..nfree]];
      }
      assert !BadBlock(b);  // so alloc's loop takes one entry
      disk := disk[b := Blank];
      GoodCounted(disk0, roots, groups0, held, isize, fsize);
      GoodCounted(disk, roots, groups, held + multiset{b}, isize, fsize);
      OneLess(disk0, roots, groups0, held, isize, fsize, groups, b);
      err := NoError;
    }

    static lemma GoodCounted(disk: seq<Block>, roots: seq<Root>, groups: seq<seq<int>>, held: multiset<int>, lo: int, hi: int)
      requires Good(disk, roots, groups, held, lo, hi)
      ensures Counted(disk, roots, groups, held, lo, hi)
    {
    }

    static lemma GroupFacts(disk: seq<Block>, roots: seq<Root>, groups: seq<seq<int>>, held: multiset<int>, lo: int, hi: int)
      requires Good(disk, roots, groups, held, lo, hi)
      ensures groups != [] ==> 1 <= |groups[0]| <= NICFREE
      ensures 1 <= lo <= hi == |disk|
    {
      assert groups != [] ==> GroupOk(disk, groups, 0);
    }

    /** free: a held block back on the list; a number outside the data area is ignored. */
    method Free(b: int, ghost held: multiset<int>)
      requires Valid(held) && (!BadBlock(b) ==> b in held)
      modifies this`nfree, this`free, this`disk, this`groups
      ensures BadBlock(b) ==> disk == old(disk) && groups == old(groups) && Valid(held)
      ensures !BadBlock(b) ==> Valid(held - multiset{b})
      ensures |disk| == |old(disk)| && forall x :: 0 <= x < |disk| && x != b ==> disk[x] == old(disk[x])
    {
      hide Good, Roots, FreeOf, Forest;
      ghost var roots := Roots(inodes);
      if BadBlock(b) {
        return;
      }
      GroupFacts(disk, roots, groups, held, isize, fsize);
      if nfree <= 0 {
        GiveEnd(disk, roots, held, isize, fsize);
        nfree, free := 1, free[0 := 0];
        groups := [[0]];
      }
      if nfree >= NICFREE {
        var c := Chain(nfree, free);
        assert Links(c, groups[0]);
        GiveHead(disk, roots, groups, held, isize, fsize, b, c);
        disk := disk[b := c];
        groups := [[b]] + groups;
        nfree := 0;
      } else {
        GiveLast(disk, roots, groups, held, isize, fsize, b);
        groups := groups[0 := groups[0] + [b]];
      }
      assert free[nfree := b][..nfree + 1] == free[..nfree] + [b];
      free, nfree := free[nfree := b], nfree + 1;
    }

    /** What is held is in the data area, each block once. */
    static lemma HeldOnce(disk: seq<Block>, roots: seq<Root>, groups: seq<seq<int>>, held: multiset<int>, lo: int, hi: int, x: int)
      requires Good(disk, roots, groups, held, lo, hi) && x in held
      ensures lo <= x < hi && held[x] == 1
    {
      hide Forest, FreeOf;
      Where(disk, roots, groups, held, lo, hi, x);
    }

    /** What is left of the tree under b when its entries from i on are gone; ms are the trees of the entries. */
    static ghost function Left(ms: seq<multiset<int>>, b: int, i: int): multiset<int>
      requires 0 <= i <= |ms|
    {
      multiset{b} + Sum(ms[..i])
    }

    static lemma LeftAll(disk: seq<Block>, level: nat, b: int, held: multiset<int>)
      requires level >= 1 && b != 0 && Tree(disk, level, b) <= held && Typed(disk, level, b)
      ensures var ms := Trees(disk, level - 1, Entries(disk, b));
              held - Tree(disk, level, b) + Left(ms, b, NINDIR) == held
      ensures Left(Trees(disk, level - 1, Entries(disk, b)), b, NINDIR) == Tree(disk, level, b)
      ensures Shaped(disk, level, b) && Entries(disk, b) == Addrs(disk[b])
      ensures forall i :: 0 <= i < NINDIR ==> Typed(disk, level - 1, Entries(disk, b)[i])
    {
      var ms := Trees(disk, level - 1, Entries(disk, b));
      assert ms[..NINDIR] == ms;
    }

    static lemma LeftStep(ms: seq<multiset<int>>, b: int, i: int)
      requires 0 < i <= |ms|
      ensures Left(ms, b, i) == Left(ms, b, i - 1) + ms[i - 1]
      ensures Left(ms, b, 0) == multiset{b}
    {
      assert ms[..i][..i - 1] == ms[..i - 1];
      assert ms[..0] == [];
    }

    /** The disks differ at most in the blocks of s. */
    static ghost predicate Only(disk: seq<Block>, disk': seq<Block>, s: multiset<int>) {
      |disk| == |disk'| && forall x :: 0 <= x < |disk| && x !in s ==> disk'[x] == disk[x]
    }

    static lemma OnlyOne(disk: seq<Block>, disk': seq<Block>, b: int)
      requires |disk| == |disk'| && forall x :: 0 <= x < |disk| && x != b ==> disk'[x] == disk[x]
      ensures Only(disk, disk', multiset{b})
    {
    }

    /** Giving up the tree t of an entry leaves the rest of the tree untouched. */
    lemma LeftApart(rest: multiset<int>, left: multiset<int>, t: multiset<int>)
      requires Valid(rest + (left + t))
      ensures forall x :: x in t ==> x !in left
      ensures t <= rest + (left + t) && rest + (left + t) - t == rest + left
      ensures forall x :: x in t ==> !BadBlock(x)
    {
      hide Good;
      forall x | x in t
        ensures x !in left && !BadBlock(x)
      {
        HeldOnce(disk, Roots(inodes), groups, rest + (left + t), isize, fsize, x);
      }
    }

    /** What releasing the tree of one entry keeps of the rest. */
    static lemma LeftAgree(disk0: seq<Block>, disk: seq<Block>, disk': seq<Block>, left: multiset<int>, t: multiset<int>)
      requires Agree(disk0, disk, left + t) && Only(disk, disk', t) && forall x :: x in t ==> x !in left
      ensures Agree(disk0, disk', left)
    {
    }

    static lemma OnlyMore(disk: seq<Block>, disk1: seq<Block>, disk2: seq<Block>, s: multiset<int>, t: multiset<int>)
      requires Only(disk, disk1, s) && Only(disk1, disk2, t) && t <= s
      ensures Only(disk, disk2, s)
    {
    }

    static lemma AgreePart(disk0: seq<Block>, disk: seq<Block>, left: multiset<int>, t: multiset<int>)
      requires Agree(disk0, disk, left + t)
      ensures Agree(disk0, disk, t)
    {
    }

    static lemma OnlySelf(disk: seq<Block>, s: multiset<int>)
      ensures Only(disk, disk, s)
    {
    }

    static lemma AgreeSelf(disk: seq<Block>, s: multiset<int>)
      ensures Agree(disk, disk, s)
    {
    }

    static lemma AgreeAt(disk0: seq<Block>, disk: seq<Block>, left: multiset<int>, x: int)
      requires Agree(disk0, disk, left) && x in left && 0 <= x < |disk0|
      ensures |disk| == |disk0| && disk[x] == disk0[x]
    {
    }

    /** A whole tree goes to the free list: what itrunc and tloop do with one address. */
    method Release(b: int, level: nat, ghost held: multiset<int>)
      requires Valid(held) && Typed(disk, level, b) && Tree(disk, level, b) <= held
      modifies this`nfree, this`free, this`disk, this`groups
      ensures Valid(held - Tree(old(disk), level, b))
      ensures Only(old(disk), disk, Tree(old(disk), level, b))
      decreases level, 1
    {
      if b == 0 {
        LeafTree(disk, level, 0);
        assert held - multiset{} == held;
      } else if level > 0 {
        Tloop(b, level, held);
      } else {
        hide Good, Roots, Fields;
        HeldOnce(disk, Roots(inodes), groups, held, isize, fsize, b);
        Free(b, held);
      }
    }

    /**
     * tloop: the blocks under an indirect block, from the last entry to the
     * first, and then the block itself. The flags f1 and f2 of the source
     * tell the level: 0, 0 is 1; 1, 0 is 2; 1, 1 is 3.
     */
    method Tloop(b: int, level: nat, ghost held: multiset<int>)
      requires Valid(held) && level >= 1 && b != 0 && Typed(disk, level, b) && Tree(disk, level, b) <= held
      modifies this`nfree, this`free, this`disk, this`groups
      ensures Valid(held - Tree(old(disk), level, b))
      ensures Only(old(disk), disk, Tree(old(disk), level, b))
      decreases level, 0
    {
      hide Valid, Tree, Typed, Sum, Left, Entries, Agree, Only;
      ghost var disk0, tree := disk, Tree(disk, level, b);
      ghost var ms := Trees(disk0, level - 1, Entries(disk0, b));
      ghost var rest := held - tree;
      AgreeSelf(disk0, tree);
      OnlySelf(disk0, tree);
      LeftAll(disk0, level, b, held);
      LeftHasTop(ms, b, NINDIR);
      var i := NINDIR;
      while i > 0
        invariant 0 <= i <= NINDIR
        invariant Valid(rest + Left(ms, b, i)) && b in Left(ms, b, i) && Left(ms, b, i) <= tree
        invariant Agree(disk0, disk, Left(ms, b, i))
        invariant Only(disk0, disk, tree)
      {
        AgreeAt(disk0, disk, Left(ms, b, i), b);
        var nb := Addrs(disk[b])[i - 1];
        ghost var t, left := ms[i - 1], Left(ms, b, i - 1);
        LeftStep(ms, b, i);
        AgreePart(disk0, disk, left, t);
        LeftApart(rest, left, t);
        LeftHasTop(ms, b, i - 1);
        Frame(disk0, disk, level - 1, nb);
        TypedFrame(disk0, disk, level - 1, nb);
        ghost var disk1 := disk;
        Release(nb, level - 1, rest + (left + t));
        LeftAgree(disk0, disk1, disk, left, t);
        OnlyMore(disk0, disk1, disk, tree, t);
        i := i - 1;
      }
      LeftStep(ms, b, 1);
      assert rest + (multiset{} + multiset{b}) == rest + multiset{b} == rest + Left(ms, b, 0);
      LeftApart(rest, multiset{}, multiset{b});
      ghost var disk1 := disk;
      Free(b, rest + multiset{b});
      OnlyOne(disk1, disk, b);
      OnlyMore(disk0, disk1, disk, tree, multiset{b});
      assert rest + multiset{b} - multiset{b} == rest;
    }

    static lemma LeftHasTop(ms: seq<multiset<int>>, b: int, i: int)
      requires 0 <= i <= |ms|
      ensures b in Left(ms, b, i)
    {
    }

    /** The files other than ip hold the same data. */
    static ghost predicate OthersSame(ip: int, disk: seq<Block>, roots: seq<Root>, disk': seq<Block>, roots': seq<Root>) {
      && |roots| == |roots'|
      && (forall r :: 0 <= r < |roots| ==> roots[r].level == roots'[r].level)
      && forall r, q :: 0 <= r < |roots| && r / NADDR != ip && IsPath(q) && |q| == roots[r].level ==>
           Contents(disk', roots'[r], q) == Contents(disk, roots[r], q)
    }

    static lemma OthersTrans(ip: int, disk: seq<Block>, roots: seq<Root>, disk1: seq<Block>, roots1: seq<Root>,
                             disk2: seq<Block>, roots2: seq<Root>, s: int)
      requires OthersSame(ip, disk, roots, disk1, roots1) && 0 <= s < NADDR && 0 <= NADDR * ip + s < |roots1|
      requires SameFiles(disk1, roots1[NADDR * ip + s := Root(roots1[NADDR * ip + s].level, 0)], disk2, roots2)
      ensures OthersSame(ip, disk, roots, disk2, roots2)
    {
      hide Contents;
      forall r, q | 0 <= r < |roots| && r / NADDR != ip && IsPath(q) && |q| == roots[r].level
        ensures Contents(disk2, roots2[r], q) == Contents(disk, roots[r], q)
      {
        assert r != NADDR * ip + s;
        assert roots1[r].level == roots[r].level;
        assert Contents(disk1, roots1[r], q) == Contents(disk, roots[r], q);
      }
    }

    /** The tree of a file's address, taken out of the file and released. */
    method DropAddress(ip: int, s: int)
      requires Valid(multiset{}) && 0 <= ip < |inodes| && 0 <= s < NADDR && inodes[ip].addr[s] != 0
      modifies this`nfree, this`free, this`disk, this`groups, this`inodes
      ensures Valid(multiset{})
      ensures inodes == old(inodes)[ip := old(inodes)[ip].(addr := old(inodes)[ip].addr[s := 0])]
      ensures 0 <= NADDR * ip + s < |Roots(old(inodes))|
      ensures SameFiles(old(disk), Roots(old(inodes))[NADDR * ip + s := Root(Level(s), 0)], disk, Roots(inodes))
      ensures SameTrees(old(disk), disk, Roots(old(inodes))[NADDR * ip + s := Root(Level(s), 0)])
      ensures Roots(inodes) == Roots(old(inodes))[NADDR * ip + s := Root(Level(s), 0)]
    {
      hide SameTrees, Good, Roots, Tree, Typed, SameFiles;
      ghost var roots, r := Roots(inodes), NADDR * ip + s;
      var bn := inodes[ip].addr[s];
      RootOf(inodes, ip, s);
      RootsUpdate(inodes, ip, s, 0);
      DetachRoot(disk, roots, groups, multiset{}, isize, fsize, r);
      GoodTyped(disk, roots, groups, multiset{}, isize, fsize, r);
      inodes := inodes[ip := inodes[ip].(addr := inodes[ip].addr[s := 0])];
      ghost var t, disk0 := Tree(disk, Level(s), bn), disk;
      assert multiset{} + t == t && t - t == multiset{};
      ghost var groups0 := groups;
      GoodCounted(disk, Roots(inodes), groups, t, isize, fsize);
      Release(bn, Level(s), t);
      SameTreesHeld(disk0, disk, Roots(inodes), groups0, t, isize, fsize);
      SameHeld(disk0, Roots(inodes), groups0, t, isize, fsize, disk);
    }

    /** One address more of a file that is being truncated. */
    method DropNext(ip: int, i: int, ghost disk0: seq<Block>, ghost inodes0: seq<Inode>)
      requires Valid(multiset{}) && 0 <= ip < |inodes| == |inodes0| && 0 <= i < NADDR && inodes[ip].addr[i] != 0
      requires forall j :: 0 <= j < |inodes0| ==> |inodes0[j].addr| == NADDR
      requires OthersSame(ip, disk0, Roots(inodes0), disk, Roots(inodes)) && SameTrees(disk0, disk, Roots(inodes))
      modifies this`nfree, this`free, this`disk, this`groups, this`inodes
      ensures Valid(multiset{})
      ensures inodes == old(inodes)[ip := old(inodes)[ip].(addr := old(inodes)[ip].addr[i := 0])]
      ensures OthersSame(ip, disk0, Roots(inodes0), disk, Roots(inodes)) && SameTrees(disk0, disk, Roots(inodes))
    {
      hide Good, Roots, OthersSame, SameFiles, SameTrees;
      ghost var disk1, roots1 := disk, Roots(inodes);
      RootOf(inodes, ip, i);
      DropAddress(ip, i);
      OthersTrans(ip, disk0, Roots(inodes0), disk1, roots1, disk, Roots(inodes), i);
      SameTreesDrop(disk0, disk1, disk, roots1, NADDR * ip + i);
    }

    static lemma GoodTyped(disk: seq<Block>, roots: seq<Root>, groups: seq<seq<int>>, held: multiset<int>, lo: int, hi: int, r: int)
      requires Good(disk, roots, groups, held, lo, hi) && 0 <= r < |roots|
      ensures Typed(disk, roots[r].level, roots[r].bn)
    {
    }

    /** itrunc: every block of the file back on the free list. */
    method Itrunc(ip: int)
      requires Valid(multiset{}) && 0 <= ip < |inodes|
      modifies this`nfree, this`free, this`disk, this`groups, this`inodes
      ensures Valid(multiset{})
      ensures inodes == old(inodes)[ip := Inode(Zeros(NADDR), 0)]
      ensures OthersSame(ip, old(disk), Roots(old(inodes)), disk, Roots(inodes))
      ensures FreeSet(groups) == Unused(old(disk), Roots(inodes), isize, fsize)
    {
      hide Good, Roots, OthersSame, SameFiles, SameTrees, Unused, FreeSet, Counted;
      ghost var inodes0, disk0 := inodes, disk;
      OthersSelf(ip, disk, Roots(inodes));
      SameTreesSelf(disk, Roots(inodes));
      for i := NADDR downto 0
        invariant Valid(multiset{}) && |inodes| == |inodes0|
        invariant forall j :: 0 <= j < |inodes| && j != ip ==> inodes[j] == inodes0[j]
        invariant forall k :: i <= k < NADDR ==> inodes[ip].addr[k] == 0
        invariant OthersSame(ip, disk0, Roots(inodes0), disk, Roots(inodes))
        invariant SameTrees(disk0, disk, Roots(inodes))
      {
        if inodes[ip].addr[i] != 0 {
          DropNext(ip, i, disk0, inodes0);
        }
      }
      RootsSize(inodes, ip, 0);
      inodes := inodes[ip := inodes[ip].(size := 0)];
      assert inodes[ip].addr == Zeros(NADDR);
      GoodCounted(disk, Roots(inodes), groups, multiset{}, isize, fsize);
      FreeIsUnused(disk, Roots(inodes), groups, isize, fsize);
      SameUnused(disk0, disk, Roots(inodes), isize, fsize);
    }

    static lemma SameTreesSelf(disk: seq<Block>, roots: seq<Root>)
      ensures SameTrees(disk, disk, roots)
    {
    }

    static lemma OthersSelf(ip: int, disk: seq<Block>, roots: seq<Root>)
      ensures OthersSame(ip, disk, roots, disk, roots)
    {
    }
  }
}
