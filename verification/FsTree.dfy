/**
 * The storage of a file system: blocks, the trees of indirect blocks that
 * hang from inode addresses (usr/sys/sys/subr.c, usr/sys/sys/iget.c), and the
 * account of which block is where.
 */
module FsTree {

  const BSIZE := 512
  const NINDIR := 128

  /**
   * What a block was last written as. A cleared block reads as zero bytes and
   * as an indirect block without entries.
   */
  datatype Block =
    | Blank
    | Data(bytes: seq<int>)
    | Ind(addr: seq<int>)
    | Chain(nfree: int, free: seq<int>)

  /** An address in an inode, with the levels of indirection above the data: 0 for a direct address. */
  datatype Root = Root(level: nat, bn: int)

  function Zeros(n: nat): (z: seq<int>)
    ensures |z| == n && forall i :: 0 <= i < n ==> z[i] == 0
  {
    seq(n, i => 0)
  }

  /** The addresses in an indirect block. */
  function Entries(disk: seq<Block>, b: int): (e: seq<int>)
    ensures |e| == NINDIR
  {
    if 0 <= b < |disk| && disk[b].Ind? && |disk[b].addr| == NINDIR then disk[b].addr else Zeros(NINDIR)
  }

  /** A block read as addresses, which it must be. */
  function Addrs(b: Block): (e: seq<int>)
    requires b.Blank? || (b.Ind? && |b.addr| == NINDIR)
    ensures |e| == NINDIR
  {
    if b.Blank? then Zeros(NINDIR) else b.addr
  }

  /** A block read as bytes, which it must be. */
  function Bytes(b: Block): (s: seq<int>)
    requires b.Blank? || (b.Data? && |b.bytes| == BSIZE)
    ensures |s| == BSIZE
  {
    if b.Blank? then Zeros(BSIZE) else b.bytes
  }

  // ---- sums of multisets ----

  ghost function Sum(ms: seq<multiset<int>>): multiset<int> {
    if ms == [] then multiset{} else Sum(ms[..|ms| - 1]) + ms[|ms| - 1]
  }

  lemma {:induction false} SumUpdate(ms: seq<multiset<int>>, i: int, m: multiset<int>)
    requires 0 <= i < |ms|
    ensures Sum(ms[i := m]) + ms[i] == Sum(ms) + m
    decreases |ms|
  {
    var k := |ms| - 1;
    if i == k {
      assert ms[i := m][..k] == ms[..k];
    } else {
      SumUpdate(ms[..k], i, m);
      assert ms[i := m][..k] == ms[..k][i := m];
      var a, a', l, e := Sum(ms[..k]), Sum(ms[..k][i := m]), ms[k], ms[i];
      assert Sum(ms[i := m]) == a' + l && Sum(ms) == a + l;
      assert (a' + l) + e == (a' + e) + l && (a + m) + l == (a + l) + m;
    }
  }

  /** A part of a sum, and what is left when it is taken out. */
  lemma SumPart(ms: seq<multiset<int>>, i: int)
    requires 0 <= i < |ms|
    ensures Sum(ms) == Sum(ms[i := multiset{}]) + ms[i]
  {
    SumUpdate(ms, i, multiset{});
  }

  lemma SumTwo(ms: seq<multiset<int>>, i: int, j: int, x: int)
    requires 0 <= i < |ms| && 0 <= j < |ms| && i != j
    ensures Sum(ms)[x] >= ms[i][x] + ms[j][x]
  {
    SumPart(ms, i);
    var ns := ms[i := multiset{}];
    SumPart(ns, j);
    assert ns[j] == ms[j];
    var t := Sum(ns[j := multiset{}]);
    assert Sum(ms)[x] == t[x] + ns[j][x] + ms[i][x];
  }

  lemma {:induction false} SumEmpty(ms: seq<multiset<int>>)
    requires forall i :: 0 <= i < |ms| ==> ms[i] == multiset{}
    ensures Sum(ms) == multiset{}
  {
    if ms != [] {
      SumEmpty(ms[..|ms| - 1]);
    }
  }

  lemma {:induction false} SumFind(ms: seq<multiset<int>>, x: int) returns (i: int)
    requires x in Sum(ms)
    ensures 0 <= i < |ms| && x in ms[i]
  {
    var k := |ms| - 1;
    if x in ms[k] {
      i := k;
    } else {
      i := SumFind(ms[..k], x);
    }
  }

  // ---- trees ----

  /** Every block of the tree under address b, as often as it occurs. */
  ghost function Tree(disk: seq<Block>, level: nat, b: int): multiset<int>
    decreases level, 0
  {
    if b == 0 then multiset{}
    else if level == 0 then multiset{b}
    else multiset{b} + Sum(Trees(disk, level - 1, Entries(disk, b)))
  }

  ghost function Trees(disk: seq<Block>, level: nat, es: seq<int>): (ms: seq<multiset<int>>)
    ensures |ms| == |es| && forall i :: 0 <= i < |es| ==> ms[i] == Tree(disk, level, es[i])
    decreases level, 1
  {
    seq(|es|, i requires 0 <= i < |es| => Tree(disk, level, es[i]))
  }

  /** Block b can be read as the tree expects at this level: as data, or as addresses. */
  ghost predicate Shaped(disk: seq<Block>, level: nat, b: int) {
    && 0 <= b < |disk|
    && (disk[b].Blank? ||
        if level == 0 then disk[b].Data? && |disk[b].bytes| == BSIZE
        else disk[b].Ind? && |disk[b].addr| == NINDIR)
  }

  /** Data is only where data is expected, and addresses only where addresses are. */
  ghost predicate Typed(disk: seq<Block>, level: nat, b: int)
    decreases level
  {
    b != 0 ==>
      && Shaped(disk, level, b)
      && (level > 0 ==> forall i :: 0 <= i < NINDIR ==> Typed(disk, level - 1, Entries(disk, b)[i]))
  }

  /** The block at the end of a path of entry numbers, or 0. */
  function Walk(disk: seq<Block>, b: int, path: seq<int>): int
    requires forall i :: 0 <= i < |path| ==> 0 <= path[i] < NINDIR
    decreases |path|
  {
    if path == [] || b == 0 then b else Walk(disk, Entries(disk, b)[path[0]], path[1..])
  }

  ghost predicate IsPath(path: seq<int>) {
    forall i :: 0 <= i < |path| ==> 0 <= path[i] < NINDIR
  }

  /** Two disks agree on the blocks in s. */
  ghost predicate Agree(disk: seq<Block>, disk': seq<Block>, s: multiset<int>) {
    |disk| == |disk'| && forall x :: x in s && 0 <= x < |disk| ==> disk[x] == disk'[x]
  }

  lemma InTree(disk: seq<Block>, level: nat, b: int, i: int)
    requires b != 0 && level > 0 && 0 <= i < NINDIR
    ensures var es, ms := Entries(disk, b), Trees(disk, level - 1, Entries(disk, b));
            Tree(disk, level, b) == multiset{b} + Sum(ms[i := multiset{}]) + Tree(disk, level - 1, es[i])
  {
    SumPart(Trees(disk, level - 1, Entries(disk, b)), i);
  }

  /** The tree under an entry is part of the tree. */
  lemma Below(disk: seq<Block>, level: nat, b: int, i: int)
    requires b != 0 && level > 0 && 0 <= i < NINDIR
    ensures b in Tree(disk, level, b)
    ensures Tree(disk, level - 1, Entries(disk, b)[i]) <= Tree(disk, level, b)
  {
    hide Sum, Entries;
    InTree(disk, level, b, i);
  }

  lemma AgreeBelow(disk: seq<Block>, disk': seq<Block>, level: nat, b: int, i: int)
    requires Agree(disk, disk', Tree(disk, level, b)) && b != 0 && level > 0 && 0 <= i < NINDIR
    ensures Entries(disk', b) == Entries(disk, b)
    ensures Agree(disk, disk', Tree(disk, level - 1, Entries(disk, b)[i]))
    ensures 0 <= b < |disk| ==> disk'[b] == disk[b]
  {
    hide Tree;
    Below(disk, level, b, i);
  }

  lemma TreesEqual(disk: seq<Block>, disk': seq<Block>, level: nat, b: int)
    requires b != 0 && level > 0 && Entries(disk', b) == Entries(disk, b)
    requires forall i :: 0 <= i < NINDIR ==>
               Tree(disk', level - 1, Entries(disk, b)[i]) == Tree(disk, level - 1, Entries(disk, b)[i])
    ensures Tree(disk', level, b) == Tree(disk, level, b)
  {
    hide Entries, Sum;
    var es := Entries(disk, b);
    assert Trees(disk', level - 1, es) == Trees(disk, level - 1, es);
  }

  lemma TopInTree(disk: seq<Block>, level: nat, b: int)
    requires b != 0
    ensures b in Tree(disk, level, b)
  {
  }

  lemma LeafTree(disk: seq<Block>, level: nat, b: int)
    requires b == 0 || level == 0
    ensures Tree(disk, level, b) == if b == 0 then multiset{} else multiset{b}
  {
  }

  /** A tree depends only on its own blocks. */
  lemma {:induction false} Frame(disk: seq<Block>, disk': seq<Block>, level: nat, b: int)
    requires Agree(disk, disk', Tree(disk, level, b))
    ensures Tree(disk', level, b) == Tree(disk, level, b)
    decreases level
  {
    hide Entries, Agree, Tree;
    if b == 0 || level == 0 {
      LeafTree(disk, level, b);
      LeafTree(disk', level, b);
    } else {
      AgreeBelow(disk, disk', level, b, 0);
      forall i | 0 <= i < NINDIR
        ensures Tree(disk', level - 1, Entries(disk, b)[i]) == Tree(disk, level - 1, Entries(disk, b)[i])
      {
        AgreeBelow(disk, disk', level, b, i);
        Frame(disk, disk', level - 1, Entries(disk, b)[i]);
      }
      TreesEqual(disk, disk', level, b);
    }
  }

  lemma {:induction false} TypedFrame(disk: seq<Block>, disk': seq<Block>, level: nat, b: int)
    requires Agree(disk, disk', Tree(disk, level, b)) && Typed(disk, level, b)
    ensures Typed(disk', level, b)
    decreases level
  {
    hide Entries, Tree;
    if b != 0 {
      TopInTree(disk, level, b);
      if level > 0 {
        forall i | 0 <= i < NINDIR
          ensures Typed(disk', level - 1, Entries(disk', b)[i])
        {
          AgreeBelow(disk, disk', level, b, i);
          TypedFrame(disk, disk', level - 1, Entries(disk, b)[i]);
        }
      }
    }
  }

  lemma {:induction false} WalkFrame(disk: seq<Block>, disk': seq<Block>, level: nat, b: int, path: seq<int>)
    requires Agree(disk, disk', Tree(disk, level, b)) && IsPath(path) && |path| <= level
    ensures Walk(disk', b, path) == Walk(disk, b, path)
    decreases level
  {
    hide Entries, Agree, Tree;
    if b != 0 && path != [] {
      AgreeBelow(disk, disk', level, b, path[0]);
      WalkFrame(disk, disk', level - 1, Entries(disk, b)[path[0]], path[1..]);
    }
  }

  lemma {:induction false} WalkInTree(disk: seq<Block>, level: nat, b: int, path: seq<int>)
    requires IsPath(path) && |path| <= level && Walk(disk, b, path) != 0
    ensures Walk(disk, b, path) in Tree(disk, level, b)
    decreases level
  {
    hide Tree, Entries;
    if path == [] {
      TopInTree(disk, level, b);
    } else {
      Below(disk, level, b, path[0]);
      WalkInTree(disk, level - 1, Entries(disk, b)[path[0]], path[1..]);
    }
  }

  lemma {:induction false} WalkAppend(disk: seq<Block>, b: int, path: seq<int>, i: int)
    requires IsPath(path) && 0 <= i < NINDIR && Walk(disk, b, path) != 0
    ensures IsPath(path + [i])
    ensures Walk(disk, b, path + [i]) == Entries(disk, Walk(disk, b, path))[i]
    decreases |path|
  {
    if path == [] {
      assert (path + [i])[1..] == [];
    } else {
      assert (path + [i])[1..] == path[1..] + [i];
      WalkAppend(disk, Entries(disk, b)[path[0]], path[1..], i);
    }
  }

  /** A cleared block is a tree of one block, and no path leads out of it. */
  lemma BlankTree(disk: seq<Block>, level: nat, b: int)
    requires b != 0 && 0 <= b < |disk| && disk[b] == Blank
    ensures Tree(disk, level, b) == multiset{b}
    ensures Typed(disk, level, b)
  {
    if level > 0 {
      SumEmpty(Trees(disk, level - 1, Entries(disk, b)));
    }
  }

  /** If x occurs once in a tree and is below entry k, it is nowhere else in it. */
  lemma OnceBelow(disk: seq<Block>, level: nat, b: int, k: int, x: int)
    requires b != 0 && level > 0 && 0 <= k < NINDIR && Tree(disk, level, b)[x] <= 1
    requires x in Tree(disk, level - 1, Entries(disk, b)[k])
    ensures b != x && Tree(disk, level - 1, Entries(disk, b)[k])[x] == 1
    ensures forall j :: 0 <= j < NINDIR && j != k ==> x !in Tree(disk, level - 1, Entries(disk, b)[j])
  {
    var es, ms := Entries(disk, b), Trees(disk, level - 1, Entries(disk, b));
    assert Tree(disk, level, b)[x] == multiset{b}[x] + Sum(ms)[x];
    InTree(disk, level, b, k);
    forall j | 0 <= j < NINDIR && j != k
      ensures x !in Tree(disk, level - 1, es[j])
    {
      SumTwo(ms, k, j, x);
    }
  }

  /** If b occurs once in its own tree, it is not below itself. */
  lemma OnceTop(disk: seq<Block>, level: nat, b: int, j: int)
    requires b != 0 && level > 0 && 0 <= j < NINDIR && Tree(disk, level, b)[b] <= 1
    ensures b !in Tree(disk, level - 1, Entries(disk, b)[j])
  {
    InTree(disk, level, b, j);
  }
}
