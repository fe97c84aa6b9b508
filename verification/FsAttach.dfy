/**
 * Putting a held block into a tree, taking a tree out, and writing data:
 * what each does to the account of blocks and to the contents of files.
 */
module FsAttach {
  import opened FsTree
  import opened FsGraft
  import opened FsStore

  /** The bytes of a data block; a block that is absent or cleared reads as zeros. */
  ghost function BytesAt(disk: seq<Block>, b: int): (s: seq<int>)
    ensures |s| == BSIZE
  {
    if 0 < b < |disk| && disk[b].Data? && |disk[b].bytes| == BSIZE then disk[b].bytes else Zeros(BSIZE)
  }

  /** The bytes at the end of a full path from an inode address. */
  ghost function Contents(disk: seq<Block>, root: Root, q: seq<int>): (s: seq<int>)
    requires IsPath(q)
    ensures |s| == BSIZE
  {
    BytesAt(disk, Walk(disk, root.bn, q))
  }

  /** The same data in every place of every file. */
  ghost predicate SameFiles(disk: seq<Block>, roots: seq<Root>, disk': seq<Block>, roots': seq<Root>) {
    && |roots| == |roots'|
    && (forall r :: 0 <= r < |roots| ==> roots[r].level == roots'[r].level)
    && forall r, q :: 0 <= r < |roots| && IsPath(q) && |q| == roots[r].level ==>
         Contents(disk', roots'[r], q) == Contents(disk, roots[r], q)
  }

  lemma {:induction false} TypedWalk(disk: seq<Block>, level: nat, root: int, path: seq<int>)
    requires Typed(disk, level, root) && IsPath(path) && |path| <= level
    ensures Typed(disk, level - |path|, Walk(disk, root, path))
    decreases level
  {
    hide Entries;
    if path != [] && root != 0 {
      TypedWalk(disk, level - 1, Entries(disk, root)[path[0]], path[1..]);
    }
  }

  /** A block outside all trees is cleared. */
  lemma SameAlloc(disk: seq<Block>, roots: seq<Root>, b: int)
    requires 0 < b < |disk| && b !in Forest(disk, roots)
    ensures SameFiles(disk, roots, disk[b := Blank], roots)
  {
    hide Forest, Tree, Walk;
    var disk' := disk[b := Blank];
    forall r, q | 0 <= r < |roots| && IsPath(q) && |q| == roots[r].level
      ensures Contents(disk', roots[r], q) == Contents(disk, roots[r], q)
    {
      InForest(disk, roots, r);
      WalkFrame(disk, disk', roots[r].level, roots[r].bn, q);
      if Walk(disk, roots[r].bn, q) != 0 {
        WalkInTree(disk, roots[r].level, roots[r].bn, q);
      }
    }
  }

  // ---- an inode address that was 0 gets a cleared block ----

  lemma AttachRoot(disk: seq<Block>, roots: seq<Root>, groups: seq<seq<int>>, held: multiset<int>, lo: int, hi: int,
                   r: int, b: int)
    requires Good(disk, roots, groups, held, lo, hi) && b in held && b != 0
    requires 0 <= r < |roots| && roots[r].bn == 0 && 0 <= b < |disk| && disk[b] == Blank
    ensures Good(disk, roots[r := Root(roots[r].level, b)], groups, held - multiset{b}, lo, hi)
  {
    hide Forest, FreeOf, Tree, Chained, Typed;
    var roots' := roots[r := Root(roots[r].level, b)];
    BlankTree(disk, roots[r].level, b);
    LeafTree(disk, roots[r].level, 0);
    ForestSwap(disk, roots, disk, roots', r);
    assert Forest(disk, roots') == Forest(disk, roots) + multiset{b};
  }

  lemma SameRoot(disk: seq<Block>, roots: seq<Root>, r: int, b: int)
    requires 0 <= r < |roots| && roots[r].bn == 0 && 0 < b < |disk| && disk[b] == Blank
    ensures SameFiles(disk, roots, disk, roots[r := Root(roots[r].level, b)])
  {
    var roots' := roots[r := Root(roots[r].level, b)];
    forall q | IsPath(q) && |q| == roots[r].level
      ensures Contents(disk, roots'[r], q) == Contents(disk, roots[r], q)
    {
      if q != [] {
        assert Entries(disk, b)[q[0]] == 0;
        assert Walk(disk, b, q) == 0;
      }
    }
  }

  // ---- an empty entry of an indirect block gets a cleared block ----

  /** path leads from address r to indirect block b, whose entry i is empty, and nb is held and cleared. */
  ghost predicate Fillable(disk: seq<Block>, roots: seq<Root>, held: multiset<int>, r: int, path: seq<int>, i: int,
                           b: int, nb: int)
  {
    && 0 <= r < |roots| && IsPath(path) && |path| < roots[r].level && 0 <= i < NINDIR
    && b != 0 && Walk(disk, roots[r].bn, path) == b && Entries(disk, b)[i] == 0
    && nb in held && 0 < nb < |disk| && disk[nb] == Blank
  }

  lemma FillableGraft(disk: seq<Block>, roots: seq<Root>, groups: seq<seq<int>>, held: multiset<int>, lo: int, hi: int,
                      r: int, path: seq<int>, i: int, b: int, nb: int)
    requires Good(disk, roots, groups, held, lo, hi) && Fillable(disk, roots, held, r, path, i, b, nb)
    ensures Graftable(disk, roots[r].level, roots[r].bn, path, i, b, nb)
    ensures forall q :: 0 <= q < |roots| && q != r ==> b !in Tree(disk, roots[q].level, roots[q].bn)
  {
    hide Forest, FreeOf, Tree, Chained, Typed, AllTyped, Entries, Walk;
    WalkInTree(disk, roots[r].level, roots[r].bn, path);
    InForest(disk, roots, r);
    Where(disk, roots, groups, held, lo, hi, b);
    Where(disk, roots, groups, held, lo, hi, nb);
    OnceInForest(disk, roots, r, b);
  }

  lemma AttachNode(disk: seq<Block>, roots: seq<Root>, groups: seq<seq<int>>, held: multiset<int>, lo: int, hi: int,
                   r: int, path: seq<int>, i: int, b: int, nb: int)
    requires Good(disk, roots, groups, held, lo, hi) && Fillable(disk, roots, held, r, path, i, b, nb)
    ensures 0 <= b < |disk|
    ensures Good(Put(disk, b, i, nb), roots, groups, held - multiset{nb}, lo, hi)
  {
    hide Forest, FreeOf, Tree, Typed, Entries, Walk, Put, GroupOk;
    FillableGraft(disk, roots, groups, held, lo, hi, r, path, i, b, nb);
    var disk' := Put(disk, b, i, nb);
    forall q | 0 <= q < |roots| && q != r
      ensures Tree(disk', roots[q].level, roots[q].bn) == Tree(disk, roots[q].level, roots[q].bn)
      ensures Typed(disk', roots[q].level, roots[q].bn)
    {
      PutAgree(disk, b, i, nb, Tree(disk, roots[q].level, roots[q].bn));
      Frame(disk, disk', roots[q].level, roots[q].bn);
      TypedFrame(disk, disk', roots[q].level, roots[q].bn);
    }
    GraftTree(disk, roots[r].level, roots[r].bn, path, i, b, nb);
    GraftTyped(disk, roots[r].level, roots[r].bn, path, i, b, nb);
    ForestSwap(disk, roots, disk', roots, r);
    Cancel(Forest(disk', roots), Forest(disk, roots), Tree(disk, roots[r].level, roots[r].bn), multiset{nb});
    WalkInTree(disk, roots[r].level, roots[r].bn, path);
    InForest(disk, roots, r);
    Where(disk, roots, groups, held, lo, hi, b);
    PutAt(disk, b, i, nb, nb);
    forall x | 0 <= x < |disk| && x != b
      ensures disk'[x] == disk[x]
    {
      PutAt(disk, b, i, nb, x);
    }
    ChainedOff(disk, disk', groups, b);
  }

  /** The free list does not notice a change to a block that is not on it. */
  lemma ChainedOff(disk: seq<Block>, disk': seq<Block>, groups: seq<seq<int>>, b: int)
    requires Chained(disk, groups) && 0 <= b < |disk| == |disk'| && b !in FreeOf(groups)
    requires forall x :: 0 <= x < |disk| && x != b ==> disk'[x] == disk[x]
    ensures Chained(disk', groups)
  {
    hide FreeOf;
    forall k | 0 <= k < |groups|
      ensures GroupOk(disk', groups, k)
    {
      assert GroupOk(disk, groups, k);
      InGroup(groups, k, 0);
    }
  }

  lemma SameNode(disk: seq<Block>, roots: seq<Root>, groups: seq<seq<int>>, held: multiset<int>, lo: int, hi: int,
                 r: int, path: seq<int>, i: int, b: int, nb: int)
    requires Good(disk, roots, groups, held, lo, hi) && Fillable(disk, roots, held, r, path, i, b, nb)
    ensures 0 <= b < |disk| && SameFiles(disk, roots, Put(disk, b, i, nb), roots)
    ensures Walk(Put(disk, b, i, nb), roots[r].bn, path + [i]) == nb
  {
    hide Forest, FreeOf, Tree, Typed, Entries, Walk, Chained, Counted, AllTyped;
    FillableGraft(disk, roots, groups, held, lo, hi, r, path, i, b, nb);
    var disk' := Put(disk, b, i, nb);
    NodeShape(disk, roots, groups, held, lo, hi, r, path, b);
    forall s, q | 0 <= s < |roots| && IsPath(q) && |q| == roots[s].level
      ensures Contents(disk', roots[s], q) == Contents(disk, roots[s], q)
    {
      if s == r {
        GraftWalk(disk, roots[r].level, roots[r].bn, path, i, b, nb, q);
        if q == path + [i] {
          WalkAppend(disk, roots[r].bn, path, i);
        }
      } else {
        PutAgree(disk, b, i, nb, Tree(disk, roots[s].level, roots[s].bn));
        WalkFrame(disk, disk', roots[s].level, roots[s].bn, q);
      }
    }
    WalkAppend(disk, roots[r].bn, path, i);
    GraftWalk(disk, roots[r].level, roots[r].bn, path, i, b, nb, path + [i]);
  }

  /** Before the end of a path there is an indirect block or a cleared one. */
  lemma NodeShape(disk: seq<Block>, roots: seq<Root>, groups: seq<seq<int>>, held: multiset<int>, lo: int, hi: int,
                  r: int, path: seq<int>, b: int)
    requires Good(disk, roots, groups, held, lo, hi)
    requires 0 <= r < |roots| && IsPath(path) && |path| <= roots[r].level
    requires Walk(disk, roots[r].bn, path) == b && b != 0
    ensures lo <= b < hi && Shaped(disk, roots[r].level - |path|, b)
  {
    hide Forest, FreeOf, Tree, Entries, Walk, Chained;
    TypedWalk(disk, roots[r].level, roots[r].bn, path);
    WalkInTree(disk, roots[r].level, roots[r].bn, path);
    InForest(disk, roots, r);
    Where(disk, roots, groups, held, lo, hi, b);
  }

  // ---- an inode address is cleared and its tree held ----

  lemma DetachRoot(disk: seq<Block>, roots: seq<Root>, groups: seq<seq<int>>, held: multiset<int>, lo: int, hi: int, r: int)
    requires Good(disk, roots, groups, held, lo, hi) && 0 <= r < |roots|
    ensures Good(disk, roots[r := Root(roots[r].level, 0)], groups,
                 held + Tree(disk, roots[r].level, roots[r].bn), lo, hi)
  {
    hide Forest, FreeOf, Tree, Chained, Typed;
    var roots', t := roots[r := Root(roots[r].level, 0)], Tree(disk, roots[r].level, roots[r].bn);
    LeafTree(disk, roots[r].level, 0);
    ForestSwap(disk, roots, disk, roots', r);
    assert Forest(disk, roots') + t == Forest(disk, roots);
    forall x | x != 0
      ensures Forest(disk, roots')[x] + FreeOf(groups)[x] + (held + t)[x] == if lo <= x < hi then 1 else 0
    {
      assert Forest(disk, roots)[x] == Forest(disk, roots')[x] + t[x];
    }
    NoZero(disk, roots[r].level, roots[r].bn);
    TypedZero(disk, roots[r].level);
  }

  lemma TypedZero(disk: seq<Block>, level: nat)
    ensures Typed(disk, level, 0)
  {
  }

  /** 0 means no block, so it is in no tree. */
  lemma {:induction false} NoZero(disk: seq<Block>, level: nat, b: int)
    ensures 0 !in Tree(disk, level, b)
    decreases level
  {
    hide Sum, Entries;
    if b != 0 && level > 0 {
      var ms := Trees(disk, level - 1, Entries(disk, b));
      forall i | 0 <= i < NINDIR
        ensures 0 !in ms[i]
      {
        NoZero(disk, level - 1, Entries(disk, b)[i]);
      }
      if 0 in Sum(ms) {
        var i := SumFind(ms, 0);
      }
    }
  }

  // ---- data is written ----

  lemma WriteData(disk: seq<Block>, roots: seq<Root>, groups: seq<seq<int>>, held: multiset<int>, lo: int, hi: int,
                  r: int, path: seq<int>, b: int, bytes: seq<int>)
    requires Good(disk, roots, groups, held, lo, hi) && |bytes| == BSIZE
    requires 0 <= r < |roots| && IsPath(path) && |path| == roots[r].level
    requires Walk(disk, roots[r].bn, path) == b && b != 0
    ensures 0 <= b < |disk| && Good(disk[b := Data(bytes)], roots, groups, held, lo, hi)
  {
    hide Forest, FreeOf, Tree, Typed, Entries, Walk, GroupOk;
    WriteApart(disk, roots, groups, held, lo, hi, r, path, b);
    var disk' := disk[b := Data(bytes)];
    forall q | 0 <= q < |roots|
      ensures Tree(disk', roots[q].level, roots[q].bn) == Tree(disk, roots[q].level, roots[q].bn)
      ensures Typed(disk', roots[q].level, roots[q].bn)
    {
      if q == r {
        LeafWrite(disk, roots[r].level, roots[r].bn, path, b, bytes);
      } else {
        Frame(disk, disk', roots[q].level, roots[q].bn);
        TypedFrame(disk, disk', roots[q].level, roots[q].bn);
      }
    }
    ForestSwap(disk, roots, disk', roots, r);
    var t := Tree(disk, roots[r].level, roots[r].bn);
    assert t == t + multiset{};
    Cancel(Forest(disk', roots), Forest(disk, roots), t, multiset{});
    ChainedOff(disk, disk', groups, b);
  }

  lemma WriteApart(disk: seq<Block>, roots: seq<Root>, groups: seq<seq<int>>, held: multiset<int>, lo: int, hi: int,
                   r: int, path: seq<int>, b: int)
    requires Good(disk, roots, groups, held, lo, hi)
    requires 0 <= r < |roots| && IsPath(path) && |path| == roots[r].level
    requires Walk(disk, roots[r].bn, path) == b && b != 0
    ensures IsLeaf(disk, roots[r].level, roots[r].bn, path, b) && b !in FreeOf(groups)
    ensures forall q :: 0 <= q < |roots| && q != r ==> b !in Tree(disk, roots[q].level, roots[q].bn)
  {
    hide Forest, FreeOf, Tree, Typed, Entries, Walk, Chained, AllTyped;
    WalkInTree(disk, roots[r].level, roots[r].bn, path);
    InForest(disk, roots, r);
    Where(disk, roots, groups, held, lo, hi, b);
    OnceInForest(disk, roots, r, b);
  }

  /** The write is seen at its own place and at no other place of any file. */
  lemma WriteSeen(disk: seq<Block>, roots: seq<Root>, groups: seq<seq<int>>, held: multiset<int>, lo: int, hi: int,
                  r: int, path: seq<int>, b: int, bytes: seq<int>, s: int, q: seq<int>)
    requires Good(disk, roots, groups, held, lo, hi) && |bytes| == BSIZE
    requires 0 <= r < |roots| && IsPath(path) && |path| == roots[r].level
    requires Walk(disk, roots[r].bn, path) == b && b != 0
    requires 0 <= s < |roots| && IsPath(q) && |q| == roots[s].level
    ensures 0 <= b < |disk|
    ensures Contents(disk[b := Data(bytes)], roots[s], q) ==
            if s == r && q == path then bytes else Contents(disk, roots[s], q)
  {
    hide Forest, FreeOf, Tree, Typed, Entries, Walk, Chained, AllTyped, Counted;
    WriteApart(disk, roots, groups, held, lo, hi, r, path, b);
    if s == r {
      LeafWalk(disk, roots[r].level, roots[r].bn, path, b, bytes, q);
      if Walk(disk, roots[r].bn, q) == b {
        LeafUnique(disk, roots[r].level, roots[r].bn, path, b, q);
      }
    } else {
      WalkFrame(disk, disk[b := Data(bytes)], roots[s].level, roots[s].bn, q);
      if Walk(disk, roots[s].bn, q) != 0 {
        WalkInTree(disk, roots[s].level, roots[s].bn, q);
      }
    }
  }

  lemma SameSelf(disk: seq<Block>, roots: seq<Root>)
    ensures SameFiles(disk, roots, disk, roots)
  {
  }

  lemma SameTrans(disk: seq<Block>, roots: seq<Root>, disk1: seq<Block>, roots1: seq<Root>, disk2: seq<Block>, roots2: seq<Root>)
    requires SameFiles(disk, roots, disk1, roots1) && SameFiles(disk1, roots1, disk2, roots2)
    ensures SameFiles(disk, roots, disk2, roots2)
  {
    hide Contents;
    forall r, q | 0 <= r < |roots| && IsPath(q) && |q| == roots[r].level
      ensures Contents(disk2, roots2[r], q) == Contents(disk, roots[r], q)
    {
      assert roots1[r].level == roots[r].level;
      assert Contents(disk1, roots1[r], q) == Contents(disk, roots[r], q);
    }
  }

  /** What happens to held blocks is not seen in any file. */
  lemma SameHeld(disk: seq<Block>, roots: seq<Root>, groups: seq<seq<int>>, held: multiset<int>, lo: int, hi: int,
                 disk': seq<Block>)
    requires Good(disk, roots, groups, held, lo, hi) && |disk| == |disk'|
    requires forall x :: 0 <= x < |disk| && x !in held ==> disk'[x] == disk[x]
    ensures SameFiles(disk, roots, disk', roots)
  {
    hide Forest, FreeOf, Tree, Typed, Walk, Chained, AllTyped;
    forall x | x in Forest(disk, roots) && 0 <= x < |disk|
      ensures disk[x] == disk'[x]
    {
      assert x !in held by {
        if x != 0 {
          Where(disk, roots, groups, held, lo, hi, x);
        }
      }
    }
    forall r, q | 0 <= r < |roots| && IsPath(q) && |q| == roots[r].level
      ensures Contents(disk', roots[r], q) == Contents(disk, roots[r], q)
    {
      InForest(disk, roots, r);
      WalkFrame(disk, disk', roots[r].level, roots[r].bn, q);
      if Walk(disk, roots[r].bn, q) != 0 {
        WalkInTree(disk, roots[r].level, roots[r].bn, q);
      }
    }
  }
}
