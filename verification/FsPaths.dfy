/**
 * Where the paths of all files lead, and what making a block for one of them
 * leaves alone.
 */
module FsPaths {
  import opened FsTree
  import opened FsGraft
  import opened FsStore
  import opened FsAttach
  import opened FsBlocks

  /** All paths, full or not, lead where they did, but for path q0 from address r0 and its beginnings. */
  ghost predicate SamePaths(disk: seq<Block>, roots: seq<Root>, disk': seq<Block>, roots': seq<Root>, r0: int, q0: seq<int>) {
    && |roots| == |roots'|
    && (forall r :: 0 <= r < |roots| ==> roots[r].level == roots'[r].level)
    && forall r, q :: 0 <= r < |roots| && IsPath(q) && |q| <= roots[r].level && !(r == r0 && q <= q0) ==>
         Walk(disk', roots'[r].bn, q) == Walk(disk, roots[r].bn, q)
  }

  lemma PathsSelf(disk: seq<Block>, roots: seq<Root>, r0: int, q0: seq<int>)
    ensures SamePaths(disk, roots, disk, roots, r0, q0)
  {
  }

  lemma PathsTrans(disk: seq<Block>, roots: seq<Root>, disk1: seq<Block>, roots1: seq<Root>, disk2: seq<Block>, roots2: seq<Root>,
                   r0: int, q0: seq<int>)
    requires SamePaths(disk, roots, disk1, roots1, r0, q0) && SamePaths(disk1, roots1, disk2, roots2, r0, q0)
    ensures SamePaths(disk, roots, disk2, roots2, r0, q0)
  {
    hide Walk;
    forall r, q | 0 <= r < |roots| && IsPath(q) && |q| <= roots[r].level && !(r == r0 && q <= q0)
      ensures Walk(disk2, roots2[r].bn, q) == Walk(disk, roots[r].bn, q)
    {
      assert roots1[r].level == roots[r].level;
      assert Walk(disk1, roots1[r].bn, q) == Walk(disk, roots[r].bn, q);
    }
  }

  /** A block outside all trees changes. */
  lemma PathsApart(disk: seq<Block>, roots: seq<Root>, b: int, blk: Block, r0: int, q0: seq<int>)
    requires 0 <= b < |disk| && b !in Forest(disk, roots)
    ensures SamePaths(disk, roots, disk[b := blk], roots, r0, q0)
  {
    hide Forest, Tree, Walk;
    forall r, q | 0 <= r < |roots| && IsPath(q) && |q| <= roots[r].level
      ensures Walk(disk[b := blk], roots[r].bn, q) == Walk(disk, roots[r].bn, q)
    {
      InForest(disk, roots, r);
      WalkFrame(disk, disk[b := blk], roots[r].level, roots[r].bn, q);
    }
  }

  /** A cleared block becomes an address of an inode. */
  lemma PathsRoot(disk: seq<Block>, roots: seq<Root>, r: int, b: int, q0: seq<int>)
    requires 0 <= r < |roots| && roots[r].bn == 0 && 0 < b < |disk| && disk[b] == Blank && |q0| == roots[r].level
    ensures SamePaths(disk, roots, disk, roots[r := Root(roots[r].level, b)], r, q0)
  {
    forall q | IsPath(q) && |q| <= roots[r].level && !(q <= q0)
      ensures Walk(disk, b, q) == Walk(disk, 0, q)
    {
      assert q != [];
      assert Entries(disk, b)[q[0]] == 0;
    }
  }

  /** A cleared block becomes an entry of an indirect block on the path. */
  lemma PathsNode(disk: seq<Block>, roots: seq<Root>, groups: seq<seq<int>>, held: multiset<int>, lo: int, hi: int,
                  r: int, path: seq<int>, i: int, b: int, nb: int, q0: seq<int>)
    requires Good(disk, roots, groups, held, lo, hi) && Fillable(disk, roots, held, r, path, i, b, nb)
    requires path + [i] <= q0 && |q0| == roots[r].level
    ensures 0 <= b < |disk| && SamePaths(disk, roots, Put(disk, b, i, nb), roots, r, q0)
  {
    hide Forest, FreeOf, Tree, Typed, Entries, Walk, Chained, Counted, AllTyped;
    FillableGraft(disk, roots, groups, held, lo, hi, r, path, i, b, nb);
    NodeShape(disk, roots, groups, held, lo, hi, r, path, b);
    var disk' := Put(disk, b, i, nb);
    forall s, q | 0 <= s < |roots| && IsPath(q) && |q| <= roots[s].level && !(s == r && q <= q0)
      ensures Walk(disk', roots[s].bn, q) == Walk(disk, roots[s].bn, q)
    {
      if s == r {
        GraftWalk(disk, roots[r].level, roots[r].bn, path, i, b, nb, q);
        assert q == path + [i] ==> q <= q0;
      } else {
        PutAgree(disk, b, i, nb, Tree(disk, roots[s].level, roots[s].bn));
        WalkFrame(disk, disk', roots[s].level, roots[s].bn, q);
      }
    }
  }

  /** A data block is written. */
  lemma PathsData(disk: seq<Block>, roots: seq<Root>, groups: seq<seq<int>>, held: multiset<int>, lo: int, hi: int,
                  r: int, path: seq<int>, b: int, bytes: seq<int>, r0: int, q0: seq<int>)
    requires Good(disk, roots, groups, held, lo, hi) && |bytes| == BSIZE
    requires 0 <= r < |roots| && IsPath(path) && |path| == roots[r].level
    requires Walk(disk, roots[r].bn, path) == b && b != 0
    ensures 0 <= b < |disk| && SamePaths(disk, roots, disk[b := Data(bytes)], roots, r0, q0)
  {
    hide Forest, FreeOf, Tree, Typed, Entries, Walk, Chained, AllTyped, Counted;
    WriteApart(disk, roots, groups, held, lo, hi, r, path, b);
    NodeShape(disk, roots, groups, held, lo, hi, r, path, b);
    forall s, q | 0 <= s < |roots| && IsPath(q) && |q| <= roots[s].level
      ensures Walk(disk[b := Data(bytes)], roots[s].bn, q) == Walk(disk, roots[s].bn, q)
    {
      if s == r {
        LeafWalk(disk, roots[r].level, roots[r].bn, path, b, bytes, q);
      } else {
        WalkFrame(disk, disk[b := Data(bytes)], roots[s].level, roots[s].bn, q);
      }
    }
  }

  // ---- how far a path goes ----

  /** No path leads out of a cleared block. */
  lemma BlankDeep(disk: seq<Block>, b: int, q: seq<int>)
    requires IsPath(q) && 0 < b < |disk| && disk[b] == Blank
    ensures Deep(disk, b, q, 1)
  {
    forall k | 1 <= k <= |q|
      ensures Walk(disk, b, q[..k]) == 0
    {
      assert Entries(disk, b)[q[..k][0]] == 0;
    }
    assert q[..0] == [];
  }

  lemma DeepFrame(disk: seq<Block>, roots: seq<Root>, disk': seq<Block>, r: int, q: seq<int>, d: int)
    requires SamePaths(disk, roots, disk', roots, -1, []) && 0 <= r < |roots| && |q| <= roots[r].level
    requires Deep(disk, roots[r].bn, q, d)
    ensures Deep(disk', roots[r].bn, q, d)
  {
    hide Walk;
    forall k | 0 <= k <= |q|
      ensures Walk(disk', roots[r].bn, q[..k]) == Walk(disk, roots[r].bn, q[..k])
    {
      assert IsPath(q[..k]);
    }
  }

  /** The next block on a path is made. */
  lemma NodeDeep(disk: seq<Block>, roots: seq<Root>, groups: seq<seq<int>>, held: multiset<int>, lo: int, hi: int,
                 r: int, path: seq<int>, i: int, b: int, nb: int, q: seq<int>)
    requires Good(disk, roots, groups, held, lo, hi) && Fillable(disk, roots, held, r, path, i, b, nb) && nb != 0
    requires path + [i] <= q && |q| == roots[r].level && Deep(disk, roots[r].bn, q, |path| + 1)
    ensures 0 <= b < |disk| && Deep(Put(disk, b, i, nb), roots[r].bn, q, |path| + 2)
  {
    hide Forest, FreeOf, Tree, Typed, Entries, Walk, Chained, Counted, AllTyped;
    FillableGraft(disk, roots, groups, held, lo, hi, r, path, i, b, nb);
    NodeShape(disk, roots, groups, held, lo, hi, r, path, b);
    forall k | 0 <= k <= |q|
      ensures Walk(Put(disk, b, i, nb), roots[r].bn, q[..k]) == if k == |path| + 1 then nb else Walk(disk, roots[r].bn, q[..k])
    {
      GraftWalk(disk, roots[r].level, roots[r].bn, path, i, b, nb, q[..k]);
      assert q[..|path| + 1] == path + [i];
    }
  }
}
