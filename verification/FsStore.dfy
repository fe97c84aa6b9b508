/**
 * The account of all blocks: every data-area block is on the chained free
 * list of usr/sys/sys/alloc.c, in the tree of one inode address, or held by
 * a call in progress, once in all.
 */
module FsStore {
  import opened FsTree
  import opened FsGraft

  const NICFREE := 50

  // ---- the trees of all inode addresses ----

  ghost function RootTrees(disk: seq<Block>, roots: seq<Root>): (ms: seq<multiset<int>>)
    ensures |ms| == |roots| && forall r :: 0 <= r < |roots| ==> ms[r] == Tree(disk, roots[r].level, roots[r].bn)
  {
    seq(|roots|, r requires 0 <= r < |roots| => Tree(disk, roots[r].level, roots[r].bn))
  }

  ghost function Forest(disk: seq<Block>, roots: seq<Root>): multiset<int> {
    Sum(RootTrees(disk, roots))
  }

  lemma InForest(disk: seq<Block>, roots: seq<Root>, r: int)
    requires 0 <= r < |roots|
    ensures Tree(disk, roots[r].level, roots[r].bn) <= Forest(disk, roots)
  {
    SumPart(RootTrees(disk, roots), r);
  }

  /** A block that occurs once in all is in the tree of one address only. */
  lemma OnceInForest(disk: seq<Block>, roots: seq<Root>, r: int, x: int)
    requires 0 <= r < |roots| && Forest(disk, roots)[x] <= 1 && x in Tree(disk, roots[r].level, roots[r].bn)
    ensures Tree(disk, roots[r].level, roots[r].bn)[x] == 1
    ensures forall q :: 0 <= q < |roots| && q != r ==> x !in Tree(disk, roots[q].level, roots[q].bn)
  {
    hide Tree, Sum;
    var ms := RootTrees(disk, roots);
    InForest(disk, roots, r);
    forall q | 0 <= q < |roots| && q != r
      ensures x !in Tree(disk, roots[q].level, roots[q].bn)
    {
      SumTwo(ms, r, q, x);
    }
  }

  /** Only the tree of address r differs. */
  lemma ForestSwap(disk: seq<Block>, roots: seq<Root>, disk': seq<Block>, roots': seq<Root>, r: int)
    requires |roots| == |roots'| && 0 <= r < |roots|
    requires forall q :: 0 <= q < |roots| && q != r ==>
               Tree(disk', roots'[q].level, roots'[q].bn) == Tree(disk, roots[q].level, roots[q].bn)
    ensures Forest(disk', roots') + Tree(disk, roots[r].level, roots[r].bn)
         == Forest(disk, roots) + Tree(disk', roots'[r].level, roots'[r].bn)
  {
    hide Tree, Sum;
    var ms, ms' := RootTrees(disk, roots), RootTrees(disk', roots');
    assert ms' == ms[r := ms'[r]];
    SumUpdate(ms, r, ms'[r]);
  }

  lemma ForestFrame(disk: seq<Block>, disk': seq<Block>, roots: seq<Root>)
    requires Agree(disk, disk', Forest(disk, roots))
    ensures Forest(disk', roots) == Forest(disk, roots)
    ensures AllTyped(disk, roots) ==> AllTyped(disk', roots)
  {
    hide Tree, Sum, Typed;
    forall r | 0 <= r < |roots|
      ensures Tree(disk', roots[r].level, roots[r].bn) == Tree(disk, roots[r].level, roots[r].bn)
      ensures AllTyped(disk, roots) ==> Typed(disk', roots[r].level, roots[r].bn)
    {
      InForest(disk, roots, r);
      Frame(disk, disk', roots[r].level, roots[r].bn);
      if AllTyped(disk, roots) {
        TypedFrame(disk, disk', roots[r].level, roots[r].bn);
      }
    }
    assert RootTrees(disk', roots) == RootTrees(disk, roots);
  }

  ghost predicate AllTyped(disk: seq<Block>, roots: seq<Root>) {
    forall r :: 0 <= r < |roots| ==> Typed(disk, roots[r].level, roots[r].bn)
  }

  // ---- the chained free list ----

  /** Block b, read as part of the free list, holds the group g. */
  ghost predicate Links(b: Block, g: seq<int>) {
    b.Chain? && b.nfree == |g| <= NICFREE && |b.free| == NICFREE && b.free[..|g|] == g
  }

  ghost predicate GroupOk(disk: seq<Block>, groups: seq<seq<int>>, k: int)
    requires 0 <= k < |groups|
  {
    && 1 <= |groups[k]| <= NICFREE
    && (forall j :: 1 <= j < |groups[k]| ==> groups[k][j] != 0)
    && if k == |groups| - 1 then groups[k][0] == 0
       else groups[k][0] != 0 && 0 <= groups[k][0] < |disk| && Links(disk[groups[k][0]], groups[k + 1])
  }

  /** The first entry of each group is the block that holds the next group; 0 ends the list. */
  ghost predicate Chained(disk: seq<Block>, groups: seq<seq<int>>) {
    forall k :: 0 <= k < |groups| ==> GroupOk(disk, groups, k)
  }

  ghost function GroupSets(groups: seq<seq<int>>): (ms: seq<multiset<int>>)
    ensures |ms| == |groups| && forall k :: 0 <= k < |groups| ==> ms[k] == multiset(groups[k])
  {
    seq(|groups|, k requires 0 <= k < |groups| => multiset(groups[k]))
  }

  /** The free blocks, and the 0 that ends the list. */
  ghost function FreeOf(groups: seq<seq<int>>): multiset<int> {
    Sum(GroupSets(groups))
  }

  // ---- the account ----

  /** Each block of the data area [lo, hi) is in exactly one place, once, and no other block is anywhere. */
  ghost predicate Counted(disk: seq<Block>, roots: seq<Root>, groups: seq<seq<int>>, held: multiset<int>, lo: int, hi: int) {
    && 1 <= lo <= hi == |disk| && 0 !in held
    && forall x :: x != 0 ==>
         Forest(disk, roots)[x] + FreeOf(groups)[x] + held[x] == if lo <= x < hi then 1 else 0
  }

  ghost predicate Good(disk: seq<Block>, roots: seq<Root>, groups: seq<seq<int>>, held: multiset<int>, lo: int, hi: int) {
    && Counted(disk, roots, groups, held, lo, hi)
    && AllTyped(disk, roots)
    && Chained(disk, groups)
  }

  /** What the account says about one block. */
  lemma Where(disk: seq<Block>, roots: seq<Root>, groups: seq<seq<int>>, held: multiset<int>, lo: int, hi: int, x: int)
    requires Counted(disk, roots, groups, held, lo, hi) && x != 0
    ensures x in Forest(disk, roots) ==> x !in FreeOf(groups) && x !in held && lo <= x < hi && Forest(disk, roots)[x] == 1
    ensures x in FreeOf(groups) ==> x !in Forest(disk, roots) && x !in held && lo <= x < hi && FreeOf(groups)[x] == 1
    ensures x in held ==> x !in Forest(disk, roots) && x !in FreeOf(groups) && lo <= x < hi && held[x] == 1
  {
    hide Forest, FreeOf;
    assert Forest(disk, roots)[x] + FreeOf(groups)[x] + held[x] == if lo <= x < hi then 1 else 0;
  }

  lemma InGroup(groups: seq<seq<int>>, k: int, j: int)
    requires 0 <= k < |groups| && 0 <= j < |groups[k]|
    ensures groups[k][j] in FreeOf(groups)
  {
    SumPart(GroupSets(groups), k);
    assert groups[k][j] in multiset(groups[k]);
  }

  /** A block of the free list changes hands, or is put in the list: the trees do not notice. */
  lemma OutsideForest(disk: seq<Block>, roots: seq<Root>, x: int, b: Block)
    requires 0 <= x < |disk| && x !in Forest(disk, roots)
    ensures Forest(disk[x := b], roots) == Forest(disk, roots)
    ensures AllTyped(disk, roots) ==> AllTyped(disk[x := b], roots)
  {
    hide Forest;
    ForestFrame(disk, disk[x := b], roots);
  }

  lemma GroupsUpdate(groups: seq<seq<int>>, g: seq<int>)
    requires groups != []
    ensures FreeOf(groups[0 := g]) + multiset(groups[0]) == FreeOf(groups) + multiset(g)
  {
    var ms := GroupSets(groups);
    assert GroupSets(groups[0 := g]) == ms[0 := multiset(g)];
    SumUpdate(ms, 0, multiset(g));
  }

  lemma {:induction false} SumCons(m: multiset<int>, ms: seq<multiset<int>>)
    ensures Sum([m] + ms) == m + Sum(ms)
  {
    var ns := [m] + ms;
    if ms == [] {
      assert ns[..0] == [];
    } else {
      assert ns[..|ms|] == [m] + ms[..|ms| - 1];
      SumCons(m, ms[..|ms| - 1]);
    }
  }

  lemma GroupsCons(g: seq<int>, groups: seq<seq<int>>)
    ensures FreeOf([g] + groups) == multiset(g) + FreeOf(groups)
  {
    assert GroupSets([g] + groups) == [multiset(g)] + GroupSets(groups);
    SumCons(multiset(g), GroupSets(groups));
  }

  // ---- alloc ----

  /** The last entry of the first group is taken and cleared. */
  lemma TakeLast(disk: seq<Block>, roots: seq<Root>, groups: seq<seq<int>>, held: multiset<int>, lo: int, hi: int)
    requires Good(disk, roots, groups, held, lo, hi) && groups != [] && |groups[0]| > 1
    ensures var g, n := groups[0], |groups[0]| - 1;
            && lo <= g[n] < hi && g[n] !in Forest(disk, roots)
            && Good(disk[g[n] := Blank], roots, groups[0 := g[..n]], held + multiset{g[n]}, lo, hi)
  {
    hide Forest, FreeOf, Tree, AllTyped;
    var g, n := groups[0], |groups[0]| - 1;
    var b := g[n];
    assert GroupOk(disk, groups, 0);
    InGroup(groups, 0, n);
    Where(disk, roots, groups, held, lo, hi, b);
    OutsideForest(disk, roots, b, Blank);
    GroupsUpdate(groups, g[..n]);
    assert g == g[..n] + [b];
    assert multiset(g) == multiset(g[..n]) + multiset{b};
    var gs := groups[0 := g[..n]];
    Cancel(FreeOf(groups), FreeOf(gs), multiset(g[..n]), multiset{b});
    var disk' := disk[b := Blank];
    forall k | 0 <= k < |gs|
      ensures GroupOk(disk', gs, k)
    {
      assert GroupOk(disk, groups, k);
      HeadApart(groups, n, k);
    }
  }

  /** The block taken is not the head of any group. */
  lemma HeadApart(groups: seq<seq<int>>, n: int, k: int)
    requires 0 <= k < |groups| && 0 <= n < |groups[0]| && (k > 0 || n > 0)
    requires |groups[k]| > 0 && FreeOf(groups)[groups[0][n]] <= 1
    ensures groups[k][0] != groups[0][n]
  {
    var ms, b := GroupSets(groups), groups[0][n];
    if k > 0 {
      SumTwo(ms, 0, k, b);
      assert b in multiset(groups[0]);
      assert groups[k][0] in multiset(groups[k]);
    } else {
      SumPart(ms, 0);
      var g := groups[0];
      assert g == [g[0]] + g[1..n] + [g[n]] + g[n + 1..];
      assert multiset(g) == multiset{g[0]} + multiset(g[1..n]) + multiset{b} + multiset(g[n + 1..]);
    }
  }

  /** The only entry of the first group is the block that holds the next: the group is read from it and it is taken. */
  lemma TakeHead(disk: seq<Block>, roots: seq<Root>, groups: seq<seq<int>>, held: multiset<int>, lo: int, hi: int)
    requires Good(disk, roots, groups, held, lo, hi) && groups != [] && |groups[0]| == 1 && groups[0][0] != 0
    ensures var b := groups[0][0];
            && |groups| > 1 && lo <= b < hi && b !in Forest(disk, roots) && Links(disk[b], groups[1])
            && 1 <= |groups[1]|
            && Good(disk[b := Blank], roots, groups[1..], held + multiset{b}, lo, hi)
  {
    hide Forest, FreeOf, Tree, AllTyped;
    var b := groups[0][0];
    assert GroupOk(disk, groups, 0);
    assert GroupOk(disk, groups, 1);
    InGroup(groups, 0, 0);
    Where(disk, roots, groups, held, lo, hi, b);
    OutsideForest(disk, roots, b, Blank);
    var gs := groups[1..];
    assert groups == [groups[0]] + gs;
    GroupsCons(groups[0], gs);
    assert groups[0] == [b];
    var disk' := disk[b := Blank];
    forall k | 0 <= k < |gs|
      ensures GroupOk(disk', gs, k)
    {
      assert GroupOk(disk, groups, k + 1);
      HeadApart(groups, 0, k + 1);
    }
  }

  /** A list that holds only the end mark holds no block. */
  lemma ListEnds(disk: seq<Block>, roots: seq<Root>, groups: seq<seq<int>>, held: multiset<int>, lo: int, hi: int)
    requires Good(disk, roots, groups, held, lo, hi)
    requires groups == [] || (|groups[0]| >= 1 && groups[0][|groups[0]| - 1] == 0)
    ensures groups == [] || groups == [[0]]
    ensures forall x :: x != 0 ==> x !in FreeOf(groups)
    ensures Good(disk, roots, [], held, lo, hi)
  {
    hide Forest, Tree, AllTyped;
    if groups != [] {
      assert GroupOk(disk, groups, 0);
      assert groups[0] == [0];
      assert groups == [[0]] + [];
      GroupsCons([0], []);
    }
  }

  // ---- free ----

  /** A held block goes to the end of the first group. */
  lemma GiveLast(disk: seq<Block>, roots: seq<Root>, groups: seq<seq<int>>, held: multiset<int>, lo: int, hi: int, b: int)
    requires Good(disk, roots, groups, held, lo, hi) && b in held && groups != [] && |groups[0]| < NICFREE
    ensures Good(disk, roots, groups[0 := groups[0] + [b]], held - multiset{b}, lo, hi)
  {
    hide Forest, FreeOf, Tree, AllTyped;
    var g := groups[0] + [b];
    GroupsUpdate(groups, g);
    assert multiset(g) == multiset(groups[0]) + multiset{b};
    var gs := groups[0 := g];
    Cancel(FreeOf(gs), FreeOf(groups), multiset(groups[0]), multiset{b});
    forall k | 0 <= k < |gs|
      ensures GroupOk(disk, gs, k)
    {
      assert GroupOk(disk, groups, k);
    }
  }

  /** An empty list is first given its end mark. */
  lemma GiveEnd(disk: seq<Block>, roots: seq<Root>, held: multiset<int>, lo: int, hi: int)
    requires Good(disk, roots, [], held, lo, hi)
    ensures Good(disk, roots, [[0]], held, lo, hi)
  {
    hide Forest, Tree, AllTyped;
    assert [[0]] == [[0]] + [];
    GroupsCons([0], []);
  }

  /** The full first group is written to the held block, which becomes a first group of its own. */
  lemma GiveHead(disk: seq<Block>, roots: seq<Root>, groups: seq<seq<int>>, held: multiset<int>, lo: int, hi: int,
                 b: int, c: Block)
    requires Good(disk, roots, groups, held, lo, hi) && b in held && groups != [] && Links(c, groups[0])
    ensures lo <= b < hi
    ensures Good(disk[b := c], roots, [[b]] + groups, held - multiset{b}, lo, hi)
  {
    hide Forest, FreeOf, Tree, AllTyped;
    Where(disk, roots, groups, held, lo, hi, b);
    OutsideForest(disk, roots, b, c);
    GroupsCons([b], groups);
    var gs := [[b]] + groups;
    var disk' := disk[b := c];
    forall k | 0 <= k < |gs|
      ensures GroupOk(disk', gs, k)
    {
      if k > 0 {
        assert GroupOk(disk, groups, k - 1);
        InGroup(groups, k - 1, 0);
      }
    }
  }

  // ---- how many blocks are free ----

  ghost function FreeSet(groups: seq<seq<int>>): set<int> { set x | x in FreeOf(groups) && x != 0 }

  ghost function NFree(groups: seq<seq<int>>): (n: int)
    ensures n >= 0
  {
    |FreeSet(groups)|
  }

  lemma NoneFree()
    ensures NFree([]) == 0
  {
    assert GroupSets([]) == [];
    assert FreeOf([]) == multiset{};
  }

  lemma FreeNone(groups: seq<seq<int>>)
    ensures NFree(groups) == 0 <==> forall x :: x != 0 ==> x !in FreeOf(groups)
  {
    hide FreeOf;
    if NFree(groups) == 0 {
      forall x | x != 0
        ensures x !in FreeOf(groups)
      {
        assert x !in FreeSet(groups);
      }
    } else {
      var x :| x in FreeSet(groups);
    }
  }

  /** A free block that is now held. */
  lemma OneLess(disk: seq<Block>, roots: seq<Root>, groups: seq<seq<int>>, held: multiset<int>, lo: int, hi: int,
                groups': seq<seq<int>>, b: int)
    requires Counted(disk, roots, groups, held, lo, hi) && b != 0 && lo <= b < hi && b !in Forest(disk, roots)
    requires Counted(disk[b := Blank], roots, groups', held + multiset{b}, lo, hi)
    ensures NFree(groups) == NFree(groups') + 1
  {
    hide Forest, FreeOf;
    OutsideSame(disk, roots, b);
    forall x
      ensures x in FreeSet(groups) <==> x in FreeSet(groups') || x == b
    {
      if x != 0 {
        assert Forest(disk, roots)[x] + FreeOf(groups)[x] + held[x] == if lo <= x < hi then 1 else 0;
        assert Forest(disk, roots)[x] + FreeOf(groups')[x] + (held + multiset{b})[x] == if lo <= x < hi then 1 else 0;
      }
    }
    assert b !in FreeSet(groups') by {
      assert Forest(disk, roots)[b] + FreeOf(groups')[b] + (held + multiset{b})[b] == 1;
    }
    assert FreeSet(groups) == FreeSet(groups') + {b};
  }

  lemma OutsideSame(disk: seq<Block>, roots: seq<Root>, b: int)
    requires 0 <= b < |disk| && b !in Forest(disk, roots)
    ensures Forest(disk[b := Blank], roots) == Forest(disk, roots)
  {
    hide Forest;
    ForestFrame(disk, disk[b := Blank], roots);
  }

  /** The blocks of the data area that are in no file. */
  ghost function Unused(disk: seq<Block>, roots: seq<Root>, lo: int, hi: int): set<int> {
    set x | lo <= x < hi && x !in Forest(disk, roots)
  }

  /** When nothing is held they are the free blocks. */
  lemma FreeIsUnused(disk: seq<Block>, roots: seq<Root>, groups: seq<seq<int>>, lo: int, hi: int)
    requires Counted(disk, roots, groups, multiset{}, lo, hi)
    ensures FreeSet(groups) == Unused(disk, roots, lo, hi)
  {
    hide Forest, FreeOf;
    forall x
      ensures x in FreeSet(groups) <==> x in Unused(disk, roots, lo, hi)
    {
      if x != 0 {
        assert Forest(disk, roots)[x] + FreeOf(groups)[x] + multiset{}[x] == if lo <= x < hi then 1 else 0;
      }
    }
  }

  /** The trees of all addresses are the same on both disks. */
  ghost predicate SameTrees(disk: seq<Block>, disk': seq<Block>, roots: seq<Root>) {
    forall r :: 0 <= r < |roots| ==> Tree(disk', roots[r].level, roots[r].bn) == Tree(disk, roots[r].level, roots[r].bn)
  }

  lemma SameUnused(disk: seq<Block>, disk': seq<Block>, roots: seq<Root>, lo: int, hi: int)
    requires SameTrees(disk, disk', roots)
    ensures Unused(disk', roots, lo, hi) == Unused(disk, roots, lo, hi)
  {
    hide Tree, Sum;
    assert RootTrees(disk', roots) == RootTrees(disk, roots);
  }

  /** One address less, and then blocks outside all trees change. */
  lemma SameTreesDrop(disk0: seq<Block>, disk1: seq<Block>, disk2: seq<Block>, roots: seq<Root>, r: int)
    requires SameTrees(disk0, disk1, roots) && 0 <= r < |roots|
    requires SameTrees(disk1, disk2, roots[r := Root(roots[r].level, 0)])
    ensures SameTrees(disk0, disk2, roots[r := Root(roots[r].level, 0)])
  {
    var roots' := roots[r := Root(roots[r].level, 0)];
    LeafTree(disk0, roots[r].level, 0);
    LeafTree(disk1, roots[r].level, 0);
    hide Tree;
    forall q | 0 <= q < |roots|
      ensures Tree(disk2, roots'[q].level, roots'[q].bn) == Tree(disk0, roots'[q].level, roots'[q].bn)
    {
      assert Tree(disk2, roots'[q].level, roots'[q].bn) == Tree(disk1, roots'[q].level, roots'[q].bn);
      assert q != r ==> Tree(disk1, roots[q].level, roots[q].bn) == Tree(disk0, roots[q].level, roots[q].bn);
    }
  }

  /** What is held changes, which is in no tree. */
  lemma SameTreesHeld(disk: seq<Block>, disk': seq<Block>, roots: seq<Root>, groups: seq<seq<int>>, held: multiset<int>, lo: int, hi: int)
    requires Counted(disk, roots, groups, held, lo, hi) && |disk| == |disk'|
    requires forall x :: 0 <= x < |disk| && x !in held ==> disk'[x] == disk[x]
    ensures SameTrees(disk, disk', roots)
  {
    hide Forest, FreeOf, Tree;
    forall r | 0 <= r < |roots|
      ensures Tree(disk', roots[r].level, roots[r].bn) == Tree(disk, roots[r].level, roots[r].bn)
    {
      InForest(disk, roots, r);
      forall x | x in Tree(disk, roots[r].level, roots[r].bn) && 0 <= x < |disk|
        ensures disk'[x] == disk[x]
      {
        if x != 0 {
          Where(disk, roots, groups, held, lo, hi, x);
        }
      }
      Frame(disk, disk', roots[r].level, roots[r].bn);
    }
  }
}
