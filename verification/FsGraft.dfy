/** What happens to trees of blocks when an entry is filled or a data block is written. */
module FsGraft {
  import opened FsTree

  /** Only the tree under entry k differs. */
  lemma TreeSwap(disk: seq<Block>, disk': seq<Block>, level: nat, b: int, k: int)
    requires b != 0 && level > 0 && 0 <= k < NINDIR
    requires forall j :: 0 <= j < NINDIR && j != k ==>
               Tree(disk', level - 1, Entries(disk', b)[j]) == Tree(disk, level - 1, Entries(disk, b)[j])
    ensures Tree(disk', level, b) + Tree(disk, level - 1, Entries(disk, b)[k])
         == Tree(disk, level, b) + Tree(disk', level - 1, Entries(disk', b)[k])
  {
    hide Sum, Entries;
    var ms, ms' := Trees(disk, level - 1, Entries(disk, b)), Trees(disk', level - 1, Entries(disk', b));
    assert ms' == ms[k := ms'[k]];
    SumUpdate(ms, k, ms'[k]);
    var s, s' := Sum(ms), Sum(ms');
    assert (multiset{b} + s') + ms[k] == multiset{b} + (s' + ms[k]);
    assert (multiset{b} + s) + ms'[k] == multiset{b} + (s + ms'[k]);
  }

  /** Disk with address nb put in entry i of indirect block b. */
  ghost function Put(disk: seq<Block>, b: int, i: int, nb: int): seq<Block>
    requires 0 <= b < |disk| && 0 <= i < NINDIR
  {
    disk[b := Ind(Entries(disk, b)[i := nb])]
  }

  lemma PutEntries(disk: seq<Block>, b: int, i: int, nb: int, c: int)
    requires 0 <= b < |disk| && 0 <= i < NINDIR
    ensures Entries(Put(disk, b, i, nb), c) == if c == b then Entries(disk, b)[i := nb] else Entries(disk, c)
  {
  }

  /** nb is a cleared block to put in the empty entry i of block b, which path leads to. */
  ghost predicate Graftable(disk: seq<Block>, level: nat, root: int, path: seq<int>, i: int, b: int, nb: int) {
    && IsPath(path) && |path| < level && 0 <= i < NINDIR
    && 0 < b < |disk| && 0 < nb < |disk| && b != nb && disk[nb] == Blank
    && Walk(disk, root, path) == b && Entries(disk, b)[i] == 0
    && Tree(disk, level, root)[b] == 1 && nb !in Tree(disk, level, root)
  }

  lemma PutAgree(disk: seq<Block>, b: int, i: int, nb: int, s: multiset<int>)
    requires 0 <= b < |disk| && 0 <= i < NINDIR && b !in s
    ensures Agree(disk, Put(disk, b, i, nb), s)
  {
  }

  /** What the inductions below use about one step down the path. */
  lemma GraftDown(disk: seq<Block>, level: nat, root: int, path: seq<int>, i: int, b: int, nb: int)
    requires Graftable(disk, level, root, path, i, b, nb) && path != []
    ensures root != 0 && root != b
    ensures Graftable(disk, level - 1, Entries(disk, root)[path[0]], path[1..], i, b, nb)
    ensures forall j :: 0 <= j < NINDIR && j != path[0] ==> b !in Tree(disk, level - 1, Entries(disk, root)[j])
  {
    hide Tree, Entries;
    var c := Entries(disk, root)[path[0]];
    WalkInTree(disk, level - 1, c, path[1..]);
    OnceBelow(disk, level, root, path[0], b);
    Below(disk, level, root, path[0]);
  }

  /** Filling an empty entry adds exactly the new block to the tree. */
  lemma {:induction false} GraftTree(disk: seq<Block>, level: nat, root: int, path: seq<int>, i: int, b: int, nb: int)
    requires Graftable(disk, level, root, path, i, b, nb)
    ensures Tree(Put(disk, b, i, nb), level, root) == Tree(disk, level, root) + multiset{nb}
    decreases |path|
  {
    hide Tree, Entries, Put;
    var disk' := Put(disk, b, i, nb);
    PutEntries(disk, b, i, nb, root);
    if path == [] {
      forall j | 0 <= j < NINDIR && j != i
        ensures Tree(disk', level - 1, Entries(disk', b)[j]) == Tree(disk, level - 1, Entries(disk, b)[j])
      {
        OnceTop(disk, level, b, j);
        PutAgree(disk, b, i, nb, Tree(disk, level - 1, Entries(disk, b)[j]));
        Frame(disk, disk', level - 1, Entries(disk, b)[j]);
      }
      TreeSwap(disk, disk', level, b, i);
      LeafTree(disk, level - 1, 0);
      PutAt(disk, b, i, nb, nb);
      BlankTree(disk', level - 1, nb);
    } else {
      GraftDown(disk, level, root, path, i, b, nb);
      var k := path[0];
      GraftTree(disk, level - 1, Entries(disk, root)[k], path[1..], i, b, nb);
      forall j | 0 <= j < NINDIR && j != k
        ensures Tree(disk', level - 1, Entries(disk', root)[j]) == Tree(disk, level - 1, Entries(disk, root)[j])
      {
        PutAgree(disk, b, i, nb, Tree(disk, level - 1, Entries(disk, root)[j]));
        Frame(disk, disk', level - 1, Entries(disk, root)[j]);
      }
      TreeSwap(disk, disk', level, root, k);
      Cancel(Tree(disk', level, root), Tree(disk, level, root), Tree(disk, level - 1, Entries(disk, root)[k]), multiset{nb});
    }
  }

  lemma PutAt(disk: seq<Block>, b: int, i: int, nb: int, x: int)
    requires 0 <= b < |disk| && 0 <= i < NINDIR && 0 <= x < |disk| && x != b
    ensures |Put(disk, b, i, nb)| == |disk| && Put(disk, b, i, nb)[x] == disk[x]
  {
  }

  lemma Cancel(t': multiset<int>, t: multiset<int>, s: multiset<int>, n: multiset<int>)
    requires t' + s == t + (s + n)
    ensures t' == t + n
  {
    forall x
      ensures t'[x] == (t + n)[x]
    {
      assert (t' + s)[x] == (t + (s + n))[x];
    }
  }

  /** Filling an empty entry changes where that one path leads, and no other. */
  lemma {:induction false} GraftWalk(disk: seq<Block>, level: nat, root: int, path: seq<int>, i: int, b: int, nb: int, q: seq<int>)
    requires Graftable(disk, level, root, path, i, b, nb) && IsPath(q) && |q| <= level
    ensures Walk(Put(disk, b, i, nb), root, q) == if q == path + [i] then nb else Walk(disk, root, q)
    decreases |path|
  {
    hide Tree, Entries, Put;
    var disk' := Put(disk, b, i, nb);
    PutEntries(disk, b, i, nb, root);
    if q == [] {
    } else if path == [] {
      assert path + [i] == [i];
      assert q == [i] <==> q[0] == i && q[1..] == [];
      if q[0] == i {
        BlankWalk(disk, b, i, nb, q[1..]);
      } else {
        OnceTop(disk, level, b, q[0]);
        PutAgree(disk, b, i, nb, Tree(disk, level - 1, Entries(disk, b)[q[0]]));
        WalkFrame(disk, disk', level - 1, Entries(disk, b)[q[0]], q[1..]);
      }
    } else {
      GraftDown(disk, level, root, path, i, b, nb);
      assert q == path + [i] <==> q[0] == path[0] && q[1..] == path[1..] + [i] by {
        assert (path + [i])[1..] == path[1..] + [i];
        assert q == [q[0]] + q[1..] && path + [i] == [path[0]] + (path[1..] + [i]);
      }
      if q[0] == path[0] {
        GraftWalk(disk, level - 1, Entries(disk, root)[q[0]], path[1..], i, b, nb, q[1..]);
      } else {
        PutAgree(disk, b, i, nb, Tree(disk, level - 1, Entries(disk, root)[q[0]]));
        WalkFrame(disk, disk', level - 1, Entries(disk, root)[q[0]], q[1..]);
      }
    }
  }

  lemma BlankWalk(disk: seq<Block>, b: int, i: int, nb: int, q: seq<int>)
    requires 0 <= b < |disk| && 0 < nb < |disk| && b != nb && disk[nb] == Blank && 0 <= i < NINDIR && IsPath(q)
    ensures Walk(Put(disk, b, i, nb), nb, q) == if q == [] then nb else 0
    ensures Walk(disk, 0, q) == 0
  {
    if q != [] {
      var disk' := Put(disk, b, i, nb);
      assert Entries(disk', nb)[q[0]] == 0;
    }
  }

  /** And every block still holds what the tree expects of it. */
  lemma {:induction false} GraftTyped(disk: seq<Block>, level: nat, root: int, path: seq<int>, i: int, b: int, nb: int)
    requires Graftable(disk, level, root, path, i, b, nb) && Typed(disk, level, root)
    ensures Typed(Put(disk, b, i, nb), level, root)
    decreases |path|
  {
    hide Tree, Entries, Put;
    var disk' := Put(disk, b, i, nb);
    PutEntries(disk, b, i, nb, root);
    if path == [] {
      PutShaped(disk, b, i, nb, level, root);
      forall j | 0 <= j < NINDIR
        ensures Typed(disk', level - 1, Entries(disk', b)[j])
      {
        if j == i {
          PutAt(disk, b, i, nb, nb);
          BlankTree(disk', level - 1, nb);
        } else {
          OnceTop(disk, level, b, j);
          PutAgree(disk, b, i, nb, Tree(disk, level - 1, Entries(disk, b)[j]));
          TypedFrame(disk, disk', level - 1, Entries(disk, b)[j]);
        }
      }
    } else {
      GraftDown(disk, level, root, path, i, b, nb);
      PutShaped(disk, b, i, nb, level, root);
      forall j | 0 <= j < NINDIR
        ensures Typed(disk', level - 1, Entries(disk', root)[j])
      {
        if j == path[0] {
          GraftTyped(disk, level - 1, Entries(disk, root)[j], path[1..], i, b, nb);
        } else {
          PutAgree(disk, b, i, nb, Tree(disk, level - 1, Entries(disk, root)[j]));
          TypedFrame(disk, disk', level - 1, Entries(disk, root)[j]);
        }
      }
    }
  }

  lemma PutShaped(disk: seq<Block>, b: int, i: int, nb: int, level: nat, c: int)
    requires 0 <= b < |disk| && 0 <= i < NINDIR && level > 0 && Shaped(disk, level, c)
    ensures Shaped(Put(disk, b, i, nb), level, c)
  {
  }

  // ---- writing a data block ----

  /** b is the data block at the end of a full path. */
  ghost predicate IsLeaf(disk: seq<Block>, level: nat, root: int, path: seq<int>, b: int) {
    IsPath(path) && |path| == level && 0 < b < |disk| && Walk(disk, root, path) == b && Tree(disk, level, root)[b] == 1
  }

  lemma LeafDown(disk: seq<Block>, level: nat, root: int, path: seq<int>, b: int)
    requires IsLeaf(disk, level, root, path, b) && level > 0
    ensures root != 0 && root != b
    ensures IsLeaf(disk, level - 1, Entries(disk, root)[path[0]], path[1..], b)
    ensures forall j :: 0 <= j < NINDIR && j != path[0] ==> b !in Tree(disk, level - 1, Entries(disk, root)[j])
  {
    hide Tree, Entries;
    WalkInTree(disk, level - 1, Entries(disk, root)[path[0]], path[1..]);
    OnceBelow(disk, level, root, path[0], b);
    Below(disk, level, root, path[0]);
  }

  /** Writing data changes no tree and no path. */
  lemma {:induction false} LeafWrite(disk: seq<Block>, level: nat, root: int, path: seq<int>, b: int, bytes: seq<int>)
    requires IsLeaf(disk, level, root, path, b) && Typed(disk, level, root) && |bytes| == BSIZE
    ensures Tree(disk[b := Data(bytes)], level, root) == Tree(disk, level, root)
    ensures Typed(disk[b := Data(bytes)], level, root)
    decreases level
  {
    hide Tree, Entries;
    var disk' := disk[b := Data(bytes)];
    if level == 0 {
      LeafTree(disk, level, root);
      LeafTree(disk', level, root);
    } else {
      LeafDown(disk, level, root, path, b);
      WriteEntries(disk, b, bytes, root);
      forall j | 0 <= j < NINDIR
        ensures Tree(disk', level - 1, Entries(disk, root)[j]) == Tree(disk, level - 1, Entries(disk, root)[j])
        ensures Typed(disk', level - 1, Entries(disk, root)[j])
      {
        if j == path[0] {
          LeafWrite(disk, level - 1, Entries(disk, root)[j], path[1..], b, bytes);
        } else {
          Frame(disk, disk', level - 1, Entries(disk, root)[j]);
          TypedFrame(disk, disk', level - 1, Entries(disk, root)[j]);
        }
      }
      TreesEqual(disk, disk', level, root);
    }
  }

  lemma WriteEntries(disk: seq<Block>, b: int, bytes: seq<int>, c: int)
    requires 0 <= b < |disk| && c != b
    ensures Entries(disk[b := Data(bytes)], c) == Entries(disk, c)
  {
  }

  lemma {:induction false} LeafWalk(disk: seq<Block>, level: nat, root: int, path: seq<int>, b: int, bytes: seq<int>, q: seq<int>)
    requires IsLeaf(disk, level, root, path, b) && IsPath(q) && |q| <= level
    ensures Walk(disk[b := Data(bytes)], root, q) == Walk(disk, root, q)
    decreases level
  {
    hide Tree, Entries;
    if q != [] {
      LeafDown(disk, level, root, path, b);
      WriteEntries(disk, b, bytes, root);
      if q[0] == path[0] {
        LeafWalk(disk, level - 1, Entries(disk, root)[q[0]], path[1..], b, bytes, q[1..]);
      } else {
        WalkFrame(disk, disk[b := Data(bytes)], level - 1, Entries(disk, root)[q[0]], q[1..]);
      }
    }
  }

  /** Different full paths lead to different data blocks. */
  lemma {:induction false} LeafUnique(disk: seq<Block>, level: nat, root: int, path: seq<int>, b: int, q: seq<int>)
    requires IsLeaf(disk, level, root, path, b) && IsPath(q) && |q| == level && Walk(disk, root, q) == b
    ensures q == path
    decreases level
  {
    hide Tree, Entries;
    if level > 0 {
      LeafDown(disk, level, root, path, b);
      WalkInTree(disk, level - 1, Entries(disk, root)[q[0]], q[1..]);
      assert q[0] == path[0];
      LeafUnique(disk, level - 1, Entries(disk, root)[q[0]], path[1..], b, q[1..]);
      assert q == [q[0]] + q[1..] && path == [path[0]] + path[1..];
    }
  }
}
