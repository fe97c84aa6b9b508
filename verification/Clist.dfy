/**
 * Character lists (usr/sys/sys/prim.c): queues of bytes in chains of small
 * blocks from a common pool. A block takes 16 bytes, a link of 4 and 12
 * characters, at an address that is a multiple of 16; pointers are addresses
 * and 0 is NULL. Block b is at 16 * b, and blocks are numbered from 1.
 */
module Clist {

  const CBSIZE := 12
  const BLK := 16

  datatype Queue = Queue(cc: int, cf: int, cl: int)

  /** The links of the blocks, the memory, the head of the free list, and the queues. */
  datatype Pool = Pool(next: seq<int>, mem: seq<int>, free: int, qs: seq<Queue>)

  /** The blocks of each list: list 0 is the free list and list i + 1 that of queue i. owner: the list of each block. */
  datatype Lists = Lists(of: seq<seq<int>>, owner: seq<int>)

  // ---- the blocks ----

  ghost predicate Distinct(l: seq<int>) { forall i, j :: 0 <= i < j < |l| ==> l[i] != l[j] }

  ghost predicate Mine(l: seq<int>, owner: seq<int>, i: int) {
    forall k {:trigger l[k]} :: 0 <= k < |l| ==> 1 <= l[k] < |owner| && owner[l[k]] == i
  }

  /** Every block is in exactly one list, once. */
  ghost predicate Shared(s: Lists) {
    && (forall i {:trigger s.of[i]} :: 0 <= i < |s.of| ==> Distinct(s.of[i]) && Mine(s.of[i], s.owner, i))
    && (forall b {:trigger s.owner[b]} :: 1 <= b < |s.owner| ==> 0 <= s.owner[b] < |s.of| && b in s.of[s.owner[b]])
  }

  ghost predicate Linked(next: seq<int>, l: seq<int>) {
    && (forall k {:trigger l[k]} :: 0 <= k < |l| ==> 1 <= l[k] < |next|)
    && (forall k {:trigger next[l[k]]} :: 0 <= k < |l| ==> next[l[k]] == if k + 1 < |l| then l[k + 1] else 0)
  }

  ghost predicate QueueOk(q: Queue, l: seq<int>) {
    if l == [] then q == Queue(0, 0, 0)
    else
      var first, last := BLK * l[0], BLK * l[|l| - 1];
      && first + 4 <= q.cf < first + BLK
      && last + 4 < q.cl <= last + BLK
      && q.cc == CBSIZE * (|l| - 1) + (q.cl - last) - (q.cf - first) > 0
  }

  ghost predicate Ok(p: Pool, s: Lists) {
    && Shared(s) && |s.of| == |p.qs| + 1 && |s.owner| == |p.next| && |p.mem| == BLK * |p.next|
    && AllLinked(p.next, s)
    && p.free == (if s.of[0] == [] then 0 else s.of[0][0])
    && (forall i {:trigger p.qs[i]} :: 0 <= i < |p.qs| ==> QueueOk(p.qs[i], s.of[i + 1]))
  }

  // ---- the bytes of a queue ----

  function At(mem: seq<int>, a: int): int { if 0 <= a < |mem| then mem[a] else 0 }

  /** The address of character k of a chain of blocks. */
  function Place(l: seq<int>, k: int): int { if 0 <= k / CBSIZE < |l| then BLK * l[k / CBSIZE] + 4 + k % CBSIZE else 0 }

  /** Where the first character is in the chain. */
  function Start(q: Queue, l: seq<int>): int { if l == [] then 0 else q.cf - BLK * l[0] - 4 }

  ghost function Bytes(mem: seq<int>, q: Queue, l: seq<int>): (r: seq<int>)
    ensures |r| == if q.cc < 0 then 0 else q.cc
    ensures forall k {:trigger r[k]} :: 0 <= k < |r| ==> r[k] == At(mem, Place(l, Start(q, l) + k))
  {
    seq(if q.cc < 0 then 0 else q.cc, k requires 0 <= k => At(mem, Place(l, Start(q, l) + k)))
  }

  // ---- blocks move between the free list and a queue ----

  ghost predicate AllLinked(next: seq<int>, s: Lists) {
    forall i {:trigger s.of[i]} :: 0 <= i < |s.of| ==> Linked(next, s.of[i])
  }

  /** The first free block goes to the end of list i. */
  function Taken(s: Lists, i: int): Lists
    requires 0 < i < |s.of| && s.of[0] != [] && 0 <= s.of[0][0] < |s.owner|
  {
    var b := s.of[0][0];
    Lists(s.of[0 := s.of[0][1..]][i := s.of[i] + [b]], s.owner[b := i])
  }

  function TakenNext(next: seq<int>, s: Lists, i: int): seq<int>
    requires 0 < i < |s.of| && s.of[0] != [] && 0 <= s.of[0][0] < |next| && (s.of[i] != [] ==> 0 <= s.of[i][|s.of[i]| - 1] < |next|)
  {
    var b := s.of[0][0];
    (if s.of[i] == [] then next else next[s.of[i][|s.of[i]| - 1] := b])[b := 0]
  }

  /** The first block of list i is freed. */
  function Given(s: Lists, i: int): Lists
    requires 0 < i < |s.of| && s.of[i] != [] && 0 <= s.of[i][0] < |s.owner|
  {
    var b := s.of[i][0];
    Lists(s.of[0 := [b] + s.of[0]][i := s.of[i][1..]], s.owner[b := 0])
  }

  /** A block of one list is not in another. */
  lemma Apart(s: Lists, i: int, k: int, j: int, m: int)
    requires Shared(s) && 0 <= i < |s.of| && 0 <= j < |s.of| && 0 <= k < |s.of[i]| && 0 <= m < |s.of[j]|
    ensures 1 <= s.of[i][k] < |s.owner|
    ensures s.of[i][k] == s.of[j][m] ==> i == j && k == m
  {
    assert Mine(s.of[i], s.owner, i) && Mine(s.of[j], s.owner, j);
    assert Distinct(s.of[i]) && Distinct(s.of[j]);
  }

  ghost predicate Avoids(l: seq<int>, b: int) { forall m {:trigger l[m]} :: 0 <= m < |l| ==> l[m] != b }

  lemma Elsewhere(s: Lists, i: int, k: int, j: int)
    requires Shared(s) && 0 <= i < |s.of| && 0 <= j < |s.of| && 0 <= k < |s.of[i]|
    ensures i != j ==> Avoids(s.of[j], s.of[i][k])
    ensures Avoids(s.of[i][..k], s.of[i][k]) && Avoids(s.of[i][k + 1..], s.of[i][k])
  {
    hide Shared;
    forall m | 0 <= m < |s.of[j]|
      ensures s.of[i][k] == s.of[j][m] ==> i == j && k == m
    {
      Apart(s, i, k, j, m);
    }
    forall m | 0 <= m < |s.of[i]|
      ensures s.of[i][k] == s.of[i][m] ==> k == m
    {
      Apart(s, i, k, i, m);
    }
  }

  lemma OneList(s: Lists, j: int)
    requires Shared(s) && 0 <= j < |s.of|
    ensures Distinct(s.of[j]) && Mine(s.of[j], s.owner, j)
  {
  }

  lemma OneBlock(s: Lists, c: int)
    requires Shared(s) && 1 <= c < |s.owner|
    ensures 0 <= s.owner[c] < |s.of| && c in s.of[s.owner[c]]
  {
  }

  ghost predicate Good(l: seq<int>, owner: seq<int>, i: int) { Distinct(l) && Mine(l, owner, i) }

  lemma GoodSet(l: seq<int>, owner: seq<int>, i: int, b: int, x: int)
    requires Good(l, owner, i) && Avoids(l, b) && 0 <= b < |owner|
    ensures Good(l, owner[b := x], i)
  {
  }

  lemma GoodSnoc(l: seq<int>, owner: seq<int>, i: int, b: int)
    requires Good(l, owner, i) && Avoids(l, b) && 1 <= b < |owner|
    ensures Good(l + [b], owner[b := i], i)
  {
  }

  lemma GoodCons(l: seq<int>, owner: seq<int>, i: int, b: int)
    requires Good(l, owner, i) && Avoids(l, b) && 1 <= b < |owner|
    ensures Good([b] + l, owner[b := i], i)
  {
  }

  lemma GoodTail(l: seq<int>, owner: seq<int>, i: int, x: int)
    requires Good(l, owner, i) && l != []
    ensures Good(l[1..], owner[l[0] := x], i)
  {
  }

  lemma TakenList(s: Lists, i: int, j: int)
    requires Shared(s) && 0 < i < |s.of| && s.of[0] != [] && 1 <= s.of[0][0] < |s.owner| && 0 <= j < |s.of|
    ensures Good(Taken(s, i).of[j], Taken(s, i).owner, j)
  {
    OneList(s, j);
    Elsewhere(s, 0, 0, j);
    hide Shared, Distinct, Mine, Avoids;
    if j == 0 {
      GoodTail(s.of[0], s.owner, 0, i);
    } else if j == i {
      GoodSnoc(s.of[i], s.owner, i, s.of[0][0]);
    } else {
      GoodSet(s.of[j], s.owner, j, s.of[0][0], i);
    }
  }

  lemma TakenShared(s: Lists, i: int)
    requires Shared(s) && 0 < i < |s.of| && s.of[0] != []
    ensures 1 <= s.of[0][0] < |s.owner| && Shared(Taken(s, i))
  {
    Apart(s, 0, 0, 0, 0);
    var b, s' := s.of[0][0], Taken(s, i);
    forall j | 0 <= j < |s'.of|
      ensures Distinct(s'.of[j]) && Mine(s'.of[j], s'.owner, j)
    {
      TakenList(s, i, j);
    }
    hide Distinct, Mine;
    forall c | 1 <= c < |s.owner|
      ensures 0 <= s'.owner[c] < |s'.of| && c in s'.of[s'.owner[c]]
    {
      assert c in s.of[s.owner[c]];
      assert s.of[0] == [b] + s.of[0][1..];
      assert b in s.of[i] + [b];
    }
  }

  lemma GivenList(s: Lists, i: int, j: int)
    requires Shared(s) && 0 < i < |s.of| && s.of[i] != [] && 1 <= s.of[i][0] < |s.owner| && 0 <= j < |s.of|
    ensures Good(Given(s, i).of[j], Given(s, i).owner, j)
  {
    OneList(s, j);
    Elsewhere(s, i, 0, j);
    hide Shared, Distinct, Mine, Avoids;
    if j == 0 {
      GoodCons(s.of[0], s.owner, 0, s.of[i][0]);
    } else if j == i {
      GoodTail(s.of[i], s.owner, i, 0);
    } else {
      GoodSet(s.of[j], s.owner, j, s.of[i][0], 0);
    }
  }

  lemma GivenShared(s: Lists, i: int)
    requires Shared(s) && 0 < i < |s.of| && s.of[i] != []
    ensures 1 <= s.of[i][0] < |s.owner| && Shared(Given(s, i))
  {
    Apart(s, i, 0, i, 0);
    var b, s' := s.of[i][0], Given(s, i);
    forall j | 0 <= j < |s'.of|
      ensures Distinct(s'.of[j]) && Mine(s'.of[j], s'.owner, j)
    {
      GivenList(s, i, j);
    }
    hide Distinct, Mine;
    forall c | 1 <= c < |s.owner|
      ensures 0 <= s'.owner[c] < |s'.of| && c in s'.of[s'.owner[c]]
    {
      assert c in s.of[s.owner[c]];
      assert s.of[i] == [b] + s.of[i][1..];
      assert b in [b] + s.of[0];
    }
  }

  lemma LinkedSet(next: seq<int>, l: seq<int>, b: int, x: int)
    requires Linked(next, l) && Avoids(l, b) && 0 <= b < |next|
    ensures Linked(next[b := x], l)
  {
  }

  lemma LinkedTail(next: seq<int>, l: seq<int>)
    requires Linked(next, l) && l != []
    ensures Linked(next, l[1..]) && next[l[0]] == if |l| > 1 then l[1] else 0
  {
    assert forall k {:trigger l[1..][k]} :: 0 <= k < |l| - 1 ==> l[1..][k] == l[k + 1] && next[l[k + 1]] == next[l[k + 1]];
  }

  lemma LinkedCons(next: seq<int>, l: seq<int>, b: int)
    requires Linked(next, l) && Avoids(l, b) && 1 <= b < |next|
    ensures Linked(next[b := if l == [] then 0 else l[0]], [b] + l)
  {
    var next', l' := next[b := if l == [] then 0 else l[0]], [b] + l;
    assert forall k {:trigger l'[k]} :: 1 <= k < |l'| ==> l'[k] == l[k - 1] && next[l[k - 1]] == next'[l'[k]];
  }

  lemma LinkedSnoc(next: seq<int>, l: seq<int>, b: int)
    requires Linked(next, l) && Avoids(l, b) && 1 <= b < |next| && (l != [] ==> Avoids(l[..|l| - 1], l[|l| - 1]))
    ensures Linked((if l == [] then next else next[l[|l| - 1] := b])[b := 0], l + [b])
  {
    var next', l' := (if l == [] then next else next[l[|l| - 1] := b])[b := 0], l + [b];
    forall k | 0 <= k < |l'|
      ensures next'[l'[k]] == if k + 1 < |l'| then l'[k + 1] else 0
    {
      if k < |l| {
        assert next[l[k]] == if k + 1 < |l| then l[k + 1] else 0;
        assert k < |l| - 1 ==> l[..|l| - 1][k] == l[k];
      }
    }
  }

  lemma TakenLinked(next: seq<int>, s: Lists, i: int)
    requires Shared(s) && AllLinked(next, s) && 0 < i < |s.of| && s.of[0] != []
    ensures 1 <= s.of[0][0] < |s.owner| && 1 <= s.of[0][0] < |next|
    ensures s.of[i] != [] ==> 1 <= s.of[i][|s.of[i]| - 1] < |next|
    ensures AllLinked(TakenNext(next, s, i), Taken(s, i))
  {
    Apart(s, 0, 0, 0, 0);
    assert Linked(next, s.of[0]) && Linked(next, s.of[i]);
    hide Shared, Linked, Taken, TakenNext;
    TakenIs(s, i);
    forall j | 0 <= j < |s.of|
      ensures Linked(TakenNext(next, s, i), Taken(s, i).of[j])
    {
      assert Linked(next, s.of[j]);
      if j == i {
        TakenLast(next, s, i);
      } else {
        TakenLinkedAt(next, s, i, j);
      }
    }
  }

  lemma TakenLast(next: seq<int>, s: Lists, i: int)
    requires Shared(s) && 0 < i < |s.of| && s.of[0] != [] && Linked(next, s.of[i])
    requires 1 <= s.of[0][0] < |next| && (s.of[i] != [] ==> 1 <= s.of[i][|s.of[i]| - 1] < |next|)
    ensures Linked(TakenNext(next, s, i), s.of[i] + [s.of[0][0]])
  {
    hide Shared, Linked;
    Elsewhere(s, 0, 0, i);
    if s.of[i] != [] {
      Elsewhere(s, i, |s.of[i]| - 1, i);
    }
    LinkedSnoc(next, s.of[i], s.of[0][0]);
  }

  lemma TakenLinkedAt(next: seq<int>, s: Lists, i: int, j: int)
    requires Shared(s) && 0 < i < |s.of| && 0 <= j < |s.of| && j != i && s.of[0] != [] && Linked(next, s.of[j])
    requires 1 <= s.of[0][0] < |next| && (s.of[i] != [] ==> 1 <= s.of[i][|s.of[i]| - 1] < |next|)
    ensures Linked(TakenNext(next, s, i), if j == 0 then s.of[0][1..] else s.of[j])
  {
    hide Shared, Linked;
    var b, n, l := s.of[0][0], |s.of[i]|, if j == 0 then s.of[0][1..] else s.of[j];
    Elsewhere(s, 0, 0, j);
    if j == 0 {
      LinkedTail(next, s.of[0]);
    }
    assert Avoids(l, b) && Linked(next, l);
    if n > 0 {
      Elsewhere(s, i, n - 1, j);
      assert Avoids(l, s.of[i][n - 1]);
      LinkedSet(next, l, s.of[i][n - 1], b);
    }
    LinkedSet(if n > 0 then next[s.of[i][n - 1] := b] else next, l, b, 0);
  }

  lemma GivenLinked(next: seq<int>, s: Lists, i: int)
    requires Shared(s) && AllLinked(next, s) && 0 < i < |s.of| && s.of[i] != []
    ensures 1 <= s.of[i][0] < |s.owner| && 1 <= s.of[i][0] < |next|
    ensures AllLinked(next[s.of[i][0] := if s.of[0] == [] then 0 else s.of[0][0]], Given(s, i))
  {
    Apart(s, i, 0, i, 0);
    assert Linked(next, s.of[0]) && Linked(next, s.of[i]);
    hide Shared;
    var b, s', x := s.of[i][0], Given(s, i), if s.of[0] == [] then 0 else s.of[0][0];
    forall j | 0 <= j < |s.of|
      ensures Linked(next[b := x], s'.of[j])
    {
      assert Linked(next, s.of[j]);
      hide Linked;
      Elsewhere(s, i, 0, j);
      if j == 0 {
        LinkedCons(next, s.of[0], b);
      } else {
        if j == i {
          LinkedTail(next, s.of[i]);
        }
        LinkedSet(next, s'.of[j], b, x);
      }
    }
  }

  // ---- one queue ----

  lemma FirstByte(mem: seq<int>, q: Queue, l: seq<int>)
    requires QueueOk(q, l) && l != []
    ensures Place(l, Start(q, l)) == q.cf && Bytes(mem, q, l)[0] == At(mem, q.cf) && 0 <= Start(q, l) < CBSIZE
  {
  }

  /** A character is taken and the block has more. */
  lemma GetSame(mem: seq<int>, q: Queue, l: seq<int>)
    requires QueueOk(q, l) && q.cc > 1 && (q.cf + 1) % BLK != 0
    ensures var q' := q.(cc := q.cc - 1, cf := q.cf + 1); QueueOk(q', l) && Bytes(mem, q', l) == Bytes(mem, q, l)[1..]
  {
    var q' := q.(cc := q.cc - 1, cf := q.cf + 1);
    var r, r' := Bytes(mem, q, l), Bytes(mem, q', l);
    assert forall k {:trigger r'[k]} :: 0 <= k < |r'| ==> r'[k] == r[k + 1];
  }

  /** A character is taken and its block is empty. */
  lemma GetBlock(mem: seq<int>, q: Queue, l: seq<int>)
    requires QueueOk(q, l) && q.cc > 1 && (q.cf + 1) % BLK == 0
    ensures |l| > 1 && (q.cf + 1) / BLK - 1 == l[0]
    ensures var q' := q.(cc := q.cc - 1, cf := BLK * l[1] + 4); QueueOk(q', l[1..]) && Bytes(mem, q', l[1..]) == Bytes(mem, q, l)[1..]
  {
    assert q.cf + 1 == BLK * l[0] + BLK;
    var q' := q.(cc := q.cc - 1, cf := BLK * l[1] + 4);
    var r, r' := Bytes(mem, q, l), Bytes(mem, q', l[1..]);
    forall k | 0 <= k < |r'|
      ensures r'[k] == r[k + 1]
    {
      assert (k + CBSIZE) / CBSIZE == k / CBSIZE + 1 && (k + CBSIZE) % CBSIZE == k % CBSIZE;
      assert Place(l[1..], k) == Place(l, k + CBSIZE);
    }
  }

  /** The last character is taken. */
  lemma GetLast(mem: seq<int>, q: Queue, l: seq<int>)
    requires QueueOk(q, l) && q.cc == 1
    ensures |l| == 1 && q.cf / BLK == l[0] && Bytes(mem, q, l)[1..] == []
  {
  }

  /** Two characters of a chain are at different places. */
  lemma PlacesDiffer(l: seq<int>, j: int, k: int)
    requires Distinct(l) && 0 <= j < k && k / CBSIZE < |l|
    ensures Place(l, j) != Place(l, k)
  {
    assert j / CBSIZE <= k / CBSIZE;
    if j / CBSIZE < k / CBSIZE {
      assert l[j / CBSIZE] != l[k / CBSIZE];
    }
  }

  lemma EndPlace(q: Queue, l: seq<int>)
    requires QueueOk(q, l) && l != [] && q.cl % BLK != 0
    ensures var e := Start(q, l) + q.cc; Place(l, e) == q.cl && e / CBSIZE < |l|
    ensures q.cc > 0 && Start(q, l) >= 0 && QueueOk(q.(cc := q.cc + 1, cl := q.cl + 1), l)
    ensures Start(q.(cc := q.cc + 1, cl := q.cl + 1), l) == Start(q, l)
  {
    var e := Start(q, l) + q.cc;
    var last := q.cl - BLK * l[|l| - 1] - 4;
    assert e == CBSIZE * (|l| - 1) + last && 0 < last < CBSIZE;
    assert e / CBSIZE == |l| - 1 && e % CBSIZE == last;
  }

  /** A character goes to the end of the last block. */
  lemma PutSame(mem: seq<int>, q: Queue, l: seq<int>, c: int)
    requires QueueOk(q, l) && l != [] && q.cl % BLK != 0 && Distinct(l) && 0 <= q.cl < |mem|
    ensures var q' := q.(cc := q.cc + 1, cl := q.cl + 1); QueueOk(q', l) && Bytes(mem[q.cl := c], q', l) == Bytes(mem, q, l) + [c]
  {
    hide Place, QueueOk, Distinct, Start;
    EndPlace(q, l);
    var q', st := q.(cc := q.cc + 1, cl := q.cl + 1), Start(q, l);
    var r, r', e := Bytes(mem, q, l), Bytes(mem[q.cl := c], q', l), st + q.cc;
    assert r'[q.cc] == c;
    forall k | 0 <= k < |r|
      ensures r'[k] == r[k]
    {
      PlacesDiffer(l, st + k, e);
    }
  }

  /** A character goes to a new last block. */
  lemma PutBlock(mem: seq<int>, q: Queue, l: seq<int>, b: int, c: int)
    requires QueueOk(q, l) && l != [] && q.cl % BLK == 0 && Distinct(l + [b]) && 0 < b && BLK * b + 4 < |mem|
    ensures q.cl / BLK - 1 == l[|l| - 1]
    ensures var q' := q.(cc := q.cc + 1, cl := BLK * b + 5);
            QueueOk(q', l + [b]) && Bytes(mem[BLK * b + 4 := c], q', l + [b]) == Bytes(mem, q, l) + [c]
  {
    hide Place, QueueOk, Distinct, Start;
    NextPlace(q, l, b);
    var l', q', st := l + [b], q.(cc := q.cc + 1, cl := BLK * b + 5), Start(q, l);
    var r, r', e := Bytes(mem, q, l), Bytes(mem[BLK * b + 4 := c], q', l'), st + q.cc;
    assert r'[q.cc] == c;
    forall k | 0 <= k < |r|
      ensures r'[k] == r[k]
    {
      PlacesDiffer(l', st + k, e);
      PlaceSame(l, b, st + k);
    }
  }

  lemma NextPlace(q: Queue, l: seq<int>, b: int)
    requires QueueOk(q, l) && l != [] && q.cl % BLK == 0
    ensures q.cl / BLK - 1 == l[|l| - 1] && q.cc > 0 && Start(q, l) >= 0
    ensures var q' := q.(cc := q.cc + 1, cl := BLK * b + 5); QueueOk(q', l + [b]) && Start(q', l + [b]) == Start(q, l)
    ensures var e := Start(q, l) + q.cc; e == CBSIZE * |l| && e / CBSIZE == |l| && Place(l + [b], e) == BLK * b + 4
  {
    assert q.cl == BLK * l[|l| - 1] + BLK;
    var e := Start(q, l) + q.cc;
    assert e == CBSIZE * |l| && e / CBSIZE == |l| && e % CBSIZE == 0;
  }

  lemma PlaceSame(l: seq<int>, b: int, k: int)
    requires 0 <= k < CBSIZE * |l|
    ensures Place(l + [b], k) == Place(l, k)
  {
    assert k / CBSIZE < |l|;
  }

  lemma PutFirst(mem: seq<int>, b: int, c: int)
    requires 0 < b && BLK * b + 4 < |mem|
    ensures var q' := Queue(1, BLK * b + 4, BLK * b + 5); QueueOk(q', [b]) && Bytes(mem[BLK * b + 4 := c], q', [b]) == [c]
  {
  }

  /** The other queues do not change. */
  lemma BytesOther(mem: seq<int>, q: Queue, l: seq<int>, b: int, a: int, c: int)
    requires Avoids(l, b) && BLK * b <= a < BLK * b + BLK && 0 <= a < |mem| && QueueOk(q, l)
    ensures Bytes(mem[a := c], q, l) == Bytes(mem, q, l)
  {
    var r, r' := Bytes(mem, q, l), Bytes(mem[a := c], q, l);
    forall k | 0 <= k < |r|
      ensures r'[k] == r[k]
    {
      var j := Start(q, l) + k;
      if 0 <= j / CBSIZE < |l| {
        assert l[j / CBSIZE] != b;
        assert 0 <= j % CBSIZE < CBSIZE;
        assert Place(l, j) != a;
      }
    }
  }

  // ---- the operations ----

  ghost function Contents(p: Pool, s: Lists, i: int): seq<int> {
    if 0 <= i < |p.qs| && i + 1 < |s.of| then Bytes(p.mem, p.qs[i], s.of[i + 1]) else []
  }

  /** The other queues hold what they held. */
  ghost predicate Others(p: Pool, s: Lists, p': Pool, s': Lists, i: int) {
    && |p'.qs| == |p.qs| && |s.of| == |s'.of| == |p.qs| + 1 && |p'.next| == |p.next| && |p'.mem| == |p.mem|
    && forall j {:trigger Contents(p', s', j)} :: 0 <= j < |p.qs| && j != i ==> Contents(p', s', j) == Contents(p, s, j)
  }

  /** A byte of queue i is taken, with its block if free. */
  lemma AfterGet(p: Pool, s: Lists, i: int, q: Queue)
    requires Ok(p, s) && 0 <= i < |p.qs| && QueueOk(q, s.of[i + 1])
    ensures var p' := p.(qs := p.qs[i := q]); Ok(p', s) && Others(p, s, p', s, i)
  {
    hide Shared, AllLinked, Bytes;
    var p' := p.(qs := p.qs[i := q]);
    forall j | 0 <= j < |p.qs|
      ensures QueueOk(p'.qs[j], s.of[j + 1])
    {
      assert QueueOk(p.qs[j], s.of[j + 1]);
    }
  }

  lemma AfterFree(p: Pool, s: Lists, i: int, q: Queue)
    requires Ok(p, s) && 0 <= i < |p.qs| && s.of[i + 1] != [] && QueueOk(q, s.of[i + 1][1..])
    ensures var b := s.of[i + 1][0];
            && 1 <= b < |p.next| && b < |s.owner|
            && var p' := p.(qs := p.qs[i := q], next := p.next[b := p.free], free := b);
            Ok(p', Given(s, i + 1)) && Others(p, s, p', Given(s, i + 1), i)
  {
    GivenShared(s, i + 1);
    GivenLinked(p.next, s, i + 1);
    GivenIs(s, i + 1);
    hide Shared, AllLinked, Bytes, QueueOk, Given;
    var b, s' := s.of[i + 1][0], Given(s, i + 1);
    var p' := p.(qs := p.qs[i := q], next := p.next[b := p.free], free := b);
    forall j | 0 <= j < |p.qs|
      ensures QueueOk(p'.qs[j], s'.of[j + 1]) && (j != i ==> Contents(p', s', j) == Contents(p, s, j))
    {
      assert QueueOk(p.qs[j], s.of[j + 1]);
      assert j != i ==> s'.of[j + 1] == s.of[j + 1];
    }
  }

  /** A byte is put at address a of block b, which is not in another queue. */
  lemma AfterPut(p: Pool, s: Lists, i: int, q: Queue, a: int, c: int)
    requires Ok(p, s) && 0 <= i < |p.qs| && QueueOk(q, s.of[i + 1]) && s.of[i + 1] != []
    requires var b := s.of[i + 1][|s.of[i + 1]| - 1]; BLK * b <= a < BLK * b + BLK && 0 <= a < |p.mem|
    ensures var p' := p.(qs := p.qs[i := q], mem := p.mem[a := c]); Ok(p', s) && Others(p, s, p', s, i)
  {
    var l := s.of[i + 1];
    var b := l[|l| - 1];
    var p' := p.(qs := p.qs[i := q], mem := p.mem[a := c]);
    forall j | 0 <= j < |p.qs|
      ensures QueueOk(p'.qs[j], s.of[j + 1])
      ensures j != i ==> Contents(p', s, j) == Contents(p, s, j)
    {
      assert QueueOk(p.qs[j], s.of[j + 1]);
      Elsewhere(s, i + 1, |l| - 1, j + 1);
      hide Shared, AllLinked, Bytes;
      if j != i {
        BytesOther(p.mem, p.qs[j], s.of[j + 1], b, a, c);
      }
    }
  }

  lemma TakeOther(p: Pool, s: Lists, i: int, c: int, j: int)
    requires Ok(p, s) && 0 <= i < |p.qs| && s.of[0] != [] && 0 <= j < |p.qs| && j != i && TakeFits(p, s, i)
    ensures var mem := p.mem[BLK * s.of[0][0] + 4 := c];
            var l := Taken(s, i + 1).of[j + 1];
            QueueOk(p.qs[j], l) && Bytes(mem, p.qs[j], l) == Bytes(p.mem, p.qs[j], s.of[j + 1])
  {
    hide Ok, Shared, AllLinked, Linked, Bytes, QueueOk, Taken;
    OkFacts(p, s, j);
    Elsewhere(s, 0, 0, j + 1);
    TakenIs(s, i + 1);
    BytesOther(p.mem, p.qs[j], s.of[j + 1], s.of[0][0], BLK * s.of[0][0] + 4, c);
  }

  function Second(l: seq<int>): int { if |l| > 1 then l[1] else 0 }

  /** A block is taken for a byte of queue i, and the byte put in. */
  lemma AfterTake(p: Pool, s: Lists, i: int, q: Queue, c: int)
    requires Ok(p, s) && 0 <= i < |p.qs| && s.of[0] != [] && QueueOk(q, s.of[i + 1] + [s.of[0][0]])
    ensures TakeFits(p, s, i)
    ensures var p' := Pool(TakenNext(p.next, s, i + 1), p.mem[BLK * s.of[0][0] + 4 := c], Second(s.of[0]), p.qs[i := q]);
            Ok(p', Taken(s, i + 1)) && Others(p, s, p', Taken(s, i + 1), i)
  {
    TakenShared(s, i + 1);
    TakenLinked(p.next, s, i + 1);
    hide Shared, AllLinked, Bytes, QueueOk, TakenNext;
    var s' := Taken(s, i + 1);
    NextSize(p.next, s, i + 1);
    var p' := Pool(TakenNext(p.next, s, i + 1), p.mem[BLK * s.of[0][0] + 4 := c], Second(s.of[0]), p.qs[i := q]);
    forall j | 0 <= j < |p.qs| && j != i
      ensures QueueOk(p'.qs[j], s'.of[j + 1]) && Contents(p', s', j) == Contents(p, s, j)
    {
      TakeOther(p, s, i, c, j);
    }
    assert s'.of[0] == s.of[0][1..] && s'.of[i + 1] == s.of[i + 1] + [s.of[0][0]];
  }

  lemma NextSize(next: seq<int>, s: Lists, i: int)
    requires 0 < i < |s.of| && s.of[0] != [] && 0 <= s.of[0][0] < |next| && (s.of[i] != [] ==> 0 <= s.of[i][|s.of[i]| - 1] < |next|)
    ensures |TakenNext(next, s, i)| == |next|
  {
  }

  ghost predicate TakeFits(p: Pool, s: Lists, i: int) {
    && 0 < i + 1 < |s.of| && s.of[0] != [] && 1 <= s.of[0][0] < |p.next| == |s.owner| && BLK * s.of[0][0] + 4 < |p.mem|
    && (s.of[i + 1] != [] ==> 1 <= s.of[i + 1][|s.of[i + 1]| - 1] < |p.next|)
  }

  // ---- taking a character ----

  function Set(a: seq<int>, k: int, x: int): (r: seq<int>)
    ensures |r| == |a|
  {
    if 0 <= k < |a| then a[k := x] else a
  }

  /** The first character of queue i is taken, and its block freed if it was the last one there. */
  function GetP(p: Pool, i: int): Pool
    requires 0 <= i < |p.qs|
  {
    var q := p.qs[i];
    if q.cc <= 1 then
      var b := q.cf / BLK;
      Pool(Set(p.next, b, p.free), p.mem, b, p.qs[i := Queue(0, 0, 0)])
    else if (q.cf + 1) % BLK == 0 then
      var b := (q.cf + 1) / BLK - 1;
      Pool(Set(p.next, b, p.free), p.mem, b, p.qs[i := Queue(q.cc - 1, BLK * At(p.next, b) + 4, q.cl)])
    else p.(qs := p.qs[i := Queue(q.cc - 1, q.cf + 1, q.cl)])
  }

  ghost function GetS(p: Pool, s: Lists, i: int): Lists
    requires 0 <= i < |p.qs| && i + 1 < |s.of| && s.of[i + 1] != [] && 0 <= s.of[i + 1][0] < |s.owner|
  {
    if p.qs[i].cc <= 1 || (p.qs[i].cf + 1) % BLK == 0 then Given(s, i + 1) else s
  }

  lemma OkFacts(p: Pool, s: Lists, i: int)
    requires Ok(p, s) && 0 <= i < |p.qs|
    ensures Shared(s) && 0 < i + 1 < |s.of| && |s.owner| == |p.next| && |p.mem| == BLK * |p.next|
    ensures QueueOk(p.qs[i], s.of[i + 1]) && Linked(p.next, s.of[i + 1]) && Linked(p.next, s.of[0])
    ensures p.free == if s.of[0] == [] then 0 else s.of[0][0]
  {
    assert QueueOk(p.qs[i], s.of[i + 1]);
    assert Linked(p.next, s.of[i + 1]) && Linked(p.next, s.of[0]);
  }

  lemma TakeFacts(p: Pool, s: Lists, i: int)
    requires Ok(p, s) && 0 <= i < |p.qs| && p.qs[i].cc > 0
    ensures 0 < i + 1 < |s.of| && s.of[i + 1] != [] && QueueOk(p.qs[i], s.of[i + 1]) && 0 <= p.qs[i].cf < |p.mem|
    ensures Contents(p, s, i) != [] && Contents(p, s, i)[0] == p.mem[p.qs[i].cf]
    ensures 1 <= s.of[i + 1][0] < |p.next| == |s.owner| && p.next[s.of[i + 1][0]] == Second(s.of[i + 1])
  {
    hide Ok, Shared, Bytes;
    OkFacts(p, s, i);
    var l := s.of[i + 1];
    assert l[0] == l[0] && p.next[l[0]] == if 0 + 1 < |l| then l[0 + 1] else 0;
    FirstByte(p.mem, p.qs[i], l);
  }

  lemma EmptyQueue(mem: seq<int>, l: seq<int>)
    requires |l| == 1
    ensures QueueOk(Queue(0, 0, 0), l[1..]) && Bytes(mem, Queue(0, 0, 0), l[1..]) == []
  {
  }

  lemma GivenIs(s: Lists, i: int)
    requires 0 < i < |s.of| && s.of[i] != [] && 0 <= s.of[i][0] < |s.owner|
    ensures |Given(s, i).of| == |s.of| && Given(s, i).of[i] == s.of[i][1..] && Given(s, i).of[0] == [s.of[i][0]] + s.of[0]
    ensures |Given(s, i).owner| == |s.owner| && forall j :: 0 < j < |s.of| && j != i ==> Given(s, i).of[j] == s.of[j]
  {
  }

  lemma TakenIs(s: Lists, i: int)
    requires 0 < i < |s.of| && s.of[0] != [] && 0 <= s.of[0][0] < |s.owner|
    ensures |Taken(s, i).of| == |s.of| && Taken(s, i).of[i] == s.of[i] + [s.of[0][0]] && Taken(s, i).of[0] == s.of[0][1..]
    ensures forall j :: 0 < j < |s.of| && j != i ==> Taken(s, i).of[j] == s.of[j]
  {
  }

  /** The character was the last of its block. */
  lemma GetFree(p: Pool, s: Lists, i: int)
    requires Ok(p, s) && 0 <= i < |p.qs| && p.qs[i].cc > 0 && (p.qs[i].cc == 1 || (p.qs[i].cf + 1) % BLK == 0)
    requires i + 1 < |s.of| && s.of[i + 1] != [] && 0 <= s.of[i + 1][0] < |s.owner|
    ensures var p', s' := GetP(p, i), Given(s, i + 1);
            Ok(p', s') && Others(p, s, p', s', i) && Contents(p', s', i) == Contents(p, s, i)[1..]
  {
    hide Ok, QueueOk, Bytes, Others, Given, GetP, Second;
    TakeFacts(p, s, i);
    GivenIs(s, i + 1);
    var q, l := p.qs[i], s.of[i + 1];
    var q' := AfterLast(q, l);
    if q.cc == 1 {
      GetLast(p.mem, q, l);
      EmptyQueue(p.mem, l);
      LastIs(p, i, l);
    } else {
      GetBlock(p.mem, q, l);
      BlockIs(p, i, l);
    }
    AfterFree(p, s, i, q');
  }

  /** The queue when the first block of its chain has been freed. */
  ghost function AfterLast(q: Queue, l: seq<int>): Queue {
    if q.cc == 1 then Queue(0, 0, 0) else Queue(q.cc - 1, BLK * Second(l) + 4, q.cl)
  }

  lemma LastIs(p: Pool, i: int, l: seq<int>)
    requires 0 <= i < |p.qs| && p.qs[i].cc == 1 && l != [] && p.qs[i].cf / BLK == l[0] && 0 <= l[0] < |p.next|
    ensures GetP(p, i) == Pool(p.next[l[0] := p.free], p.mem, l[0], p.qs[i := AfterLast(p.qs[i], l)])
  {
  }

  lemma BlockIs(p: Pool, i: int, l: seq<int>)
    requires 0 <= i < |p.qs| && p.qs[i].cc > 1 && (p.qs[i].cf + 1) % BLK == 0
    requires |l| > 1 && (p.qs[i].cf + 1) / BLK - 1 == l[0] && 0 <= l[0] < |p.next| && p.next[l[0]] == Second(l)
    ensures GetP(p, i) == Pool(p.next[l[0] := p.free], p.mem, l[0], p.qs[i := AfterLast(p.qs[i], l)])
    ensures AfterLast(p.qs[i], l) == p.qs[i].(cc := p.qs[i].cc - 1, cf := BLK * l[1] + 4)
  {
  }

  lemma GetMore(p: Pool, s: Lists, i: int)
    requires Ok(p, s) && 0 <= i < |p.qs| && p.qs[i].cc > 1 && (p.qs[i].cf + 1) % BLK != 0
    ensures Ok(GetP(p, i), s) && Others(p, s, GetP(p, i), s, i) && Contents(GetP(p, i), s, i) == Contents(p, s, i)[1..]
  {
    hide Ok, QueueOk, Bytes, Others;
    TakeFacts(p, s, i);
    var q := p.qs[i];
    GetSame(p.mem, q, s.of[i + 1]);
    AfterGet(p, s, i, q.(cc := q.cc - 1, cf := q.cf + 1));
  }

  /** Taking a character leaves the rest of the queue, all other queues, and every block in one list. */
  lemma GetStep(p: Pool, s: Lists, i: int)
    requires Ok(p, s) && 0 <= i < |p.qs| && p.qs[i].cc > 0
    ensures i + 1 < |s.of| && s.of[i + 1] != [] && 0 <= s.of[i + 1][0] < |s.owner| && Contents(p, s, i) != []
    ensures var p', s' := GetP(p, i), GetS(p, s, i);
            Ok(p', s') && Others(p, s, p', s', i) && Contents(p', s', i) == Contents(p, s, i)[1..]
  {
    hide Ok, QueueOk, Bytes, Others, Given, GetP, Contents;
    TakeFacts(p, s, i);
    if p.qs[i].cc == 1 || (p.qs[i].cf + 1) % BLK == 0 {
      GetFree(p, s, i);
    } else {
      GetMore(p, s, i);
    }
  }

  // ---- putting a character ----

  /** A character goes to the end of queue i, in a new block if there is none or the last one is full. */
  function PutP(p: Pool, i: int, c: int): Pool
    requires 0 <= i < |p.qs|
  {
    var q, b := p.qs[i], p.free;
    if q.cl == 0 then
      Pool(Set(p.next, b, 0), Set(p.mem, BLK * b + 4, c), At(p.next, b), p.qs[i := Queue(q.cc + 1, BLK * b + 4, BLK * b + 5)])
    else if q.cl % BLK == 0 then
      Pool(Set(Set(p.next, q.cl / BLK - 1, b), b, 0), Set(p.mem, BLK * b + 4, c), At(p.next, b),
           p.qs[i := Queue(q.cc + 1, q.cf, BLK * b + 5)])
    else p.(mem := Set(p.mem, q.cl, c), qs := p.qs[i := Queue(q.cc + 1, q.cf, q.cl + 1)])
  }

  predicate NeedsBlock(q: Queue) { q.cl == 0 || q.cl % BLK == 0 }

  ghost function PutS(p: Pool, s: Lists, i: int): Lists
    requires 0 <= i < |p.qs| && i + 1 < |s.of| && (NeedsBlock(p.qs[i]) ==> s.of[0] != [] && 0 <= s.of[0][0] < |s.owner|)
  {
    if NeedsBlock(p.qs[i]) then Taken(s, i + 1) else s
  }

  lemma PutFacts(p: Pool, s: Lists, i: int)
    requires Ok(p, s) && 0 <= i < |p.qs| && (NeedsBlock(p.qs[i]) ==> p.free != 0)
    ensures 0 < i + 1 < |s.of| && QueueOk(p.qs[i], s.of[i + 1]) && Good(s.of[i + 1], s.owner, i + 1)
    ensures p.qs[i].cl == 0 <==> s.of[i + 1] == []
    ensures p.qs[i].cl == 0 ==> p.qs[i] == Queue(0, 0, 0)
    ensures NeedsBlock(p.qs[i]) ==> TakeFits(p, s, i) && p.free == s.of[0][0] && p.next[p.free] == Second(s.of[0])
    ensures NeedsBlock(p.qs[i]) ==> Good(s.of[i + 1] + [p.free], s.owner[p.free := i + 1], i + 1)
    ensures !NeedsBlock(p.qs[i]) ==> 0 <= p.qs[i].cl < |p.mem|
  {
    hide Ok;
    OkFacts(p, s, i);
    OneList(s, i + 1);
    var l, fl := s.of[i + 1], s.of[0];
    if NeedsBlock(p.qs[i]) {
      Elsewhere(s, 0, 0, i + 1);
      hide Shared;
      assert fl[0] == fl[0] && p.next[fl[0]] == if 0 + 1 < |fl| then fl[0 + 1] else 0;
      GoodSnoc(l, s.owner, i + 1, fl[0]);
    }
  }

  /** A new block for the character. */
  lemma PutTake(p: Pool, s: Lists, i: int, c: int)
    requires Ok(p, s) && 0 <= i < |p.qs| && NeedsBlock(p.qs[i]) && p.free != 0
    requires i + 1 < |s.of| && s.of[0] != [] && 0 <= s.of[0][0] < |s.owner|
    ensures var p', s' := PutP(p, i, c), Taken(s, i + 1);
            Ok(p', s') && Others(p, s, p', s', i) && Contents(p', s', i) == Contents(p, s, i) + [c]
  {
    hide Ok, QueueOk, Others, Taken, Bytes;
    PutFacts(p, s, i);
    TakenIs(s, i + 1);
    var q, l, b := p.qs[i], s.of[i + 1], p.free;
    assert q.cl == 0 ==> l + [b] == [b];
    var q' := if q.cl == 0 then Queue(1, BLK * b + 4, BLK * b + 5) else Queue(q.cc + 1, q.cf, BLK * b + 5);
    if q.cl == 0 {
      PutFirst(p.mem, b, c);
      NoBytes(p.mem, q, l);
    } else {
      PutBlock(p.mem, q, l, b, c);
    }
    AfterTake(p, s, i, q', c);
    assert PutP(p, i, c) == Pool(TakenNext(p.next, s, i + 1), p.mem[BLK * b + 4 := c], Second(s.of[0]), p.qs[i := q']);
  }

  lemma NoBytes(mem: seq<int>, q: Queue, l: seq<int>)
    requires q.cc == 0
    ensures Bytes(mem, q, l) == []
  {
  }

  lemma PutMore(p: Pool, s: Lists, i: int, c: int)
    requires Ok(p, s) && 0 <= i < |p.qs| && !NeedsBlock(p.qs[i])
    ensures var p' := PutP(p, i, c); Ok(p', s) && Others(p, s, p', s, i) && Contents(p', s, i) == Contents(p, s, i) + [c]
  {
    hide Ok, Bytes, Others;
    PutFacts(p, s, i);
    var q, l := p.qs[i], s.of[i + 1];
    assert BLK * l[|l| - 1] <= q.cl < BLK * l[|l| - 1] + BLK;
    hide QueueOk;
    PutSame(p.mem, q, l, c);
    AfterPut(p, s, i, Queue(q.cc + 1, q.cf, q.cl + 1), q.cl, c);
  }

  /** Putting a character appends it, and leaves all other queues, and every block in one list. */
  lemma PutStep(p: Pool, s: Lists, i: int, c: int)
    requires Ok(p, s) && 0 <= i < |p.qs| && (NeedsBlock(p.qs[i]) ==> p.free != 0)
    ensures i + 1 < |s.of| && (NeedsBlock(p.qs[i]) ==> s.of[0] != [] && 0 <= s.of[0][0] < |s.owner|)
    ensures var p', s' := PutP(p, i, c), PutS(p, s, i);
            Ok(p', s') && Others(p, s, p', s', i) && Contents(p', s', i) == Contents(p, s, i) + [c]
  {
    hide Ok, QueueOk, Bytes, Others, Taken, PutP, Contents;
    PutFacts(p, s, i);
    if NeedsBlock(p.qs[i]) {
      PutTake(p, s, i, c);
    } else {
      PutMore(p, s, i, c);
    }
  }

  /** Repeated putc. */
  ghost function PutAll(p: Pool, i: int, cs: seq<int>): (r: Pool)
    requires 0 <= i < |p.qs|
    ensures |r.qs| == |p.qs|
    decreases |cs|
  {
    if cs == [] then p else PutP(PutAll(p, i, cs[..|cs| - 1]), i, cs[|cs| - 1])
  }

  /** Repeated getc. */
  ghost function GetAll(p: Pool, i: int, n: nat): (r: Pool)
    requires 0 <= i < |p.qs|
    ensures |r.qs| == |p.qs|
  {
    if n == 0 then p else GetP(GetAll(p, i, n - 1), i)
  }
}
