/**
 * The buffer pool of usr/sys/dev/bio.c as it is in memory: the available
 * list threaded through the buffers, and the routines that work on it. Each
 * routine takes steps of the system in Bio.
 */
module BioPool {
  import opened Bio

  /** Place p of the list; before its first and after its last entry is the list head, numbered n. */
  ghost function Place(avail: seq<int>, n: int, p: int): int {
    if 0 <= p < |avail| then avail[p] else n
  }

  /** forw and back thread the list avail through entries 0..n-1 and the list head n. */
  ghost predicate Ring(forw: seq<int>, back: seq<int>, avail: seq<int>, n: int) {
    && 0 <= n && |forw| == |back| == n + 1
    && Distinct(avail) && (forall p :: 0 <= p < |avail| ==> 0 <= avail[p] < n)
    && (forall p :: -1 <= p < |avail| ==> forw[Place(avail, n, p)] == Place(avail, n, p + 1))
    && (forall p :: 0 <= p <= |avail| ==> back[Place(avail, n, p)] == Place(avail, n, p - 1))
  }

  ghost function Drop(s: seq<int>, p: int): seq<int>
    requires 0 <= p < |s|
  {
    s[..p] + s[p + 1..]
  }

  /** The two assignments of notavail take the entry out of the list. */
  lemma Unlink(forw: seq<int>, back: seq<int>, avail: seq<int>, n: int, p: int)
    requires Ring(forw, back, avail, n) && 0 <= p < |avail|
    ensures var i := avail[p];
            && 0 <= back[i] <= n && 0 <= forw[i] <= n
            && Ring(forw[back[i] := forw[i]], back[forw[i] := back[i]], Drop(avail, p), n)
  {
    var i, rest := avail[p], Drop(avail, p);
    assert Place(avail, n, p) == i;
    assert forw[i] == Place(avail, n, p + 1) && back[i] == Place(avail, n, p - 1);
    var forw', back' := forw[back[i] := forw[i]], back[forw[i] := back[i]];
    assert forall q :: q < p ==> Place(rest, n, q) == Place(avail, n, q);
    assert forall q :: q >= p ==> Place(rest, n, q) == Place(avail, n, q + 1);
    forall q | -1 <= q < |rest|
      ensures forw'[Place(rest, n, q)] == Place(rest, n, q + 1)
    {
      UnlinkApart(avail, n, p - 1, if q < p then q else q + 1);
    }
    forall q | 0 <= q <= |rest|
      ensures back'[Place(rest, n, q)] == Place(rest, n, q - 1)
    {
      UnlinkApart(avail, n, p + 1, if q < p then q else q + 1);
    }
  }

  /** Different places hold different entries, but for the head at either end. */
  lemma UnlinkApart(avail: seq<int>, n: int, p: int, q: int)
    requires Distinct(avail) && (forall k :: 0 <= k < |avail| ==> 0 <= avail[k] < n)
    requires -1 <= p <= |avail| && -1 <= q <= |avail|
    ensures Place(avail, n, p) == Place(avail, n, q) ==> p == q || (p in {-1, |avail|} && q in {-1, |avail|})
  {
  }

  /** The four assignments of brelse for an aged buffer put it at the head. */
  lemma LinkHead(forw: seq<int>, back: seq<int>, avail: seq<int>, n: int, i: int)
    requires Ring(forw, back, avail, n) && 0 <= i < n && i !in avail
    ensures 0 <= forw[n] <= n
    ensures Ring(forw[i := forw[n]][n := i], back[forw[n] := i][i := n], [i] + avail, n)
  {
    var more := [i] + avail;
    assert Place(avail, n, -1) == n;
    assert forw[n] == Place(avail, n, 0);
    var forw', back' := forw[i := forw[n]][n := i], back[forw[n] := i][i := n];
    forall q | -1 <= q < |more|
      ensures forw'[Place(more, n, q)] == Place(more, n, q + 1)
    {
      assert q >= 1 ==> Place(more, n, q) == Place(avail, n, q - 1) == avail[q - 1];
      assert Place(more, n, q + 1) == if q == -1 then i else Place(avail, n, q);
    }
    forall q | 0 <= q <= |more|
      ensures back'[Place(more, n, q)] == Place(more, n, q - 1)
    {
      assert q >= 1 ==> Place(more, n, q) == Place(avail, n, q - 1);
      UnlinkApart(avail, n, 0, if q >= 1 then q - 1 else 0);
      assert q >= 2 ==> Place(more, n, q - 1) == Place(avail, n, q - 2);
    }
  }

  /** The four assignments of brelse for another buffer put it at the tail. */
  lemma LinkTail(forw: seq<int>, back: seq<int>, avail: seq<int>, n: int, i: int)
    requires Ring(forw, back, avail, n) && 0 <= i < n && i !in avail
    ensures 0 <= back[n] <= n
    ensures Ring(forw[back[n] := i][i := n], back[i := back[n]][n := i], avail + [i], n)
  {
    var more, m := avail + [i], |avail|;
    assert Place(avail, n, m) == n;
    assert back[n] == Place(avail, n, m - 1);
    var forw', back' := forw[back[n] := i][i := n], back[i := back[n]][n := i];
    assert forall q :: q < m ==> Place(more, n, q) == Place(avail, n, q);
    forall q | -1 <= q < |more|
      ensures forw'[Place(more, n, q)] == Place(more, n, q + 1)
    {
      if q < m {
        UnlinkApart(avail, n, m - 1, q);
        assert forw[Place(avail, n, q)] == Place(avail, n, q + 1);
      }
    }
    forall q | 0 <= q <= |more|
      ensures back'[Place(more, n, q)] == Place(more, n, q - 1)
    {
      if q < m {
        assert back[Place(avail, n, q)] == Place(avail, n, q - 1);
      }
    }
  }

  lemma {:induction false} WithoutIsDrop(s: seq<int>, p: int)
    requires Distinct(s) && 0 <= p < |s|
    ensures Without(s, s[p]) == Drop(s, p)
  {
    if p > 0 {
      assert s[0] != s[p];
      WithoutIsDrop(s[1..], p - 1);
    }
  }

  /** The actions acts lead from s to t. */
  ghost predicate Reaches(s: State, acts: seq<Action>, t: State)
    decreases |acts|
  {
    if acts == [] then s == t else Enabled(s, acts[0]) && Reaches(Next(s, acts[0]), acts[1..], t)
  }

  lemma {:induction false} ReachesMore(s: State, acts: seq<Action>, m: State, a: Action)
    requires Reaches(s, acts, m) && Enabled(m, a)
    ensures Reaches(s, acts + [a], Next(m, a))
    decreases |acts|
  {
    hide Enabled, Next;
    if acts == [] {
      assert (acts + [a])[1..] == [];
    } else {
      assert (acts + [a])[1..] == acts[1..] + [a];
      ReachesMore(Next(s, acts[0]), acts[1..], m, a);
    }
  }

  class Pool {
    var bufs: seq<Buf>
    /** av_forw and av_back of each buffer and, last, of bfreelist. */
    var forw: seq<int>
    var back: seq<int>
    var queue: seq<int>
    var disk: map<Key, int>
    ghost var avail: seq<int>
    ghost var logical: map<Key, int>
    ghost var spoilt: set<Key>

    ghost function Abs(): State
      reads this
    {
      State(bufs, avail, queue, disk, logical, spoilt)
    }

    ghost predicate Valid()
      reads this
    {
      Ring(forw, back, avail, |bufs|) && Inv(Abs())
    }

    constructor (n: nat, disk: map<Key, int>)
      ensures Valid() && Initial(Abs())
    {
      bufs := seq(n, i => Buf(Key(NODEV, 0), 0, false, false, false, false, false, false, false, false));
      forw := seq(n + 1, i => if i == n then 0 else i + 1);
      back := seq(n + 1, i => if i == 0 then n else i - 1);
      queue, this.disk := [], disk;
      avail, logical, spoilt := seq(n, i => i), disk, {};
      new;
      InitialInv(Abs());
    }

    /** notavail */
    method NotAvail(i: int)
      requires Valid() && 0 <= i < |bufs| && !bufs[i].busy
      modifies this`bufs, this`forw, this`back, this`avail
      ensures Valid() && Abs() == Take(old(Abs()), i)
    {
      hide Ring, Inv;
      ghost var p := AvailPlace(i);
      Unlink(forw, back, avail, |bufs|, p);
      RingFacts(forw, back, avail, |bufs|);
      WithoutIsDrop(avail, p);
      TakeInv(Abs(), i);
      forw, back := forw[back[i] := forw[i]], back[forw[i] := back[i]];
      bufs := bufs[i := bufs[i].(busy := true)];
      avail := Without(avail, i);
    }

    lemma AvailPlace(i: int) returns (p: int)
      requires Valid() && 0 <= i < |bufs| && !bufs[i].busy
      ensures 0 <= p < |avail| && avail[p] == i
    {
      assert i in avail;
      p :| 0 <= p < |avail| && avail[p] == i;
    }

    static lemma RingFacts(forw: seq<int>, back: seq<int>, avail: seq<int>, n: int)
      requires Ring(forw, back, avail, n)
      ensures |forw| == |back| == n + 1 && Distinct(avail)
    {
    }

    /** brelse, by the holder or, for asynchronous I/O, by iodone. */
    method Brelse(i: int)
      requires Valid() && Mine(Abs(), i)
      modifies this`bufs, this`forw, this`back, this`avail, this`spoilt
      ensures Valid() && Abs() == Release(old(Abs()), i)
    {
      hide Ring, Inv;
      NotListed(i);
      ReleaseInv(Abs(), i);
      RingFacts(forw, back, avail, |bufs|);
      var n := |bufs|;
      if bufs[i].age {
        LinkHead(forw, back, avail, n, i);
        var h := forw[n];
        back := back[h := i];
        forw := forw[i := h];
        forw := forw[n := i];
        back := back[i := n];
        avail := [i] + avail;
      } else {
        LinkTail(forw, back, avail, n, i);
        var t := back[n];
        forw := forw[t := i];
        back := back[i := t];
        back := back[n := i];
        forw := forw[i := n];
        avail := avail + [i];
      }
      spoilt := if Unwritten(bufs[i]) then spoilt + {bufs[i].key} else spoilt;
      bufs := bufs[i := bufs[i].(busy := false, async := false, age := false, touched := false)];
    }

    lemma NotListed(i: int)
      requires Valid() && 0 <= i < |bufs| && bufs[i].busy
      ensures i !in avail
    {
    }

    /**
     * bwrite as far as the call of the driver; bawrite with async. The call is
     * that of a holder, or a flush of what a holder has delayed.
     */
    method StartBwrite(i: int, async: bool, ghost flush: bool)
      requires Valid() && Enabled(Abs(), Write(i, async)) && (flush ==> bufs[i].delwri && !bufs[i].touched)
      modifies this`bufs, this`queue, this`logical, this`spoilt
      ensures Valid() && Abs() == StartWrite(if flush then old(Abs()) else Note(old(Abs()), i), i, async)
    {
      hide Ring, Inv;
      ghost var s0 := if flush then Abs() else Note(Abs(), i);
      if flush {
        StartFlushInv(Abs(), i, async);
      } else {
        StartWriteInv(Abs(), i, async);
      }
      logical, spoilt := s0.logical, s0.spoilt;
      var delwri := bufs[i].delwri;
      bufs := bufs[i := bufs[i].(read := false, done := false, delwri := false, age := false, async := async)];
      queue := queue + [i];
      bufs := bufs[i := bufs[i].(inio := true, touched := false)];
      if async && delwri {
        bufs := bufs[i := bufs[i].(age := true)];
      }
      assert Abs() == StartWrite(s0, i, async);
    }

    /** bdwrite */
    method Bdwrite(i: int)
      requires Valid() && Enabled(Abs(), DelayedWrite(i))
      modifies this`bufs, this`forw, this`back, this`avail, this`logical, this`spoilt
      ensures Valid() && Abs() == Delay(old(Abs()), i)
    {
      hide Ring, Inv, Coherent;
      MarkInv(Abs(), i);
      ghost var s0 := Abs();
      logical, spoilt := logical[bufs[i].key := bufs[i].data], spoilt - {bufs[i].key};
      bufs := bufs[i := bufs[i].(delwri := true, done := true, touched := false)];
      assert Abs() == Mark(s0, i);
      Brelse(i);
    }

    /** A delayed buffer on the list is taken off it and its write started. */
    method FlushOne(i: int, ghost s0: State, ghost acts: seq<Action>) returns (ghost acts': seq<Action>)
      requires Valid() && 0 <= i < |bufs| && !bufs[i].busy && bufs[i].delwri && Reaches(s0, acts, Abs())
      modifies this
      ensures Valid() && acts' == acts + [Flush(i, old(bufs)[i].key)] && Reaches(s0, acts', Abs())
      ensures |bufs| == old(|bufs|) && |avail| == old(|avail|) - 1
      ensures forall j :: 0 <= j < |bufs| && j != i ==> bufs[j] == old(bufs)[j]
      ensures bufs[i].busy && bufs[i].key == old(bufs)[i].key
    {
      hide Ring, Inv, Reaches;
      ghost var a := Flush(i, bufs[i].key);
      ReachesMore(s0, acts, Abs(), a);
      FlushFacts(Abs(), i);
      ghost var p := AvailPlace(i);
      RingFacts(forw, back, avail, |bufs|);
      WithoutIsDrop(avail, p);
      NotAvail(i);
      StartBwrite(i, true, true);
      acts' := acts + [a];
    }

    /** The search of getblk for a buffer that holds a block. */
    method Incore(k: Key) returns (i: int)
      requires k.dev != NODEV
      ensures -1 <= i < |bufs| && (i >= 0 ==> bufs[i].key == k)
      ensures i == -1 ==> !Held(Abs(), k)
    {
      i := 0;
      while i < |bufs|
        invariant 0 <= i <= |bufs| && forall j :: 0 <= j < i ==> bufs[j].key != k
      {
        if bufs[i].key == k {
          return;
        }
        i := i + 1;
      }
      i := -1;
    }

    /** getblk until it has a buffer for the block, or must sleep (-1) because that one, or every one, is busy. */
    method Getblk(k: Key) returns (i: int, ghost acts: seq<Action>)
      requires Valid() && k.dev != NODEV
      modifies this
      ensures Valid() && Reaches(old(Abs()), acts, Abs()) && |bufs| == old(|bufs|)
      ensures i >= 0 ==> i < |bufs| && Mine(Abs(), i) && bufs[i].key == k
      ensures i < 0 ==> avail == [] || exists j :: 0 <= j < |bufs| && bufs[j].key == k && bufs[j].busy
    {
      hide Ring, Inv, Reaches, Held;
      ghost var s0 := Abs();
      acts := [];
      ReachesNone(s0);
      while true
        invariant Valid() && Reaches(s0, acts, Abs()) && |bufs| == |s0.bufs|
        decreases |avail|
      {
        i := Incore(k);
        if i >= 0 {
          if bufs[i].busy {
            return -1, acts;
          }
          ReachesMore(s0, acts, Abs(), GetHit(i));
          FreeFacts(i);
          NotAvail(i);
          acts := acts + [GetHit(i)];
          return;
        }
        HeadFacts();
        i := forw[|bufs|];
        if i == |bufs| {
          return -1, acts;
        }
        if bufs[i].delwri {
          acts := FlushOne(i, s0, acts);
        } else {
          ReachesMore(s0, acts, Abs(), GetMiss(k));
          ReassignInv(Abs(), k);
          TakeHead();
          ghost var s1 := Abs();
          NotAvail(i);
          bufs := bufs[i := Buf(k, bufs[i].data, true, false, false, false, false, false, false, false)];
          assert Abs() == Reassign(s1, k);
          acts := acts + [GetMiss(k)];
          return;
        }
      }
    }

    static lemma ReachesNone(s: State)
      ensures Reaches(s, [], s)
    {
    }

    lemma FreeFacts(i: int)
      requires Valid() && 0 <= i < |bufs| && !bufs[i].busy
      ensures !bufs[i].inio
    {
      assert Coherent(bufs[i], disk, logical, spoilt);
    }

    /** What av_forw of the list head says. */
    lemma HeadFacts()
      requires Valid()
      ensures |forw| == |bufs| + 1
      ensures if avail == [] then forw[|bufs|] == |bufs|
              else forw[|bufs|] == avail[0] && 0 <= avail[0] < |bufs| && !bufs[avail[0]].busy
    {
      assert forw[Place(avail, |bufs|, -1)] == Place(avail, |bufs|, -1 + 1);
      assert avail != [] ==> avail[0] in avail;
    }

    lemma TakeHead()
      requires Valid() && avail != []
      ensures Without(avail, avail[0]) == avail[1..]
    {
      WithoutIsDrop(avail, 0);
    }

    /** Whether bflush is to write the block. */
    static predicate Chosen(k: Key, dev: int) { dev == NODEV || k.dev == dev }

    /** bflush: the write of every delayed buffer of the device on the list, or of all devices, is started. */
    method Bflush(dev: int) returns (ghost acts: seq<Action>)
      requires Valid()
      modifies this
      ensures Valid() && Reaches(old(Abs()), acts, Abs()) && |bufs| == old(|bufs|)
      ensures forall n :: 0 <= n < |acts| ==> acts[n].Flush? && Chosen(acts[n].key, dev)
      ensures forall i :: 0 <= i < |bufs| && !bufs[i].busy && bufs[i].delwri ==> !Chosen(bufs[i].key, dev)
    {
      hide Ring, Inv, Reaches;
      ghost var s0 := Abs();
      acts := [];
      ReachesNone(s0);
      while true
        invariant Valid() && Reaches(s0, acts, Abs()) && |bufs| == |s0.bufs|
        invariant forall n :: 0 <= n < |acts| ==> acts[n].Flush? && Chosen(acts[n].key, dev)
        decreases |avail|
      {
        var i := NextDelayed(dev);
        if i < 0 {
          return;
        }
        acts := FlushOne(i, s0, acts);
      }
    }

    /** The scan of bflush along the list. */
    method NextDelayed(dev: int) returns (i: int)
      requires Valid()
      ensures -1 <= i < |bufs|
      ensures i >= 0 ==> !bufs[i].busy && bufs[i].delwri && Chosen(bufs[i].key, dev)
      ensures i < 0 ==> forall j :: 0 <= j < |bufs| && !bufs[j].busy && bufs[j].delwri ==> !Chosen(bufs[j].key, dev)
    {
      hide Inv;
      i := forw[|bufs|];
      ghost var p := 0;
      assert Place(avail, |bufs|, -1) == |bufs|;
      while i != |bufs|
        invariant 0 <= p <= |avail| && i == Place(avail, |bufs|, p)
        invariant forall q :: 0 <= q < p ==> !(bufs[avail[q]].delwri && Chosen(bufs[avail[q]].key, dev))
        decreases |avail| - p
      {
        if bufs[i].delwri && (dev == NODEV || dev == bufs[i].key.dev) {
          ListedFree(p);
          return;
        }
        i := forw[i];
        p := p + 1;
      }
      AllListed();
      i := -1;
    }

    lemma ListedFree(p: int)
      requires Valid() && 0 <= p < |avail|
      ensures 0 <= avail[p] < |bufs| && !bufs[avail[p]].busy
    {
      assert avail[p] in avail;
    }

    lemma AllListed()
      requires Valid()
      ensures forall j :: 0 <= j < |bufs| && !bufs[j].busy ==> exists q :: 0 <= q < |avail| && avail[q] == j
    {
      forall j | 0 <= j < |bufs| && !bufs[j].busy
        ensures exists q :: 0 <= q < |avail| && avail[q] == j
      {
        assert j in avail;
      }
    }

    /** The driver has finished its first request: the transfer, and iodone. */
    method IoDone()
      requires Valid() && queue != []
      modifies this
      ensures Valid() && Enabled(old(Abs()), Iodone) && Abs() == Complete(old(Abs()))
    {
      hide Ring, Inv;
      CompleteInv(Abs());
      TransferInv(Abs());
      ghost var s0 := Abs();
      var i := queue[0];
      queue := queue[1..];
      if bufs[i].read {
        bufs := bufs[i := bufs[i].(data := At(disk, bufs[i].key))];
      } else {
        disk := disk[bufs[i].key := bufs[i].data];
      }
      bufs := bufs[i := bufs[i].(done := true, inio := false)];
      assert bufs == s0.bufs[i := s0.bufs[i].(data := if s0.bufs[i].read then At(s0.disk, s0.bufs[i].key) else s0.bufs[i].data,
                                              done := true, inio := false)];
      if bufs[i].async {
        Brelse(i);
      }
    }

    static lemma TransferInv(s: State)
      requires Inv(s) && s.queue != []
      ensures 0 <= s.queue[0] < |s.bufs|
      ensures var i := s.queue[0];
              var b := s.bufs[i];
              && b.busy && !b.touched
              && Inv(s.(bufs := s.bufs[i := b.(data := if b.read then At(s.disk, b.key) else b.data, done := true, inio := false)],
                        queue := s.queue[1..], disk := if b.read then s.disk else s.disk[b.key := b.data]))
    {
      var i := s.queue[0];
      assert i in s.queue;
      TailFacts(s.queue);
      var b := s.bufs[i];
      assert Coherent(b, s.disk, s.logical, s.spoilt);
      OneChanged(s, s.(bufs := s.bufs[i := b.(data := if b.read then At(s.disk, b.key) else b.data, done := true, inio := false)],
                       queue := s.queue[1..], disk := if b.read then s.disk else s.disk[b.key := b.data]), i);
    }
  }
}
