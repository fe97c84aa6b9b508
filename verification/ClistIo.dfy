/** getc, putc, q_to_b, b_to_q, getw, putw and cinit of usr/sys/sys/prim.c. */
module ClistIo {
  import opened Clist

  class Clists {
    const next: array<int>
    const mem: array<int>
    const qs: array<Queue>
    var free: int
    ghost var s: Lists

    function P(): Pool
      reads this, next, mem, qs
    {
      Pool(next[..], mem[..], free, qs[..])
    }

    ghost predicate Valid()
      reads this, next, mem, qs
    {
      Ok(P(), s) && next != mem
    }

    ghost function Holds(i: int): seq<int>
      requires Valid() && 0 <= i < qs.Length
      reads this, next, mem, qs
    {
      Contents(P(), s, i)
    }

    /** cinit: n blocks, all free, and no characters. */
    constructor (n: nat, nq: nat)
      ensures Valid() && qs.Length == nq && next.Length == n + 1 && forall i :: 0 <= i < nq ==> Holds(i) == []
      ensures fresh(next) && fresh(mem) && fresh(qs)
    {
      next := new int[n + 1](_ => 0);
      mem := new int[BLK * (n + 1)](_ => 0);
      qs := new Queue[nq](_ => Queue(0, 0, 0));
      free := 0;
      new;
      ghost var fl: seq<int> := [];
      var cp := 1;
      while cp <= n
        modifies next, this`free
        invariant 1 <= cp <= n + 1 && Linked(next[..], fl) && |fl| == cp - 1 && free == (if fl == [] then 0 else fl[0])
        invariant forall k {:trigger fl[k]} :: 0 <= k < |fl| ==> fl[k] == cp - 1 - k
        invariant forall i :: 0 <= i < nq ==> qs[i] == Queue(0, 0, 0)
      {
        ghost var was := next[..];
        LinkedCons(was, fl, cp);
        next[cp] := free;
        assert next[..] == was[cp := if fl == [] then 0 else fl[0]];
        free := cp;
        fl := [cp] + fl;
        cp := cp + 1;
      }
      s := AllFree(fl, nq);
      StartOk(P(), fl);
    }

    /** What getc and q_to_b do to take the first character of a queue. */
    method TakeOne(i: int) returns (c: int)
      requires Valid() && 0 <= i < qs.Length && qs[i].cc > 0
      modifies this`free, this`s, next, qs
      ensures Valid() && Others(old(P()), old(s), P(), s, i)
      ensures old(Holds(i)) != [] && c == old(Holds(i))[0] && Holds(i) == old(Holds(i))[1..] && P() == GetP(old(P()), i)
    {
      hide Ok, QueueOk, Bytes, Others, Contents, GetS, Given;
      GetStep(P(), s, i);
      TakeFacts(P(), s, i);
      ghost var p := P();
      s := GetS(p, s, i);
      var q := qs[i];
      c := mem[q.cf];
      TakeBlock(p, old(s), i);
      if q.cc - 1 <= 0 {
        var b := q.cf / BLK;
        next[b] := free;
        free := b;
        qs[i] := Queue(0, 0, 0);
      } else if (q.cf + 1) % BLK == 0 {
        var b := (q.cf + 1) / BLK - 1;
        qs[i] := Queue(q.cc - 1, BLK * next[b] + 4, q.cl);
        next[b] := free;
        free := b;
      } else {
        qs[i] := Queue(q.cc - 1, q.cf + 1, q.cl);
      }
      assert P() == GetP(p, i);
    }

    method Getc(i: int) returns (c: int)
      requires Valid() && 0 <= i < qs.Length
      modifies this`free, this`s, next, qs
      ensures Valid() && Others(old(P()), old(s), P(), s, i)
      ensures if old(Holds(i)) == [] then c == -1 && Holds(i) == [] else c == old(Holds(i))[0] && Holds(i) == old(Holds(i))[1..]
    {
      hide Ok, QueueOk, Bytes, Others, Contents;
      Counts(P(), s, i);
      if qs[i].cc <= 0 {
        c := -1;
        ghost var p := P();
        qs[i] := Queue(0, 0, 0);
        assert P() == p;
        NoOthers(p, s, i);
      } else {
        c := TakeOne(i);
      }
    }

    /** q_to_b: as many characters as there are, up to cc. */
    method QToB(i: int, cc: int) returns (cp: seq<int>)
      requires Valid() && 0 <= i < qs.Length
      modifies this`free, this`s, next, qs
      ensures Valid() && Others(old(P()), old(s), P(), s, i)
      ensures |cp| == if cc <= 0 then 0 else if cc < |old(Holds(i))| then cc else |old(Holds(i))|
      ensures cp + Holds(i) == old(Holds(i)) && P() == GetAll(old(P()), i, |cp|)
    {
      hide Ok, QueueOk, Bytes, Others, Contents;
      cp := [];
      ghost var p, s0, all := P(), s, Holds(i);
      NoOthers(p, s, i);
      Counts(p, s, i);
      if cc <= 0 {
        return;
      }
      if qs[i].cc <= 0 {
        qs[i] := Queue(0, 0, 0);
        assert P() == p;
        return;
      }
      var n := cc;
      while n > 0
        invariant Valid() && Others(p, s0, P(), s, i) && 0 <= n && |cp| == cc - n
        invariant cp + Holds(i) == all && (n > 0 ==> qs[i].cc > 0) && P() == GetAll(p, i, |cp|)
      {
        ghost var p1, s1 := P(), s;
        var c := TakeOne(i);
        OthersThen(p, s0, p1, s1, P(), s, i);
        cp := cp + [c];
        n := n - 1;
        Counts(P(), s, i);
        if qs[i].cc <= 0 {
          return;
        }
      }
    }

    /** The lists with q for queue i, whose fields are set only at the end. */
    function With(i: int, q: Queue): Pool
      requires 0 <= i < qs.Length
      reads this, next, mem, qs
    {
      Pool(next[..], mem[..], free, qs[..][i := q])
    }

    /** What putc and b_to_q do for the first character of an empty queue. */
    method PutFirstOne(c: int, i: int) returns (ok: bool, cp: int)
      requires Valid() && 0 <= i < qs.Length && qs[i].cl == 0
      modifies this`free, this`s, next, mem, qs
      ensures ok == (old(free) != 0)
      ensures !ok ==> P() == old(P()) && s == old(s) && cp == 0
      ensures ok ==> Added(old(P()), old(s), With(i, Queue(1, cp - 1, cp)), s, i, c) && qs[i] == Queue(0, cp - 1, 0)
      ensures ok ==> cp > 0 && With(i, Queue(1, cp - 1, cp)) == PutP(old(P()), i, c)
    {
      hide Ok, QueueOk, Bytes, Others, Contents, PutS, Taken;
      var b := free;
      if b == 0 {
        return false, 0;
      }
      ghost var p := P();
      PutStep(p, s, i, c);
      PutFacts(p, s, i);
      s := PutS(p, s, i);
      free := next[b];
      next[b] := 0;
      cp := BLK * b + 4;
      qs[i] := qs[i].(cf := cp);
      mem[cp] := c;
      cp := cp + 1;
      ok := true;
      assert With(i, Queue(1, cp - 1, cp)) == PutP(p, i, c);
    }

    /** One turn of the loop of b_to_q, and the same in putc: a character goes where cp points. */
    method PutNextOne(c: int, i: int, cp0: int, ghost q: Queue) returns (ok: bool, cp: int)
      requires 0 <= i < qs.Length && Ok(With(i, q), s) && next != mem && q.cl == cp0 != 0
      modifies this`free, this`s, next, mem
      ensures ok == !(cp0 % BLK == 0 && old(free) == 0)
      ensures !ok ==> P() == old(P()) && s == old(s) && cp == cp0
      ensures ok ==> Added(old(With(i, q)), old(s), With(i, Queue(q.cc + 1, q.cf, cp)), s, i, c)
      ensures ok ==> cp > 0 && With(i, Queue(q.cc + 1, q.cf, cp)) == PutP(old(With(i, q)), i, c)
    {
      hide Ok, QueueOk, Bytes, Others, Contents, PutS, Taken;
      ghost var p := With(i, q);
      cp := cp0;
      if cp % BLK == 0 {
        LastNull(p, s, i);
        var last := cp / BLK - 1;
        next[last] := free;
        if next[last] == 0 {
          assert next[..] == p.next;
          return false, cp;
        }
        PutStep(p, s, i, c);
        PutFacts(p, s, i);
        s := PutS(p, s, i);
        var b := next[last];
        free := next[b];
        next[b] := 0;
        cp := BLK * b + 4;
      } else {
        PutStep(p, s, i, c);
        PutFacts(p, s, i);
        s := PutS(p, s, i);
      }
      mem[cp] := c;
      cp := cp + 1;
      ok := true;
      assert With(i, Queue(q.cc + 1, q.cf, cp)) == PutP(p, i, c);
    }

    /** putc: the character is appended, or there is no block for it and nothing changes. */
    method Putc(c: int, i: int) returns (r: int)
      requires Valid() && 0 <= i < qs.Length
      modifies this`free, this`s, next, mem, qs
      ensures Valid() && (r == 0 || r == -1)
      ensures r == -1 <==> NeedsBlock(old(qs[i])) && old(free) == 0
      ensures r == -1 ==> P() == old(P()) && s == old(s)
      ensures r == 0 ==> Added(old(P()), old(s), P(), s, i, c % 256) && P() == PutP(old(P()), i, c % 256)
    {
      hide Ok, QueueOk, Bytes, Others, Contents;
      ghost var p := P();
      var cp, ok;
      if qs[i].cl == 0 {
        EmptyIs(p, s, i);
        ok, cp := PutFirstOne(c % 256, i);
      } else {
        assert With(i, qs[i]) == P();
        ok, cp := PutNextOne(c % 256, i, qs[i].cl, qs[i]);
      }
      if !ok {
        return -1;
      }
      qs[i] := Queue(qs[i].cc + 1, qs[i].cf, cp);
      assert P() == With(i, Queue(qs[i].cc, qs[i].cf, cp));
      r := 0;
    }

    /** b_to_q: the characters are appended as putc would append them; what is not moved found no block. */
    method BToQ(cp: seq<int>, i: int) returns (left: int)
      requires Valid() && 0 <= i < qs.Length && forall k :: 0 <= k < |cp| ==> 0 <= cp[k] < 256
      modifies this`free, this`s, next, mem, qs
      ensures Valid() && Others(old(P()), old(s), P(), s, i) && 0 <= left <= |cp|
      ensures Holds(i) == old(Holds(i)) + cp[..|cp| - left]
      ensures left > 0 ==> free == 0 && NeedsBlock(qs[i])
      ensures P() == PutAll(old(P()), i, cp[..|cp| - left])
    {
      hide Ok, QueueOk, Bytes, Others, Contents, PutAll, PutP;
      ghost var p, s0 := P(), s;
      NoOthers(p, s, i);
      NoneMore(p, i, cp);
      assert Holds(i) + cp[..0] == Holds(i);
      if |cp| == 0 {
        return 0;
      }
      var cq, done, ok := qs[i].cl, 0, true;
      ghost var q := qs[i];
      if cq == 0 {
        EmptyIs(p, s, i);
        ok, cq := PutFirstOne(cp[0], i);
        if !ok {
          return |cp|;
        }
        done := 1;
        q := Queue(1, cq - 1, cq);
        AddedOthers(p, s0, With(i, q), s, i, cp[0]);
        assert cp[..0] + [cp[0]] == cp[..1];
        AllMore(p, i, cp, 0);
      }
      assert done == 0 ==> With(i, q) == P();
      while done < |cp| && ok
        invariant 0 <= done <= |cp| && q.cl == cq != 0 && q.cf == qs[i].cf && q.cc == qs[i].cc + done
        invariant Ok(With(i, q), s) && Others(p, s0, With(i, q), s, i)
        invariant Contents(With(i, q), s, i) == Contents(p, s0, i) + cp[..done]
        invariant !ok ==> done < |cp| && free == 0 && cq % BLK == 0
        invariant With(i, q) == PutAll(p, i, cp[..done])
        decreases |cp| - done, ok
      {
        ghost var p1, s1 := With(i, q), s;
        ok, cq := PutNextOne(cp[done], i, cq, q);
        if ok {
          q := Queue(q.cc + 1, q.cf, cq);
          AddedOthers(p1, s1, With(i, q), s, i, cp[done]);
          OthersThen(p, s0, p1, s1, With(i, q), s, i);
          assert cp[..done] + [cp[done]] == cp[..done + 1];
          AllMore(p, i, cp, done);
          done := done + 1;
        }
      }
      qs[i] := Queue(qs[i].cc + done, qs[i].cf, cq);
      assert P() == With(i, q);
      left := |cp| - done;
    }

    /** putw: both bytes or neither; it gives up when there is no free block, even where there is room. */
    method Putw(c: int, i: int) returns (r: int)
      requires Valid() && 0 <= i < qs.Length
      modifies this`free, this`s, next, mem, qs
      ensures Valid() && Others(old(P()), old(s), P(), s, i)
      ensures r == if old(free) == 0 then -1 else 0
      ensures r == -1 ==> P() == old(P()) && s == old(s)
      ensures r == 0 ==> Holds(i) == old(Holds(i)) + [c % 256, c / 256 % 256]
    {
      hide Ok, QueueOk, Bytes, Others, Contents;
      ghost var p, s0 := P(), s;
      NoOthers(p, s, i);
      if free == 0 {
        return -1;
      }
      var r1 := Putc(c, i);
      ghost var p1, s1 := P(), s;
      AddedOthers(p, s0, p1, s1, i, c % 256);
      Room(p, s0, i, c % 256);
      var r2 := Putc(c / 256, i);
      AddedOthers(p1, s1, P(), s, i, c / 256 % 256);
      OthersThen(p, s0, p1, s1, P(), s, i);
      assert Contents(p, s0, i) + [c % 256] + [c / 256 % 256] == Contents(p, s0, i) + [c % 256, c / 256 % 256];
      r := 0;
    }

    /** getw: the two bytes of a word, or -1 if there are not two. */
    method Getw(i: int) returns (c: int)
      requires Valid() && 0 <= i < qs.Length
      modifies this`free, this`s, next, qs
      ensures Valid() && Others(old(P()), old(s), P(), s, i)
      ensures if |old(Holds(i))| < 2 then c == -1 && P() == old(P()) && s == old(s)
              else c == old(Holds(i))[0] + 256 * old(Holds(i))[1] && Holds(i) == old(Holds(i))[2..]
    {
      hide Ok, QueueOk, Bytes, Others, Contents;
      ghost var p, s0 := P(), s;
      NoOthers(p, s, i);
      Counts(p, s, i);
      if qs[i].cc <= 1 {
        return -1;
      }
      var lo := Getc(i);
      ghost var p1, s1 := P(), s;
      var hi := Getc(i);
      OthersThen(p, s0, p1, s1, P(), s, i);
      c := lo + 256 * hi;
    }
  }

  lemma NoneMore(p: Pool, i: int, cs: seq<int>)
    requires 0 <= i < |p.qs|
    ensures PutAll(p, i, cs[..0]) == p
  {
  }

  lemma AllMore(p: Pool, i: int, cs: seq<int>, n: nat)
    requires 0 <= i < |p.qs| && n < |cs|
    ensures PutAll(p, i, cs[..n + 1]) == PutP(PutAll(p, i, cs[..n]), i, cs[n])
  {
    hide PutP;
    assert cs[..n + 1][..n] == cs[..n];
  }

  lemma AddedOthers(p: Pool, s: Lists, p': Pool, s': Lists, i: int, c: int)
    requires Added(p, s, p', s', i, c)
    ensures Ok(p', s') && Others(p, s, p', s', i) && Contents(p', s', i) == Contents(p, s, i) + [c]
  {
  }

  /** With a free block, there is room for two characters. */
  lemma Room(p: Pool, s: Lists, i: int, c: int)
    requires Ok(p, s) && 0 <= i < |p.qs| && p.free != 0
    ensures var p' := PutP(p, i, c); !(NeedsBlock(p'.qs[i]) && p'.free == 0)
  {
    hide Ok;
    OkFacts(p, s, i);
  }

  lemma EmptyIs(p: Pool, s: Lists, i: int)
    requires Ok(p, s) && 0 <= i < |p.qs| && p.qs[i].cl == 0
    ensures p.qs[i] == Queue(0, 0, 0)
  {
    hide Ok;
    OkFacts(p, s, i);
  }

  /** One character more in queue i, and nothing else. */
  ghost predicate Added(p: Pool, s: Lists, p': Pool, s': Lists, i: int, c: int) {
    && Ok(p', s') && Others(p, s, p', s', i) && 0 <= i < |p.qs|
    && Contents(p', s', i) == Contents(p, s, i) + [c]
  }

  lemma LastNull(p: Pool, s: Lists, i: int)
    requires Ok(p, s) && 0 <= i < |p.qs| && p.qs[i].cl != 0 && p.qs[i].cl % BLK == 0
    ensures 1 <= p.qs[i].cl / BLK - 1 < |p.next| && p.next[p.qs[i].cl / BLK - 1] == 0
    ensures p.free != p.qs[i].cl / BLK - 1
  {
    hide Ok;
    OkFacts(p, s, i);
    var l := s.of[i + 1];
    var n := |l| - 1;
    assert p.qs[i].cl == BLK * l[n] + BLK;
    assert l[n] == l[n] && p.next[l[n]] == 0;
    if s.of[0] != [] {
      Apart(s, 0, 0, i + 1, n);
    }
  }

  ghost function AllFree(fl: seq<int>, nq: nat): Lists {
    Lists([fl] + seq(nq, _ => []), seq(|fl| + 1, _ => 0))
  }

  lemma StartOk(p: Pool, fl: seq<int>)
    requires |p.next| == |fl| + 1 && |p.mem| == BLK * |p.next| && Linked(p.next, fl) && p.free == (if fl == [] then 0 else fl[0])
    requires forall k {:trigger fl[k]} :: 0 <= k < |fl| ==> fl[k] == |fl| - k
    requires forall i :: 0 <= i < |p.qs| ==> p.qs[i] == Queue(0, 0, 0)
    ensures var s := AllFree(fl, |p.qs|); Ok(p, s) && forall i :: 0 <= i < |p.qs| ==> Contents(p, s, i) == []
  {
    var s := AllFree(fl, |p.qs|);
    forall b | 1 <= b < |s.owner|
      ensures b in s.of[0]
    {
      assert fl[|fl| - b] == b;
    }
  }

  lemma TakeBlock(p: Pool, s: Lists, i: int)
    requires Ok(p, s) && 0 <= i < |p.qs| && p.qs[i].cc > 0
    ensures p.qs[i].cc == 1 ==> 0 <= p.qs[i].cf / BLK < |p.next|
    ensures p.qs[i].cc > 1 && (p.qs[i].cf + 1) % BLK == 0 ==> 0 <= (p.qs[i].cf + 1) / BLK - 1 < |p.next|
  {
    hide Ok, Bytes;
    TakeFacts(p, s, i);
  }

  lemma Counts(p: Pool, s: Lists, i: int)
    requires Ok(p, s) && 0 <= i < |p.qs|
    ensures |Contents(p, s, i)| == p.qs[i].cc && (p.qs[i].cc <= 0 ==> p.qs[i] == Queue(0, 0, 0))
  {
    hide Ok, Shared;
    OkFacts(p, s, i);
  }

  lemma NoOthers(p: Pool, s: Lists, i: int)
    requires Ok(p, s)
    ensures Others(p, s, p, s, i)
  {
    hide Shared, Bytes, AllLinked;
  }

  lemma OthersThen(p0: Pool, s0: Lists, p1: Pool, s1: Lists, p2: Pool, s2: Lists, i: int)
    requires Others(p0, s0, p1, s1, i) && Others(p1, s1, p2, s2, i)
    ensures Others(p0, s0, p2, s2, i)
  {
    hide Contents;
    forall j | 0 <= j < |p0.qs| && j != i
      ensures Contents(p2, s2, j) == Contents(p0, s0, j)
    {
      assert Contents(p1, s1, j) == Contents(p0, s0, j);
    }
  }
}
