/**
 * readp, writep, plock and prele of usr/sys/sys/pipe.c and the closing of an
 * end in usr/sys/sys/fio.c, cut where a process may sleep, against the steps
 * of module Pipe.
 */
module PipeIo {
  import opened Pipe

  class Kernel {
    var procs: seq<Proc>
    // the inode
    var locked: bool
    var want: bool
    var iread: bool
    var iwrite: bool
    var data: seq<int>
    var rd: End
    var wr: End
    // the file structure of the reading end
    var off: nat
    ghost var h: History

    ghost function Now(): State
      reads this
    {
      State(procs, Inode(locked, want, iread, iwrite, data, off, rd, wr), h)
    }

    /** The system call pipe. */
    constructor (nproc: nat)
      ensures Init(Now()) && |procs| == nproc
    {
      procs := seq(nproc, k => Idle);
      locked, want, iread, iwrite := false, false, false, false;
      data, off, rd, wr := [], 0, Open, Open;
      h := History([], [], {}, {}, [], [], -1, false);
    }

    /** All processes that sleep on a channel run again. */
    method WakeAll(ch: Channel)
      modifies this`procs
      ensures procs == Wakeup(old(procs), ch, true)
    {
      var k := 0;
      while k < |procs|
        invariant 0 <= k <= |procs| == |old(procs)|
        invariant forall j {:trigger procs[j]} :: 0 <= j < |procs| ==> procs[j] == if j < k then Awoken(old(procs)[j], ch) else old(procs)[j]
      {
        procs := procs[k := Awoken(procs[k], ch)];
        k := k + 1;
      }
    }

    method Prele()
      modifies this`locked, this`want, this`procs
      ensures !locked && !want && procs == Wakeup(old(procs), OnLock, old(want))
    {
      locked := false;
      if want {
        want := false;
        WakeAll(OnLock);
      }
    }

    /** One turn of the loop of plock: the lock, or sleep on the inode. */
    method Plock(p: nat, op: Op) returns (got: bool)
      requires p < |procs|
      modifies this`locked, this`want, this`procs
      ensures got == !old(locked) && locked
      ensures want == (old(want) || !got)
      ensures procs == if got then old(procs) else old(procs)[p := LockWait(op)]
    {
      if locked {
        want := true;
        procs := procs[p := LockWait(op)];
        return false;
      }
      locked := true;
      got := true;
    }

    /** readp from its label on. */
    method StartRead(p: nat)
      requires Inv(Now()) && Enabled(Now(), Lock(p)) && procs[p].op.Read?
      modifies this
      ensures Now() == DoLock(old(Now()), p) && Inv(Now())
    {
      hide FileOk, CallsOk, ProcOk;
      StepInv(Now(), Lock(p));
      var n := procs[p].op.n;
      var got := Plock(p, Read(n));
      if !got {
        return;
      }
      if |data| == 0 {
        Prele();
        if rd.Closed? || wr.Closed? {
          procs := procs[p := Idle];
          return;
        }
        iread := true;
        procs := procs[p := ReadWait(n)];
        return;
      }
      procs := procs[p := Reading(n)];
      h := h.(holder := p, writing := false);
    }

    /** readp from the return of readi on. */
    method EndOfRead(p: nat) returns (got: seq<int>)
      requires Inv(Now()) && Enabled(Now(), EndRead(p))
      modifies this
      ensures Now() == DoEndRead(old(Now()), p) && Inv(Now())
      ensures h.readout == old(h.readout) + got && |got| <= old(procs)[p].n
      ensures |got| == if old(procs)[p].n < |old(data)| - old(off) then old(procs)[p].n else |old(data)| - old(off)
      ensures old(off) < |old(data)| && got == old(data)[old(off)..old(off) + |got|]
    {
      hide CallsOk, ProcOk, Bytes;
      StepInv(Now(), EndRead(p));
      EndReadFile(Now().ino, h, procs[p].n);
      ReadingSome(Now(), p);
      hide Inv, FileOk, Wakeup;
      var m := Upto(Inode(locked, want, iread, iwrite, data, off, rd, wr), procs[p].n);
      ReadLength(Inode(locked, want, iread, iwrite, data, off, rd, wr), procs[p].n);
      hide Upto;
      got := data[off..m];
      off := m;
      if off == |data| {
        off := 0;
        data := [];
        if iwrite {
          iwrite := false;
          WakeAll(OnWrite);
        }
      }
      Prele();
      procs := procs[p := Idle];
      h := h.(readout := h.readout + got, holder := -1, writing := false);
    }

    /** writep from its label on. */
    method StartWrite(p: nat)
      requires Inv(Now()) && Enabled(Now(), Lock(p)) && procs[p].op.Write?
      modifies this
      ensures Now() == DoLock(old(Now()), p) && Inv(Now())
    {
      hide FileOk, CallsOk, ProcOk;
      StepInv(Now(), Lock(p));
      var call, rest := procs[p].op.call, procs[p].op.rest;
      var got := Plock(p, Write(call, rest));
      if !got {
        return;
      }
      if |rest| == 0 {
        Prele();
        procs := procs[p := Idle];
        h := h.(completed := h.completed + {call});
        return;
      }
      if rd.Closed? || wr.Closed? {
        Prele();
        procs := procs[p := Idle];
        return;
      }
      if |data| >= PIPSIZ {
        iwrite := true;
        Prele();
        procs := procs[p := WriteWait(call, rest)];
        return;
      }
      var c := Min(|rest|, PIPSIZ);
      procs := procs[p := Writing(call, rest[..c], rest[c..])];
      h := h.(holder := p, writing := true);
    }

    /** writep from the return of writei on. */
    method EndOfWrite(p: nat)
      requires Inv(Now()) && Enabled(Now(), EndWrite(p))
      modifies this
      ensures Now() == DoEndWrite(old(Now()), p) && Inv(Now())
    {
      hide FileOk, CallsOk, ProcOk;
      StepInv(Now(), EndWrite(p));
      var pc := procs[p];
      Prele();
      if iread {
        iread := false;
        WakeAll(OnRead);
      }
      procs := procs[p := Want(Write(pc.call, pc.rest))];
      h := h.(holder := -1, writing := false);
    }

    /** closef for the last use of an end. */
    method StartClose(p: nat)
      requires Inv(Now()) && Enabled(Now(), Lock(p)) && procs[p].op.Close?
      modifies this
      ensures Now() == DoLock(old(Now()), p) && Inv(Now())
    {
      hide FileOk, CallsOk, ProcOk;
      StepInv(Now(), Lock(p));
      var side := procs[p].op.side;
      var got := Plock(p, Close(side));
      if !got {
        return;
      }
      iread, iwrite := false, false;
      WakeAll(OnWrite);
      WakeAll(OnRead);
      if side.ReadSide? {
        rd := Closed;
      } else {
        wr := Closed;
      }
      Prele();
      procs := procs[p := Idle];
    }
  }

  lemma ReadLength(i: Inode, n: nat)
    requires i.off < |i.data|
    ensures Upto(i, n) - i.off == (if n < |i.data| - i.off then n else |i.data| - i.off) && Upto(i, n) <= |i.data|
  {
  }

  lemma ReadingSome(s: State, p: nat)
    requires Inv(s) && p < |s.procs| && s.procs[p].Reading?
    ensures s.ino.off < |s.ino.data|
  {
    hide CallsOk, Bytes;
    assert ProcOk(s.ino, s.h, p, s.procs[p]);
  }
}
