/**
 * Pipes (usr/sys/sys/pipe.c) as a system of atomic steps. The kernel gives up
 * the processor only in sleep, so each stretch from one sleep to the next is
 * one step; readi and writei may sleep for the disk, with the inode locked.
 */
module Pipe {

  const PIPSIZ := 4096

  datatype Side = ReadSide | WriteSide

  /** A system call under way; call is the number of a write, rest what it has still to write. */
  datatype Op = Read(n: nat) | Write(call: nat, rest: seq<int>) | Close(side: Side)

  /** Where a process is. */
  datatype Proc =
    | Idle
    | Want(op: Op)                                      // running, about to lock the inode
    | LockWait(op: Op)                                  // asleep on the inode
    | ReadWait(n: nat)                                  // asleep on the inode + 2
    | WriteWait(call: nat, rest: seq<int>)              // asleep on the inode + 1
    | Reading(n: nat)                                   // has the lock, in readi
    | Writing(call: nat, chunk: seq<int>, rest: seq<int>)  // has the lock, in writei with chunk to go

  /** An end of the pipe; the process that closes it last is the only one that still uses it. */
  datatype End = Open | Closing(who: nat) | Closed

  /** The inode, and the offset of the file structure of the reading end. data is the file, i_size bytes. */
  datatype Inode = Inode(locked: bool, want: bool, iread: bool, iwrite: bool,
                         data: seq<int>, off: nat, rd: End, wr: End)

  /** A byte as it was written, with the call that wrote it. */
  datatype Byte = Byte(call: nat, b: int)

  /**
   * What happened so far: the calls of write with their data and processes,
   * those that came to their end, those that lost bytes because the disk was
   * full, all bytes written, and all bytes read.
   */
  datatype History = History(calls: seq<seq<int>>, owner: seq<nat>, completed: set<nat>, lost: set<nat>,
                             written: seq<Byte>, readout: seq<int>, holder: int, writing: bool)

  datatype State = State(procs: seq<Proc>, ino: Inode, h: History)

  // ---- wakeups ----

  datatype Channel = OnLock | OnWrite | OnRead

  function Awoken(pc: Proc, ch: Channel): Proc {
    match (pc, ch)
    case (LockWait(op), OnLock) => Want(op)
    case (WriteWait(call, rest), OnWrite) => Want(Write(call, rest))
    case (ReadWait(n), OnRead) => Want(Read(n))
    case _ => pc
  }

  function Wakeup(procs: seq<Proc>, ch: Channel, on: bool): (r: seq<Proc>)
    ensures |r| == |procs|
    ensures forall k {:trigger r[k]} :: 0 <= k < |r| ==> r[k] == if on then Awoken(procs[k], ch) else procs[k]
  {
    if on then seq(|procs|, k requires 0 <= k < |procs| => Awoken(procs[k], ch)) else procs
  }

  // ---- steps ----

  datatype Step =
    | Call(p: nat, op: Op)
    | Lock(p: nat)
    | Put(p: nat, k: nat)
    | Fail(p: nat)
    | EndRead(p: nat)
    | EndWrite(p: nat)
    | Signal(p: nat)

  predicate Uses(pc: Proc, side: Side) {
    match pc
    case Idle => false
    case Want(op) => OpUses(op, side)
    case LockWait(op) => OpUses(op, side)
    case ReadWait(_) => side.ReadSide?
    case Reading(_) => side.ReadSide?
    case WriteWait(_, _) => side.WriteSide?
    case Writing(_, _, _) => side.WriteSide?
  }

  predicate OpUses(op: Op, side: Side) {
    match op
    case Read(_) => side.ReadSide?
    case Write(_, _) => side.WriteSide?
    case Close(s) => side == s
  }

  function SideOf(op: Op): Side { if op.Read? then ReadSide else if op.Write? then WriteSide else op.side }

  function EndOf(i: Inode, side: Side): End { if side.ReadSide? then i.rd else i.wr }

  /** i_count < 2. */
  predicate Alone(i: Inode) { i.rd.Closed? || i.wr.Closed? }

  /** A step is possible. A process calls with a file it has open, and only the last to use a file closes its end. */
  predicate Enabled(s: State, t: Step) {
    t.p < |s.procs| &&
    var pc := s.procs[t.p];
    match t
    case Call(p, op) =>
      pc.Idle? && EndOf(s.ino, SideOf(op)).Open? &&
      (op.Write? ==> op.call == |s.h.calls|) &&
      (op.Close? ==> forall q :: 0 <= q < |s.procs| ==> !Uses(s.procs[q], op.side))
    case Lock(p) => pc.Want?
    case Put(p, k) => pc.Writing? && 1 <= k <= |pc.chunk|
    case Fail(p) => pc.Writing? && pc.chunk != []
    case EndRead(p) => pc.Reading?
    case EndWrite(p) => pc.Writing? && pc.chunk == []
    case Signal(p) => pc.ReadWait? || pc.WriteWait?
  }

  function Do(s: State, t: Step): (s': State)
    requires Enabled(s, t)
    ensures |s'.procs| == |s.procs|
  {
    match t
    case Call(p, op) => DoCall(s, p, op)
    case Lock(p) => DoLock(s, p)
    case Put(p, k) => DoPut(s, p, k)
    case Fail(p) => DoFail(s, p)
    case EndRead(p) => DoEndRead(s, p)
    case EndWrite(p) => DoEndWrite(s, p)
    case Signal(p) => s.(procs := s.procs[p := Idle])
  }

  function DoCall(s: State, p: nat, op: Op): State
    requires Enabled(s, Call(p, op))
  {
    var s1 := s.(procs := s.procs[p := Want(op)]);
    match op
    case Read(_) => s1
    case Write(_, data) => s1.(h := s.h.(calls := s.h.calls + [data], owner := s.h.owner + [p]))
    case Close(ReadSide) => s1.(ino := s.ino.(rd := Closing(p)))
    case Close(WriteSide) => s1.(ino := s.ino.(wr := Closing(p)))
  }

  function Min(a: nat, b: nat): nat { if a < b then a else b }

  /** From plock to the next sleep, to readi or writei, or to the return. */
  function DoLock(s: State, p: nat): State
    requires Enabled(s, Lock(p))
  {
    var op := s.procs[p].op;
    if s.ino.locked then State(s.procs[p := LockWait(op)], s.ino.(want := true), s.h)
    else match op
      case Read(n) =>
        if s.ino.data != [] then
          State(s.procs[p := Reading(n)], s.ino.(locked := true), s.h.(holder := p, writing := false))
        else if Alone(s.ino) then s.(procs := s.procs[p := Idle])
        else s.(procs := s.procs[p := ReadWait(n)], ino := s.ino.(iread := true))
      case Write(call, rest) =>
        if rest == [] then s.(procs := s.procs[p := Idle], h := s.h.(completed := s.h.completed + {call}))
        else if Alone(s.ino) then s.(procs := s.procs[p := Idle])
        else if |s.ino.data| >= PIPSIZ then s.(procs := s.procs[p := WriteWait(call, rest)], ino := s.ino.(iwrite := true))
        else
          var c := Min(|rest|, PIPSIZ);
          State(s.procs[p := Writing(call, rest[..c], rest[c..])], s.ino.(locked := true), s.h.(holder := p, writing := true))
      case Close(side) =>
        var procs := Wakeup(Wakeup(s.procs, OnWrite, true), OnRead, true);
        var ino := s.ino.(iread := false, iwrite := false);
        s.(procs := procs[p := Idle], ino := if side.ReadSide? then ino.(rd := Closed) else ino.(wr := Closed))
  }

  function Tagged(call: nat, bytes: seq<int>): (r: seq<Byte>)
    ensures |r| == |bytes| && forall k :: 0 <= k < |r| ==> r[k] == Byte(call, bytes[k])
  {
    seq(|bytes|, k requires 0 <= k < |bytes| => Byte(call, bytes[k]))
  }

  /** writei moves k bytes more. */
  function DoPut(s: State, p: nat, k: nat): State
    requires Enabled(s, Put(p, k))
  {
    var pc := s.procs[p];
    State(s.procs[p := pc.(chunk := pc.chunk[k..])],
          s.ino.(data := s.ino.data + pc.chunk[..k]),
          s.h.(written := s.h.written + Tagged(pc.call, pc.chunk[..k])))
  }

  /** writei runs out of space: what is left of the chunk is lost, and writep goes on with the rest. */
  function DoFail(s: State, p: nat): State
    requires Enabled(s, Fail(p))
  {
    var pc := s.procs[p];
    State(s.procs[p := pc.(chunk := [])], s.ino, s.h.(lost := s.h.lost + {pc.call}))
  }

  /** Where a read of n bytes ends. */
  function Upto(i: Inode, n: nat): nat { if i.off + n < |i.data| then i.off + n else |i.data| }

  /** From the end of readi on. */
  function DoEndRead(s: State, p: nat): State
    requires Enabled(s, EndRead(p))
  {
    var i := s.ino;
    var off := Upto(i, s.procs[p].n);
    var got := if i.off <= off then i.data[i.off..off] else [];
    var caught := off == |i.data|;
    var procs := Wakeup(s.procs, OnWrite, caught && i.iwrite);
    State(Wakeup(procs, OnLock, i.want)[p := Idle],
          i.(locked := false, want := false, off := if caught then 0 else off,
             data := if caught then [] else i.data, iwrite := i.iwrite && !caught),
          s.h.(readout := s.h.readout + got, holder := -1, writing := false))
  }

  /** From the end of writei back to the top of the loop. */
  function DoEndWrite(s: State, p: nat): State
    requires Enabled(s, EndWrite(p))
  {
    var pc := s.procs[p];
    var procs := Wakeup(Wakeup(s.procs, OnLock, s.ino.want), OnRead, s.ino.iread);
    State(procs[p := Want(Write(pc.call, pc.rest))],
          s.ino.(locked := false, want := false, iread := false),
          s.h.(holder := -1, writing := false))
  }

  // ---- what was written ----

  function Bytes(w: seq<Byte>): (r: seq<int>)
    ensures |r| == |w| && forall k :: 0 <= k < |r| ==> r[k] == w[k].b
  {
    seq(|w|, k requires 0 <= k < |w| => w[k].b)
  }

  /** The bytes that a call has written. */
  ghost function Of(w: seq<Byte>, call: nat): seq<int> {
    if w == [] then []
    else
      var m := |w| - 1;
      Of(w[..m], call) + if w[m].call == call then [w[m].b] else []
  }

  lemma {:induction false} OfPut(w: seq<Byte>, c: nat, bytes: seq<int>, call: nat)
    ensures Of(w + Tagged(c, bytes), call) == Of(w, call) + if c == call then bytes else []
    decreases |bytes|
  {
    if bytes == [] {
      assert w + Tagged(c, bytes) == w;
    } else {
      var m := |bytes| - 1;
      OfPut(w, c, bytes[..m], call);
      var w' := w + Tagged(c, bytes);
      assert w'[..|w'| - 1] == w + Tagged(c, bytes[..m]);
      assert bytes == bytes[..m] + [bytes[m]];
    }
  }

  lemma {:induction false} OfNone(w: seq<Byte>, call: nat, k: nat)
    requires Of(w, call) == [] && k < |w|
    ensures w[k].call != call
  {
    if k < |w| - 1 {
      OfNone(w[..|w| - 1], call, k);
    }
  }

  /** No byte of another call lies between two bytes of a call of at most PIPSIZ bytes. */
  ghost predicate Contiguous(w: seq<Byte>, calls: seq<seq<int>>) {
    forall a, b, c :: 0 <= a < b < c < |w| && w[a].call == w[c].call && w[a].call < |calls| && |calls[w[a].call]| <= PIPSIZ
      ==> w[b].call == w[a].call
  }

  lemma ContiguousPut(w: seq<Byte>, calls: seq<seq<int>>, call: nat, bytes: seq<int>)
    requires Contiguous(w, calls) && call < |calls|
    requires |calls[call]| <= PIPSIZ ==> Of(w, call) == [] || (w != [] && w[|w| - 1].call == call)
    ensures Contiguous(w + Tagged(call, bytes), calls)
  {
    hide Of;
    var w' := w + Tagged(call, bytes);
    forall a, b, c | 0 <= a < b < c < |w'| && w'[a].call == w'[c].call && w'[a].call < |calls| && |calls[w'[a].call]| <= PIPSIZ
      ensures w'[b].call == w'[a].call
    {
      if c >= |w| && a < |w| {
        if Of(w, call) == [] {
          OfNone(w, call, a);
        }
      }
    }
  }

  // ---- the invariant ----

  /** The bytes read and the bytes that wait are the bytes written; the file is short; the reader has not caught up. */
  ghost predicate FileOk(i: Inode, h: History) {
    && 0 <= i.off <= |i.data| < 2 * PIPSIZ
    && (i.off == |i.data| ==> i.data == [])
    && Bytes(h.written) == h.readout + i.data[i.off..]
  }

  /** A writer that is not in writei has written all of its call but rest; a short call is written at once. */
  ghost predicate CallOk(h: History, p: nat, call: nat, rest: seq<int>) {
    && call < |h.calls| && call < |h.owner| && h.owner[call] == p && call !in h.completed
    && |rest| <= |h.calls[call]| && (call !in h.lost ==> Of(h.written, call) + rest == h.calls[call])
    && (|h.calls[call]| <= PIPSIZ ==> rest == [] || Of(h.written, call) == [])
  }

  ghost predicate OpOk(i: Inode, h: History, p: nat, op: Op) {
    match op
    case Read(_) => i.rd.Open?
    case Write(call, rest) => i.wr.Open? && CallOk(h, p, call, rest)
    case Close(ReadSide) => i.rd == Closing(p)
    case Close(WriteSide) => i.wr == Closing(p)
  }

  /** Who sleeps has a reason to, and left the mark that will have it woken. */
  ghost predicate ProcOk(i: Inode, h: History, p: nat, pc: Proc) {
    match pc
    case Idle => true
    case Want(op) => OpOk(i, h, p, op)
    case LockWait(op) => OpOk(i, h, p, op) && i.locked && i.want
    case ReadWait(n) => i.rd.Open? && !i.wr.Closed? && i.iread && (i.data == [] || h.writing)
    case WriteWait(call, rest) =>
      i.wr.Open? && !i.rd.Closed? && i.iwrite && |i.data| >= PIPSIZ && CallOk(h, p, call, rest) && rest != []
    case Reading(n) => i.rd.Open? && h.holder == p && !h.writing && i.data != []
    case Writing(call, chunk, rest) => i.wr.Open? && h.holder == p && h.writing && WritingOk(i, h, p, call, chunk, rest)
  }

  ghost predicate WritingOk(i: Inode, h: History, p: nat, call: nat, chunk: seq<int>, rest: seq<int>) {
    && |i.data| + |chunk| < 2 * PIPSIZ
    && call < |h.calls| && call < |h.owner| && h.owner[call] == p && call !in h.completed
    && |chunk| + |rest| <= |h.calls[call]| && (call !in h.lost ==> Of(h.written, call) + chunk + rest == h.calls[call])
    && (|h.calls[call]| <= PIPSIZ ==>
          rest == [] && (Of(h.written, call) == [] || (h.written != [] && h.written[|h.written| - 1].call == call)))
  }

  predicate Holds(pc: Proc) { pc.Reading? || pc.Writing? }

  ghost predicate LockOk(s: State) {
    && (s.ino.locked <==> s.h.holder != -1)
    && (s.ino.want || s.h.writing ==> s.ino.locked)
    && (s.h.holder != -1 ==> 0 <= s.h.holder < |s.procs| && Holds(s.procs[s.h.holder]))
  }

  ghost predicate CallsOk(h: History) {
    && |h.owner| == |h.calls|
    && (forall k {:trigger h.written[k]} :: 0 <= k < |h.written| ==> h.written[k].call < |h.calls|)
    && (forall c :: c in h.completed ==> c < |h.calls| && (c !in h.lost ==> Of(h.written, c) == h.calls[c]))
    && (forall c :: c in h.lost ==> c < |h.calls|)
    && Contiguous(h.written, h.calls)
  }

  ghost predicate ProcsOk(s: State) {
    forall p {:trigger s.procs[p]} :: 0 <= p < |s.procs| ==> ProcOk(s.ino, s.h, p, s.procs[p])
  }

  ghost predicate Inv(s: State) {
    FileOk(s.ino, s.h) && LockOk(s) && CallsOk(s.h) && ProcsOk(s)
  }

  /** A pipe as the system call makes it. */
  ghost predicate Init(s: State) {
    && (forall p :: 0 <= p < |s.procs| ==> s.procs[p].Idle?)
    && s.ino == Inode(false, false, false, false, [], 0, Open, Open)
    && s.h == History([], [], {}, {}, [], [], -1, false)
  }

  lemma InitInv(s: State)
    requires Init(s)
    ensures Inv(s)
  {
  }

  // ---- every step keeps the invariant ----

  lemma {:induction false} OfAbsent(w: seq<Byte>, call: nat)
    requires forall k {:trigger w[k]} :: 0 <= k < |w| ==> w[k].call != call
    ensures Of(w, call) == []
  {
    if w != [] {
      OfAbsent(w[..|w| - 1], call);
    }
  }

  lemma CallOther(s: State, p: nat, op: Op, q: nat)
    requires CallsOk(s.h) && Enabled(s, Call(p, op)) && q < |s.procs| && q != p && ProcOk(s.ino, s.h, q, s.procs[q])
    ensures var s' := DoCall(s, p, op); ProcOk(s'.ino, s'.h, q, s'.procs[q])
  {
    hide Of, Contiguous;
    assert op.Close? ==> !Uses(s.procs[q], op.side);
  }

  lemma CallProcs(s: State, p: nat, op: Op)
    requires Inv(s) && Enabled(s, Call(p, op))
    ensures ProcsOk(DoCall(s, p, op))
  {
    var s' := DoCall(s, p, op);
    hide Of, Contiguous, Bytes, FileOk;
    forall q | 0 <= q < |s.procs|
      ensures ProcOk(s'.ino, s'.h, q, s'.procs[q])
    {
      if q != p {
        CallOther(s, p, op, q);
      } else if op.Write? {
        OfAbsent(s.h.written, op.call);
        assert [] + op.rest == op.rest;
      }
    }
  }

  lemma CallInv(s: State, p: nat, op: Op)
    requires Inv(s) && Enabled(s, Call(p, op))
    ensures Inv(DoCall(s, p, op))
  {
    CallProcs(s, p, op);
    hide Of, Contiguous, Bytes, ProcsOk;
    if op.Write? {
      ContiguousCall(s.h.written, s.h.calls, op.rest);
    }
  }

  lemma ContiguousCall(w: seq<Byte>, calls: seq<seq<int>>, data: seq<int>)
    requires Contiguous(w, calls) && forall k {:trigger w[k]} :: 0 <= k < |w| ==> w[k].call < |calls|
    ensures Contiguous(w, calls + [data])
  {
  }

  /** plock with the inode locked, or a read. */
  lemma LockReadInv(s: State, p: nat)
    requires Inv(s) && Enabled(s, Lock(p)) && (s.ino.locked || s.procs[p].op.Read?)
    ensures Inv(DoLock(s, p))
  {
    hide Of, Contiguous, Bytes;
    var s' := DoLock(s, p);
    assert ProcOk(s.ino, s.h, p, s.procs[p]);
    forall q | 0 <= q < |s.procs| && q != p
      ensures ProcOk(s'.ino, s'.h, q, s'.procs[q])
    {
      assert ProcOk(s.ino, s.h, q, s.procs[q]);
    }
  }

  lemma LockWriteInv(s: State, p: nat)
    requires Inv(s) && Enabled(s, Lock(p)) && !s.ino.locked && s.procs[p].op.Write?
    ensures Inv(DoLock(s, p))
  {
    hide Of, Contiguous, Bytes;
    var s' := DoLock(s, p);
    assert ProcOk(s.ino, s.h, p, s.procs[p]);
    forall q | 0 <= q < |s.procs| && q != p
      ensures ProcOk(s'.ino, s'.h, q, s'.procs[q])
    {
      assert ProcOk(s.ino, s.h, q, s.procs[q]);
    }
    var op := s.procs[p].op;
    var so := Of(s.h.written, op.call);
    if op.rest == [] {
      assert so + [] == so;
    } else {
      var c := Min(|op.rest|, PIPSIZ);
      assert so + op.rest[..c] + op.rest[c..] == so + op.rest;
    }
  }

  lemma LockCloseOther(s: State, p: nat, q: nat)
    requires LockOk(s) && Enabled(s, Lock(p)) && !s.ino.locked && s.procs[p].op.Close? && ProcOk(s.ino, s.h, p, s.procs[p])
    requires q < |s.procs| && q != p && ProcOk(s.ino, s.h, q, s.procs[q])
    ensures var s' := DoLock(s, p); ProcOk(s'.ino, s'.h, q, s'.procs[q])
  {
    hide Of, CallOk, WritingOk;
  }

  /** What plock leaves alone when the last of an end is closed. */
  lemma LockCloseRest(s: State, p: nat)
    requires Inv(s) && Enabled(s, Lock(p)) && !s.ino.locked && s.procs[p].op.Close?
    ensures FileOk(DoLock(s, p).ino, DoLock(s, p).h) && LockOk(DoLock(s, p)) && CallsOk(DoLock(s, p).h)
  {
    hide Of, Contiguous, Bytes, ProcOk;
  }

  lemma LockCloseInv(s: State, p: nat)
    requires Inv(s) && Enabled(s, Lock(p)) && !s.ino.locked && s.procs[p].op.Close?
    ensures Inv(DoLock(s, p))
  {
    LockCloseRest(s, p);
    hide Of, Contiguous, Bytes, FileOk, LockOk, CallsOk, ProcOk, DoLock;
    var s' := DoLock(s, p);
    DoLockSize(s, p);
    assert ProcOk(s.ino, s.h, p, s.procs[p]);
    IdleHere(s', p);
    forall q | 0 <= q < |s.procs| && q != p
      ensures ProcOk(s'.ino, s'.h, q, s'.procs[q])
    {
      assert ProcOk(s.ino, s.h, q, s.procs[q]);
      LockCloseOther(s, p, q);
    }
  }

  lemma DoLockSize(s: State, p: nat)
    requires Enabled(s, Lock(p)) && !s.ino.locked && s.procs[p].op.Close?
    ensures |DoLock(s, p).procs| == |s.procs| && DoLock(s, p).procs[p].Idle?
  {
  }

  lemma IdleHere(s: State, p: nat)
    requires p < |s.procs| && s.procs[p].Idle?
    ensures ProcOk(s.ino, s.h, p, s.procs[p])
  {
  }

  lemma PutInv(s: State, p: nat, k: nat)
    requires Inv(s) && Enabled(s, Put(p, k))
    ensures Inv(DoPut(s, p, k))
  {
    hide Of, Contiguous;
    var s' := DoPut(s, p, k);
    var pc, w := s.procs[p], s.h.written;
    assert ProcOk(s.ino, s.h, p, pc);
    ContiguousPut(w, s.h.calls, pc.call, pc.chunk[..k]);
    OfPut(w, pc.call, pc.chunk[..k], pc.call);
    assert pc.chunk[..k] + pc.chunk[k..] == pc.chunk;
    assert Of(w, pc.call) + pc.chunk[..k] + pc.chunk[k..] + pc.rest == Of(w, pc.call) + pc.chunk + pc.rest;
    forall c | c in s.h.completed
      ensures Of(s'.h.written, c) == Of(w, c)
    {
      OfPut(w, pc.call, pc.chunk[..k], c);
    }
    forall q | 0 <= q < |s.procs| && q != p
      ensures ProcOk(s'.ino, s'.h, q, s'.procs[q])
    {
      assert ProcOk(s.ino, s.h, q, s.procs[q]);
      PutOther(s, p, k, q);
    }
    PutFile(s.ino, s.h, pc.call, pc.chunk[..k]);
  }

  lemma PutFile(i: Inode, h: History, call: nat, bytes: seq<int>)
    requires FileOk(i, h) && |i.data| + |bytes| < 2 * PIPSIZ && bytes != []
    ensures FileOk(i.(data := i.data + bytes), h.(written := h.written + Tagged(call, bytes)))
  {
    BytesPut(h.written, call, bytes);
    hide Bytes, Tagged;
    assert (i.data + bytes)[i.off..] == i.data[i.off..] + bytes;
    assert h.readout + (i.data[i.off..] + bytes) == h.readout + i.data[i.off..] + bytes;
  }

  lemma BytesPut(w: seq<Byte>, call: nat, bytes: seq<int>)
    ensures Bytes(w + Tagged(call, bytes)) == Bytes(w) + bytes
  {
  }

  /** A process that does not hold the lock is not touched by the writer that does. */
  lemma PutOther(s: State, p: nat, k: nat, q: nat)
    requires Enabled(s, Put(p, k)) && q < |s.procs| && q != p
    requires ProcOk(s.ino, s.h, p, s.procs[p]) && ProcOk(s.ino, s.h, q, s.procs[q])
    ensures var s' := DoPut(s, p, k); ProcOk(s'.ino, s'.h, q, s.procs[q])
  {
    hide Of;
    var pc := s.procs[q];
    if pc.WriteWait? {
      OfPut(s.h.written, s.procs[p].call, s.procs[p].chunk[..k], pc.call);
    } else if (pc.Want? || pc.LockWait?) && pc.op.Write? {
      OfPut(s.h.written, s.procs[p].call, s.procs[p].chunk[..k], pc.op.call);
    }
  }

  lemma FailInv(s: State, p: nat)
    requires Inv(s) && Enabled(s, Fail(p))
    ensures Inv(DoFail(s, p))
  {
    hide Of, Contiguous, Bytes;
    var s' := DoFail(s, p);
    assert ProcOk(s.ino, s.h, p, s.procs[p]);
    forall q | 0 <= q < |s.procs| && q != p
      ensures ProcOk(s'.ino, s'.h, q, s'.procs[q])
    {
      assert ProcOk(s.ino, s.h, q, s.procs[q]);
    }
  }

  lemma EndReadFile(i: Inode, h: History, n: nat)
    requires FileOk(i, h)
    ensures var off := Upto(i, n);
            i.off <= off <= |i.data| && h.readout + i.data[i.off..off] + i.data[off..] == Bytes(h.written)
  {
    hide Bytes;
    var off := Upto(i, n);
    assert i.data[i.off..] == i.data[i.off..off] + i.data[off..];
    assert h.readout + (i.data[i.off..off] + i.data[off..]) == h.readout + i.data[i.off..off] + i.data[off..];
  }

  lemma EndReadOther(s: State, p: nat, q: nat)
    requires Enabled(s, EndRead(p)) && q < |s.procs| && q != p
    requires ProcOk(s.ino, s.h, p, s.procs[p]) && ProcOk(s.ino, s.h, q, s.procs[q])
    ensures var s' := DoEndRead(s, p); ProcOk(s'.ino, s'.h, q, s'.procs[q])
  {
    hide Of, Upto;
  }

  lemma EndReadInv(s: State, p: nat)
    requires Inv(s) && Enabled(s, EndRead(p))
    ensures Inv(DoEndRead(s, p))
  {
    hide Of, Contiguous, Bytes, ProcOk, Upto;
    var s' := DoEndRead(s, p);
    forall q | 0 <= q < |s.procs|
      ensures ProcOk(s'.ino, s'.h, q, s'.procs[q])
    {
      if q != p {
        EndReadOther(s, p, q);
      } else {
        assert s'.procs[q] == Idle;
        IdleOk(s'.ino, s'.h, q);
      }
    }
    EndReadFile(s.ino, s.h, s.procs[p].n);
  }

  lemma IdleOk(i: Inode, h: History, q: nat)
    ensures ProcOk(i, h, q, Idle)
  {
  }

  lemma EndWriteInv(s: State, p: nat)
    requires Inv(s) && Enabled(s, EndWrite(p))
    ensures Inv(DoEndWrite(s, p))
  {
    hide Of, Contiguous, Bytes;
    var s' := DoEndWrite(s, p);
    var pc := s.procs[p];
    assert ProcOk(s.ino, s.h, p, pc);
    assert Of(s.h.written, pc.call) + [] + pc.rest == Of(s.h.written, pc.call) + pc.rest;
    forall q | 0 <= q < |s.procs| && q != p
      ensures ProcOk(s'.ino, s'.h, q, s'.procs[q])
    {
      assert ProcOk(s.ino, s.h, q, s.procs[q]);
    }
  }

  /** What every step keeps. */
  lemma StepInv(s: State, t: Step)
    requires Inv(s) && Enabled(s, t)
    ensures Inv(Do(s, t))
  {
    hide Of, Contiguous, Bytes;
    match t
    case Call(p, op) => CallInv(s, p, op);
    case Lock(p) =>
      if s.ino.locked || s.procs[p].op.Read? {
        LockReadInv(s, p);
      } else if s.procs[p].op.Write? {
        LockWriteInv(s, p);
      } else {
        LockCloseInv(s, p);
      }
    case Put(p, k) => PutInv(s, p, k);
    case Fail(p) => FailInv(s, p);
    case EndRead(p) => EndReadInv(s, p);
    case EndWrite(p) => EndWriteInv(s, p);
    case Signal(p) =>
  }

  // ---- runs ----

  ghost predicate CanRun(s: State, ts: seq<Step>)
    decreases |ts|
  {
    ts == [] || (Enabled(s, ts[0]) && CanRun(Do(s, ts[0]), ts[1..]))
  }

  ghost function Run(s: State, ts: seq<Step>): State
    requires CanRun(s, ts)
    decreases |ts|
  {
    if ts == [] then s else Run(Do(s, ts[0]), ts[1..])
  }

  lemma {:induction false} RunInv(s: State, ts: seq<Step>)
    requires Inv(s) && CanRun(s, ts)
    ensures Inv(Run(s, ts))
    decreases |ts|
  {
    hide Inv, Enabled, Do;
    if ts != [] {
      StepInv(s, ts[0]);
      RunInv(Do(s, ts[0]), ts[1..]);
    }
  }

  // ---- what holds in every run ----

  /** From the making of the pipe on: first in first out, a short file, short writes in one piece, finished writes whole unless the disk was full. */
  lemma RunFifo(s: State, ts: seq<Step>)
    requires Init(s) && CanRun(s, ts)
    ensures var r := Run(s, ts);
            && r.h.readout <= Bytes(r.h.written)
            && r.ino.off <= |r.ino.data| < 2 * PIPSIZ
            && Bytes(r.h.written)[|r.h.readout|..] == r.ino.data[r.ino.off..]
            && Contiguous(r.h.written, r.h.calls)
            && forall c :: c in r.h.completed ==> c < |r.h.calls| && (c !in r.h.lost ==> Of(r.h.written, c) == r.h.calls[c])
  {
    InitInv(s);
    RunInv(s, ts);
    hide Run, CanRun, Contiguous, Of, Bytes, LockOk, ProcsOk;
  }

  /** Whoever sleeps has a reason to, and its mark is set. */
  ghost predicate Sleeps(i: Inode, pc: Proc) {
    && (pc.LockWait? ==> i.locked && i.want)
    && (pc.ReadWait? ==> i.iread && !Alone(i) && (i.data == [] || i.locked))
    && (pc.WriteWait? ==> i.iwrite && !Alone(i) && |i.data| >= PIPSIZ)
  }

  lemma Sleepers(s: State, p: nat)
    requires Inv(s) && p < |s.procs|
    ensures Sleeps(s.ino, s.procs[p])
  {
    hide FileOk, CallsOk, CallOk;
    assert ProcOk(s.ino, s.h, p, s.procs[p]);
  }

  /** No wakeup is lost in any run. */
  lemma RunSleepers(s: State, ts: seq<Step>, p: nat)
    requires Init(s) && CanRun(s, ts) && p < |Run(s, ts).procs|
    ensures Sleeps(Run(s, ts).ino, Run(s, ts).procs[p])
  {
    hide *;
    InitInv(s);
    RunInv(s, ts);
    Sleepers(Run(s, ts), p);
  }

  /** A read comes back with nothing only when the writing end is closed and all that was written has been read. */
  lemma EndOfFile(s: State, p: nat)
    requires Inv(s) && Enabled(s, Lock(p)) && s.procs[p].op.Read? && !s.ino.locked
    ensures DoLock(s, p).procs[p].Idle? <==> s.ino.wr.Closed? && s.h.readout == Bytes(s.h.written)
  {
    hide Bytes, CallsOk, Of;
    assert ProcOk(s.ino, s.h, p, s.procs[p]);
  }

  predicate Runs(pc: Proc) { pc.Want? || Holds(pc) }

  ghost predicate EmptyWait(s: State) {
    s.ino.data == [] && forall p :: 0 <= p < |s.procs| ==> s.procs[p].Idle? || s.procs[p].ReadWait?
  }

  ghost predicate FullWait(s: State) {
    |s.ino.data| >= PIPSIZ && forall p :: 0 <= p < |s.procs| ==> s.procs[p].Idle? || s.procs[p].WriteWait?
  }

  /** No deadlock: when no process runs and some are in a call, only readers of an empty pipe wait, or only writers of a full one. */
  lemma Progress(s: State)
    requires Inv(s) && forall p :: 0 <= p < |s.procs| ==> !Runs(s.procs[p])
    ensures (forall p :: 0 <= p < |s.procs| ==> s.procs[p].Idle?) || EmptyWait(s) || FullWait(s)
  {
    hide FileOk, CallsOk, CallOk;
    assert !s.ino.locked;
    if p :| 0 <= p < |s.procs| && s.procs[p].WriteWait? {
      assert ProcOk(s.ino, s.h, p, s.procs[p]);
      forall q | 0 <= q < |s.procs|
        ensures s.procs[q].Idle? || s.procs[q].WriteWait?
      {
        assert ProcOk(s.ino, s.h, q, s.procs[q]);
      }
    } else {
      forall q | 0 <= q < |s.procs|
        ensures s.procs[q].Idle? || s.procs[q].ReadWait?
        ensures s.procs[q].ReadWait? ==> s.ino.data == []
      {
        assert ProcOk(s.ino, s.h, q, s.procs[q]);
      }
    }
  }

  // ---- calls come to an end ----

  /** How much a call has still to do: a wakeup does not change it, and each return from readi or writei makes it less. */
  function Work(pc: Proc): nat {
    match pc
    case Idle => 0
    case Want(op) => OpWork(op)
    case LockWait(op) => OpWork(op)
    case ReadWait(_) => 1
    case Reading(_) => 1
    case WriteWait(_, rest) => 2 * |rest| + 1
    case Writing(_, chunk, rest) => 2 * |rest| + |chunk| + 2
  }

  function OpWork(op: Op): nat { if op.Write? then 2 * |op.rest| + 1 else 1 }

  function Wake(pc: Proc): nat { if pc.Want? then 2 else if Holds(pc) then 1 else 0 }

  function TotalWork(procs: seq<Proc>): nat {
    if procs == [] then 0 else TotalWork(procs[1..]) + Work(procs[0])
  }

  function TotalWake(procs: seq<Proc>): nat {
    if procs == [] then 0 else TotalWake(procs[1..]) + Wake(procs[0])
  }

  lemma {:induction false} SetOne(procs: seq<Proc>, p: nat, pc: Proc)
    requires p < |procs|
    ensures TotalWork(procs[p := pc]) == TotalWork(procs) - Work(procs[p]) + Work(pc)
    ensures TotalWake(procs[p := pc]) == TotalWake(procs) - Wake(procs[p]) + Wake(pc)
  {
    if p == 0 {
      assert procs[p := pc][1..] == procs[1..];
    } else {
      assert procs[p := pc][1..] == procs[1..][p - 1 := pc];
      SetOne(procs[1..], p - 1, pc);
    }
  }

  lemma {:induction false} WakeBound(procs: seq<Proc>)
    ensures TotalWake(procs) <= 2 * |procs|
  {
    if procs != [] {
      WakeBound(procs[1..]);
    }
  }

  lemma {:induction false} SameWork(a: seq<Proc>, b: seq<Proc>)
    requires |a| == |b| && forall k {:trigger b[k]} :: 0 <= k < |a| ==> Work(b[k]) == Work(a[k])
    ensures TotalWork(a) == TotalWork(b)
  {
    if a != [] {
      assert forall k {:trigger b[1..][k]} :: 0 <= k < |a| - 1 ==> Work(b[1..][k]) == Work(b[k + 1]);
      SameWork(a[1..], b[1..]);
    }
  }

  lemma WakeupWork(procs: seq<Proc>, ch: Channel, on: bool)
    ensures TotalWork(Wakeup(procs, ch, on)) == TotalWork(procs)
  {
    SameWork(procs, Wakeup(procs, ch, on));
  }

  function Rank(procs: seq<Proc>): nat { TotalWork(procs) * (2 * |procs| + 1) + TotalWake(procs) }

  lemma {:induction false} Multiples(x: nat, y: nat, m: nat)
    requires y < x
    ensures y * m + m <= x * m
  {
    if y + 1 < x {
      Multiples(x - 1, y, m);
    }
    assert x * m == (x - 1) * m + m;
  }

  lemma Lower(a: seq<Proc>, b: seq<Proc>)
    requires |a| == |b|
    requires TotalWork(b) < TotalWork(a) || (TotalWork(b) == TotalWork(a) && TotalWake(b) < TotalWake(a))
    ensures Rank(b) < Rank(a)
  {
    hide TotalWork, TotalWake;
    WakeBound(b);
    if TotalWork(b) < TotalWork(a) {
      Multiples(TotalWork(a), TotalWork(b), 2 * |a| + 1);
    }
  }

  /** Each step of a process in a call brings the system nearer to rest. */
  lemma StepRank(s: State, t: Step)
    requires Enabled(s, t) && !t.Call?
    ensures Rank(Do(s, t).procs) < Rank(s.procs)
  {
    hide TotalWork, TotalWake, Rank, Wakeup;
    var procs, pc, s' := s.procs, s.procs[t.p], Do(s, t);
    match t
    case EndRead(p) =>
      var caught := Upto(s.ino, pc.n) == |s.ino.data|;
      var one := Wakeup(procs, OnWrite, caught && s.ino.iwrite);
      var two := Wakeup(one, OnLock, s.ino.want);
      WakeupWork(procs, OnWrite, caught && s.ino.iwrite);
      WakeupWork(one, OnLock, s.ino.want);
      StillThere(procs, OnWrite, caught && s.ino.iwrite, p);
      StillThere(one, OnLock, s.ino.want, p);
      SetOne(two, p, Idle);
      Lower(procs, s'.procs);
    case EndWrite(p) =>
      var one := Wakeup(procs, OnLock, s.ino.want);
      var two := Wakeup(one, OnRead, s.ino.iread);
      WakeupWork(procs, OnLock, s.ino.want);
      WakeupWork(one, OnRead, s.ino.iread);
      StillThere(procs, OnLock, s.ino.want, p);
      StillThere(one, OnRead, s.ino.iread, p);
      SetOne(two, p, Want(Write(pc.call, pc.rest)));
      Lower(procs, s'.procs);
    case Lock(p) =>
      if !s.ino.locked && pc.op.Close? {
        var one := Wakeup(procs, OnWrite, true);
        WakeupWork(procs, OnWrite, true);
        WakeupWork(one, OnRead, true);
        StillThere(procs, OnWrite, true, p);
        StillThere(one, OnRead, true, p);
        SetOne(Wakeup(one, OnRead, true), p, Idle);
      } else {
        SetOne(procs, p, s'.procs[p]);
      }
      Lower(procs, s'.procs);
    case Fail(p) =>
      SetOne(procs, p, s'.procs[p]);
      Lower(procs, s'.procs);
    case Put(p, _) =>
      SetOne(procs, p, s'.procs[p]);
      Lower(procs, s'.procs);
    case Signal(p) =>
      SetOne(procs, p, s'.procs[p]);
      Lower(procs, s'.procs);
  }

  /** A process that runs is not changed by a wakeup. */
  lemma StillThere(procs: seq<Proc>, ch: Channel, on: bool, p: nat)
    requires p < |procs| && Runs(procs[p])
    ensures Wakeup(procs, ch, on)[p] == procs[p]
  {
  }

  /** With no new calls, every run is short. */
  lemma {:induction false} RunRank(s: State, ts: seq<Step>)
    requires CanRun(s, ts) && forall k :: 0 <= k < |ts| ==> !ts[k].Call?
    ensures |ts| <= Rank(s.procs)
    decreases |ts|
  {
    hide Enabled, Do, Rank;
    if ts != [] {
      StepRank(s, ts[0]);
      RunRank(Do(s, ts[0]), ts[1..]);
    }
  }

  function NextStep(s: State, p: nat): (t: Step)
    requires p < |s.procs| && Runs(s.procs[p])
    ensures Enabled(s, t) && t.p == p && !t.Call? && !t.Signal?
  {
    var pc := s.procs[p];
    if pc.Want? then Lock(p)
    else if pc.Reading? then EndRead(p)
    else if pc.chunk == [] then EndWrite(p)
    else Put(p, |pc.chunk|)
  }

  /** Left to themselves, the calls under way end, or wait for a call of the other side. */
  lemma {:induction false} Settles(s: State) returns (ts: seq<Step>)
    requires Inv(s)
    ensures CanRun(s, ts) && |ts| <= Rank(s.procs)
    ensures forall k :: 0 <= k < |ts| ==> !ts[k].Call? && !ts[k].Signal?
    ensures var r := Run(s, ts);
            (forall p :: 0 <= p < |r.procs| ==> r.procs[p].Idle?) || EmptyWait(r) || FullWait(r)
    decreases Rank(s.procs)
  {
    hide Inv, Enabled, Do, Rank, EmptyWait, FullWait;
    if p :| 0 <= p < |s.procs| && Runs(s.procs[p]) {
      var t := NextStep(s, p);
      StepInv(s, t);
      StepRank(s, t);
      var rest := Settles(Do(s, t));
      ts := [t] + rest;
      assert ts[1..] == rest;
    } else {
      Progress(s);
      ts := [];
    }
  }
}
