/**
 * The buffer cache of usr/sys/dev/bio.c as a step system. The kernel is not
 * preempted between sleeps, so each stretch of code between sleeps is one
 * step; the disk driver is a queue of requests that complete in order, at
 * any time.
 */
module Bio {

  const NODEV := -1

  /** A block: a device and a block number. */
  datatype Key = Key(dev: int, blk: int)

  /**
   * A buffer header with the flags BUSY, DONE, DELWRI, ASYNC, AGE and READ.
   * inio: a driver has it. touched: its holder has changed the data since
   * they were last read or written. The contents of a block are one value.
   */
  datatype Buf = Buf(key: Key, data: int, busy: bool, done: bool, delwri: bool, async: bool, age: bool,
                     read: bool, inio: bool, touched: bool)

  /**
   * avail is the list of available buffers, queue the driver's. logical is
   * the plain disk: for each block, what was last written to it. spoilt has
   * the blocks of which a buffer was released changed, and which were not
   * written since.
   */
  datatype State = State(bufs: seq<Buf>, avail: seq<int>, queue: seq<int>, disk: map<Key, int>, logical: map<Key, int>,
                         spoilt: set<Key>)

  function At(m: map<Key, int>, k: Key): int { if k in m then m[k] else 0 }

  // ---- the invariant ----

  ghost predicate Distinct(s: seq<int>) { forall i, j :: 0 <= i < j < |s| ==> s[i] != s[j] }

  /** A buffer is on the available list exactly when it is not busy. */
  ghost predicate Lists(s: State) {
    && Distinct(s.avail) && Distinct(s.queue)
    && (forall i :: i in s.avail <==> 0 <= i < |s.bufs| && !s.bufs[i].busy)
    && (forall i :: i in s.queue <==> 0 <= i < |s.bufs| && s.bufs[i].inio)
  }

  /** At most one buffer holds a block. */
  ghost predicate Unique(s: State) {
    forall i, j :: 0 <= i < j < |s.bufs| && s.bufs[i].key == s.bufs[j].key ==> s.bufs[i].key.dev == NODEV
  }

  /** What the flags of a buffer say about its data, the disk and the plain disk. */
  ghost predicate Coherent(b: Buf, disk: map<Key, int>, logical: map<Key, int>, spoilt: set<Key>) {
    && (b.inio ==> b.busy && !b.done && !b.delwri && !b.touched && b.key.dev != NODEV)
    && (b.touched ==> b.busy)
    && (b.key.dev == NODEV ==> !b.delwri)
    && (b.delwri ==> b.done)
    && (b.key.dev != NODEV && b.key !in spoilt ==>
          && (b.done && !b.touched ==> b.data == At(logical, b.key))
          && (b.inio && !b.read ==> b.data == At(logical, b.key))
          && (!b.delwri && !(b.inio && !b.read) ==> At(disk, b.key) == At(logical, b.key)))
  }

  ghost predicate Held(s: State, k: Key) { exists i :: 0 <= i < |s.bufs| && s.bufs[i].key == k }

  ghost predicate Inv(s: State) {
    && Lists(s) && Unique(s)
    && (forall i :: 0 <= i < |s.bufs| ==> Coherent(s.bufs[i], s.disk, s.logical, s.spoilt))
    && (forall k: Key :: k.dev != NODEV && k !in s.spoilt && !Held(s, k) ==> At(s.disk, k) == At(s.logical, k))
  }

  // ---- the steps ----

  function Without(s: seq<int>, x: int): seq<int> {
    if s == [] then [] else if s[0] == x then s[1..] else [s[0]] + Without(s[1..], x)
  }

  /** notavail */
  function Take(s: State, i: int): State
    requires 0 <= i < |s.bufs|
  {
    s.(bufs := s.bufs[i := s.bufs[i].(busy := true)], avail := Without(s.avail, i))
  }

  /** The data of the buffer are not those of its block, read or written. */
  predicate Unwritten(b: Buf) { b.touched && b.done && b.key.dev != NODEV }

  /** brelse: aged buffers go to the head of the list, others to the tail. */
  function Release(s: State, i: int): State
    requires 0 <= i < |s.bufs|
  {
    var b := s.bufs[i];
    s.(bufs := s.bufs[i := b.(busy := false, async := false, age := false, touched := false)],
       avail := if b.age then [i] + s.avail else s.avail + [i],
       spoilt := if Unwritten(b) then s.spoilt + {b.key} else s.spoilt)
  }

  /** getblk or geteblk with a buffer to reassign at the head of the list. */
  function Reassign(s: State, k: Key): State
    requires s.avail != [] && 0 <= s.avail[0] < |s.bufs|
  {
    var i := s.avail[0];
    s.(bufs := s.bufs[i := Buf(k, s.bufs[i].data, true, false, false, false, false, false, false, false)],
       avail := s.avail[1..])
  }

  /** The part of bread or breada that starts a read. */
  function StartRead(s: State, i: int, async: bool): State
    requires 0 <= i < |s.bufs|
  {
    s.(bufs := s.bufs[i := s.bufs[i].(read := true, async := async, inio := true, touched := false)], queue := s.queue + [i])
  }

  /** A call that writes: what is in the buffer becomes the contents of the block. */
  function Note(s: State, i: int): State
    requires 0 <= i < |s.bufs|
  {
    var b := s.bufs[i];
    s.(logical := s.logical[b.key := b.data], spoilt := s.spoilt - {b.key})
  }

  /** bwrite up to the wait, or bawrite. */
  function StartWrite(s: State, i: int, async: bool): State
    requires 0 <= i < |s.bufs|
  {
    var b := s.bufs[i];
    s.(bufs := s.bufs[i := b.(read := false, done := false, delwri := false, age := async && b.delwri,
                              async := async, inio := true, touched := false)],
       queue := s.queue + [i])
  }

  /** What bdwrite does before the release. */
  function Mark(s: State, i: int): State
    requires 0 <= i < |s.bufs|
  {
    Note(s.(bufs := s.bufs[i := s.bufs[i].(delwri := true, done := true, touched := false)]), i)
  }

  /** bdwrite: the contents of the block change now, the disk when the buffer is written. */
  function Delay(s: State, i: int): State
    requires 0 <= i < |s.bufs|
  {
    Release(Mark(s, i), i)
  }

  /** The driver finishes its first request, and iodone. */
  function Complete(s: State): State
    requires s.queue != [] && 0 <= s.queue[0] < |s.bufs|
  {
    var i := s.queue[0];
    var b := s.bufs[i];
    var t := s.(bufs := s.bufs[i := b.(data := if b.read then At(s.disk, b.key) else b.data, done := true, inio := false)],
                queue := s.queue[1..], disk := if b.read then s.disk else s.disk[b.key := b.data]);
    if b.async then Release(t, i) else t
  }

  /** The holder of a buffer changes its data. */
  function Modify(s: State, i: int, data: int): State
    requires 0 <= i < |s.bufs|
  {
    s.(bufs := s.bufs[i := s.bufs[i].(data := data, touched := true)])
  }

  /** Buffer i is held by a process and not in the hands of a driver. */
  predicate Mine(s: State, i: int) { 0 <= i < |s.bufs| && s.bufs[i].busy && !s.bufs[i].inio }

  /** What a step does to the plain disk. */
  datatype Event = Wrote(key: Key, data: int) | Quiet {
    predicate Writes(k: Key) { this.Wrote? && key == k }
  }

  datatype Action =
    | GetHit(i: int)                 // getblk finds the block in a buffer that is not busy
    | GetMiss(key: Key)              // getblk or geteblk reassigns the head of the list
    | Flush(i: int, key: Key)        // getblk, geteblk or bflush starts to write a delayed buffer
    | Read(i: int, async: bool)      // bread or breada starts a read
    | Write(i: int, async: bool)     // bwrite or bawrite
    | DelayedWrite(i: int)           // bdwrite
    | Brelse(i: int)
    | Change(i: int, data: int)
    | Iodone

  /** When a step may be taken: the tests in the code, and that only its holder works on a buffer. */
  ghost predicate Enabled(s: State, a: Action) {
    match a
    case GetHit(i) => 0 <= i < |s.bufs| && !s.bufs[i].busy && s.bufs[i].key.dev != NODEV
    case GetMiss(k) => s.avail != [] && 0 <= s.avail[0] < |s.bufs| && !s.bufs[s.avail[0]].delwri
                       && (k.dev == NODEV || !Held(s, k))
    case Flush(i, k) => 0 <= i < |s.bufs| && !s.bufs[i].busy && s.bufs[i].delwri && s.bufs[i].key == k
    case Read(i, _) => Mine(s, i) && !s.bufs[i].done && s.bufs[i].key.dev != NODEV
    case Write(i, _) => Mine(s, i) && s.bufs[i].key.dev != NODEV
    case DelayedWrite(i) => Mine(s, i) && s.bufs[i].key.dev != NODEV
    case Brelse(i) => Mine(s, i)
    case Change(i, _) => Mine(s, i)
    case Iodone => s.queue != [] && 0 <= s.queue[0] < |s.bufs|
  }

  ghost function Next(s: State, a: Action): State
    requires Enabled(s, a)
  {
    match a
    case GetHit(i) => Take(s, i)
    case GetMiss(k) => Reassign(s, k)
    case Flush(i, _) => StartWrite(Take(s, i), i, true)
    case Read(i, async) => StartRead(s, i, async)
    case Write(i, async) => StartWrite(Note(s, i), i, async)
    case DelayedWrite(i) => Delay(s, i)
    case Brelse(i) => Release(s, i)
    case Change(i, d) => Modify(s, i, d)
    case Iodone => Complete(s)
  }

  /** Only the three write calls write. */
  ghost function EventOf(s: State, a: Action): Event
    requires Enabled(s, a)
  {
    match a
    case Write(i, _) => Wrote(s.bufs[i].key, s.bufs[i].data)
    case DelayedWrite(i) => Wrote(s.bufs[i].key, s.bufs[i].data)
    case _ => Quiet
  }

  // ---- every step keeps the invariant ----

  lemma {:induction false} WithoutFacts(s: seq<int>, x: int)
    requires Distinct(s)
    ensures Distinct(Without(s, x))
    ensures forall y :: y in Without(s, x) <==> y in s && y != x
  {
    if s != [] {
      var t := s[1..];
      assert s == [s[0]] + t;
      assert s[0] !in t;
      WithoutFacts(t, x);
      assert s[0] != x ==> s[0] !in Without(t, x);
    }
  }

  lemma AppendFacts(s: seq<int>, x: int)
    requires Distinct(s) && x !in s
    ensures Distinct(s + [x]) && Distinct([x] + s)
    ensures forall y :: y in s + [x] <==> y in s || y == x
    ensures forall y :: y in [x] + s <==> y in s || y == x
  {
  }

  lemma TailFacts(s: seq<int>)
    requires Distinct(s) && s != []
    ensures Distinct(s[1..])
    ensures forall y :: y in s[1..] <==> y in s && y != s[0]
  {
    assert s == [s[0]] + s[1..];
  }

  /** A step that changes one buffer, but not which block it holds, and the block it holds. */
  lemma OneChanged(s: State, s': State, i: int)
    requires Inv(s) && Lists(s') && |s'.bufs| == |s.bufs| && 0 <= i < |s.bufs|
    requires forall j :: 0 <= j < |s.bufs| && j != i ==> s'.bufs[j] == s.bufs[j]
    requires s'.bufs[i].key == s.bufs[i].key && Coherent(s'.bufs[i], s'.disk, s'.logical, s'.spoilt)
    requires forall k: Key :: k != s.bufs[i].key && k.dev != NODEV ==>
               At(s'.disk, k) == At(s.disk, k) && At(s'.logical, k) == At(s.logical, k) && (k in s'.spoilt <==> k in s.spoilt)
    ensures Inv(s')
  {
    hide Lists;
    forall j | 0 <= j < |s'.bufs|
      ensures Coherent(s'.bufs[j], s'.disk, s'.logical, s'.spoilt)
    {
      if j != i {
        assert s.bufs[j].key == s.bufs[i].key ==> s.bufs[i].key.dev == NODEV;
        assert Coherent(s.bufs[j], s.disk, s.logical, s.spoilt);
      }
    }
    forall k: Key | k.dev != NODEV && k !in s'.spoilt && !Held(s', k)
      ensures At(s'.disk, k) == At(s'.logical, k)
    {
      assert s'.bufs[i].key != k;
      assert forall j :: 0 <= j < |s.bufs| ==> s'.bufs[j].key == s.bufs[j].key;
    }
  }

  lemma TakeInv(s: State, i: int)
    requires Inv(s) && 0 <= i < |s.bufs| && !s.bufs[i].busy
    ensures Inv(Take(s, i))
  {
    WithoutFacts(s.avail, i);
    assert Coherent(s.bufs[i], s.disk, s.logical, s.spoilt);
    OneChanged(s, Take(s, i), i);
  }

  lemma ReleaseInv(s: State, i: int)
    requires Inv(s) && Mine(s, i)
    ensures Inv(Release(s, i))
  {
    AppendFacts(s.avail, i);
    assert Coherent(s.bufs[i], s.disk, s.logical, s.spoilt);
    OneChanged(s, Release(s, i), i);
  }

  lemma StartReadInv(s: State, i: int, async: bool)
    requires Inv(s) && Enabled(s, Read(i, async))
    ensures Inv(StartRead(s, i, async))
  {
    AppendFacts(s.queue, i);
    assert Coherent(s.bufs[i], s.disk, s.logical, s.spoilt);
    OneChanged(s, StartRead(s, i, async), i);
  }

  lemma StartWriteInv(s: State, i: int, async: bool)
    requires Inv(s) && Enabled(s, Write(i, async))
    ensures Inv(StartWrite(Note(s, i), i, async))
  {
    AppendFacts(s.queue, i);
    assert Coherent(s.bufs[i], s.disk, s.logical, s.spoilt);
    OneChanged(s, StartWrite(Note(s, i), i, async), i);
  }

  /** The write of a delayed buffer; its data have been noted before. */
  lemma StartFlushInv(s: State, i: int, async: bool)
    requires Inv(s) && Enabled(s, Write(i, async)) && s.bufs[i].delwri && !s.bufs[i].touched
    ensures Inv(StartWrite(s, i, async))
  {
    AppendFacts(s.queue, i);
    assert Coherent(s.bufs[i], s.disk, s.logical, s.spoilt);
    OneChanged(s, StartWrite(s, i, async), i);
  }

  lemma MarkInv(s: State, i: int)
    requires Inv(s) && Enabled(s, DelayedWrite(i))
    ensures Inv(Mark(s, i))
  {
    assert Coherent(s.bufs[i], s.disk, s.logical, s.spoilt);
    OneChanged(s, Mark(s, i), i);
  }

  lemma DelayInv(s: State, i: int)
    requires Inv(s) && Enabled(s, DelayedWrite(i))
    ensures Inv(Delay(s, i))
  {
    MarkInv(s, i);
    ReleaseInv(Mark(s, i), i);
  }

  lemma CompleteInv(s: State)
    requires Inv(s) && s.queue != []
    ensures 0 <= s.queue[0] < |s.bufs| && Inv(Complete(s))
  {
    var i := s.queue[0];
    assert i in s.queue;
    TailFacts(s.queue);
    var b := s.bufs[i];
    assert Coherent(b, s.disk, s.logical, s.spoilt);
    var t := s.(bufs := s.bufs[i := b.(data := if b.read then At(s.disk, b.key) else b.data, done := true, inio := false)],
                queue := s.queue[1..], disk := if b.read then s.disk else s.disk[b.key := b.data]);
    OneChanged(s, t, i);
    if b.async {
      ReleaseInv(t, i);
    }
  }

  lemma ModifyInv(s: State, i: int, data: int)
    requires Inv(s) && Mine(s, i)
    ensures Inv(Modify(s, i, data))
  {
    assert Coherent(s.bufs[i], s.disk, s.logical, s.spoilt);
    OneChanged(s, Modify(s, i, data), i);
  }

  /** A clean buffer may be forgotten, and its block read again from the disk. */
  lemma ReassignInv(s: State, k: Key)
    requires Inv(s) && Enabled(s, GetMiss(k))
    ensures Inv(Reassign(s, k))
  {
    var i, t := s.avail[0], Reassign(s, k);
    assert i in s.avail;
    TailFacts(s.avail);
    var old_ := s.bufs[i].key;
    assert Coherent(s.bufs[i], s.disk, s.logical, s.spoilt);
    forall j | 0 <= j < |t.bufs|
      ensures Coherent(t.bufs[j], t.disk, t.logical, t.spoilt)
    {
      assert j != i ==> Coherent(s.bufs[j], s.disk, s.logical, s.spoilt);
    }
    forall c: Key | c.dev != NODEV && c !in t.spoilt && !Held(t, c)
      ensures At(t.disk, c) == At(t.logical, c)
    {
      if Held(s, c) {
        var j :| 0 <= j < |s.bufs| && s.bufs[j].key == c;
        assert j != i ==> t.bufs[j].key == c;
      }
    }
  }

  /** The plain disk after an event. */
  function Apply(logical: map<Key, int>, e: Event): map<Key, int> {
    match e
    case Wrote(k, d) => logical[k := d]
    case Quiet => logical
  }

  /**
   * Every step keeps the invariant; only a write call changes the plain disk;
   * and only the release of a buffer with data never written spoils a block.
   */
  lemma StepInv(s: State, a: Action)
    requires Inv(s) && Enabled(s, a)
    ensures Inv(Next(s, a))
    ensures Next(s, a).logical == Apply(s.logical, EventOf(s, a))
    ensures forall k :: k in Next(s, a).spoilt <==>
              (k in s.spoilt && !EventOf(s, a).Writes(k)) || (a.Brelse? && Unwritten(s.bufs[a.i]) && k == s.bufs[a.i].key)
  {
    hide Inv, Lists, Unique, Held, Coherent;
    match a
    case GetHit(i) => TakeInv(s, i);
    case GetMiss(k) => ReassignInv(s, k);
    case Flush(i, k) =>
      TakeInv(s, i);
      FlushFacts(s, i);
      StartFlushInv(Take(s, i), i, true);
    case Read(i, async) => StartReadInv(s, i, async);
    case Write(i, async) => StartWriteInv(s, i, async);
    case DelayedWrite(i) => DelayInv(s, i);
    case Brelse(i) => ReleaseInv(s, i);
    case Change(i, d) => ModifyInv(s, i, d);
    case Iodone =>
      CompleteInv(s);
      CompleteFacts(s);
  }

  /** A delayed buffer on the list is one for a write. */
  lemma FlushFacts(s: State, i: int)
    requires Inv(s) && 0 <= i < |s.bufs| && !s.bufs[i].busy && s.bufs[i].delwri
    ensures s.bufs[i].key.dev != NODEV && !s.bufs[i].inio && !s.bufs[i].touched
    ensures s.bufs[i].key !in s.spoilt ==> s.bufs[i].data == At(s.logical, s.bufs[i].key)
  {
    assert Coherent(s.bufs[i], s.disk, s.logical, s.spoilt);
  }

  /** What the driver releases has not been changed. */
  lemma CompleteFacts(s: State)
    requires Inv(s) && s.queue != []
    ensures 0 <= s.queue[0] < |s.bufs| && !s.bufs[s.queue[0]].touched
  {
    assert s.queue[0] in s.queue;
    assert Coherent(s.bufs[s.queue[0]], s.disk, s.logical, s.spoilt);
  }

  // ---- runs ----

  /** states is a run of the actions acts. */
  ghost predicate IsRun(states: seq<State>, acts: seq<Action>) {
    && |states| == |acts| + 1
    && forall n :: 0 <= n < |acts| ==> Enabled(states[n], acts[n]) && states[n + 1] == Next(states[n], acts[n])
  }

  /** At the start no buffer holds a block, and all are on the list. */
  ghost predicate Initial(s: State) {
    && (forall i :: 0 <= i < |s.bufs| ==> s.bufs[i] == Buf(Key(NODEV, 0), 0, false, false, false, false, false, false, false, false))
    && |s.avail| == |s.bufs| && (forall i :: 0 <= i < |s.avail| ==> s.avail[i] == i)
    && s.queue == [] && s.logical == s.disk && s.spoilt == {}
  }

  lemma InitialInv(s: State)
    requires Initial(s)
    ensures Inv(s)
  {
    forall i
      ensures i in s.avail <==> 0 <= i < |s.bufs| && !s.bufs[i].busy
    {
      if 0 <= i < |s.bufs| {
        assert s.avail[i] == i;
      }
    }
  }

  /** What a block was last written with in a run, or what was on the disk at the start. */
  ghost function LastWrite(states: seq<State>, acts: seq<Action>, k: Key): int
    requires IsRun(states, acts)
    decreases |acts|
  {
    if acts == [] then At(states[0].disk, k) else
    var n := |acts| - 1;
    assert IsRun(states[..n + 1], acts[..n]);
    match EventOf(states[n], acts[n])
    case Wrote(k', d) => if k' == k then d else LastWrite(states[..n + 1], acts[..n], k)
    case Quiet => LastWrite(states[..n + 1], acts[..n], k)
  }

  /** The last write call for block k, if any, came after every release of a buffer for it with data never written. */
  ghost predicate Sound(states: seq<State>, acts: seq<Action>, k: Key)
    requires IsRun(states, acts)
    decreases |acts|
  {
    acts == [] ||
    var n := |acts| - 1;
    assert IsRun(states[..n + 1], acts[..n]);
    var a := acts[n];
    EventOf(states[n], a).Writes(k)
    || (!(a.Brelse? && Unwritten(states[n].bufs[a.i]) && states[n].bufs[a.i].key == k) && Sound(states[..n + 1], acts[..n], k))
  }

  lemma {:induction false} RunInv(states: seq<State>, acts: seq<Action>, k: Key)
    requires IsRun(states, acts) && Initial(states[0])
    ensures var s := states[|acts|];
            Inv(s) && At(s.logical, k) == LastWrite(states, acts, k) && (k !in s.spoilt <==> Sound(states, acts, k))
    decreases |acts|
  {
    hide Inv, Initial, Enabled, Next, Unwritten;
    InitialInv(states[0]);
    InitialDisk(states[0]);
    if acts != [] {
      var n := |acts| - 1;
      assert IsRun(states[..n + 1], acts[..n]);
      RunInv(states[..n + 1], acts[..n], k);
      StepInv(states[n], acts[n]);
    }
  }

  lemma InitialDisk(s: State)
    requires Initial(s)
    ensures s.logical == s.disk && s.spoilt == {}
  {
  }

  /**
   * In every run: at most one buffer holds a block; a buffer is on the
   * available list exactly when it is not busy; and a buffer that bread
   * returns, done and not yet changed by its holder, has the data last
   * written to its block, if no buffer for it was released changed since.
   */
  lemma CacheIsDisk(states: seq<State>, acts: seq<Action>)
    requires IsRun(states, acts) && Initial(states[0])
    ensures var s := states[|acts|];
            && Unique(s)
            && (forall i :: i in s.avail <==> 0 <= i < |s.bufs| && !s.bufs[i].busy)
            && (forall i :: 0 <= i < |s.bufs| && s.bufs[i].done && !s.bufs[i].touched && s.bufs[i].key.dev != NODEV
                            && Sound(states, acts, s.bufs[i].key) ==>
                  s.bufs[i].data == LastWrite(states, acts, s.bufs[i].key))
  {
    var s := states[|acts|];
    RunInv(states, acts, Key(0, 0));
    forall i | 0 <= i < |s.bufs| && s.bufs[i].done && !s.bufs[i].touched && s.bufs[i].key.dev != NODEV
               && Sound(states, acts, s.bufs[i].key)
      ensures s.bufs[i].data == LastWrite(states, acts, s.bufs[i].key)
    {
      RunInv(states, acts, s.bufs[i].key);
      assert Coherent(s.bufs[i], s.disk, s.logical, s.spoilt);
    }
  }

  /** When nothing is delayed and no write is under way, the disk itself is up to date: what sync is for. */
  lemma SyncedDisk(states: seq<State>, acts: seq<Action>, k: Key)
    requires IsRun(states, acts) && Initial(states[0]) && k.dev != NODEV && Sound(states, acts, k)
    requires forall i :: 0 <= i < |states[|acts|].bufs| ==> !states[|acts|].bufs[i].delwri && !states[|acts|].bufs[i].inio
    ensures At(states[|acts|].disk, k) == LastWrite(states, acts, k)
  {
    var s := states[|acts|];
    RunInv(states, acts, k);
    if Held(s, k) {
      var i :| 0 <= i < |s.bufs| && s.bufs[i].key == k;
      assert Coherent(s.bufs[i], s.disk, s.logical, s.spoilt);
    }
  }

  /**
   * A holder changes a buffer that is done and releases it without a write:
   * the next holder finds the change, and never what was last written,
   * exactly when the change was one.
   */
  lemma ReleaseIff(s: State, i: int, data: int)
    requires Inv(s) && Mine(s, i) && s.bufs[i].done && !s.bufs[i].touched
    requires s.bufs[i].key.dev != NODEV && s.bufs[i].key !in s.spoilt
    ensures var t := Release(Modify(s, i, data), i);
            && Inv(t) && Enabled(t, GetHit(i))
            && var b := Take(t, i).bufs[i];
               b.done && !b.touched && (b.data == At(t.logical, b.key) <==> data == s.bufs[i].data)
  {
    ModifyInv(s, i, data);
    ReleaseInv(Modify(s, i, data), i);
    assert Coherent(s.bufs[i], s.disk, s.logical, s.spoilt);
  }

  lemma RunMore(states: seq<State>, acts: seq<Action>, a: Action)
    requires IsRun(states, acts) && Enabled(states[|acts|], a)
    ensures IsRun(states + [Next(states[|acts|], a)], acts + [a])
  {
    hide Enabled, Next;
  }

  /** A reader of block k gets buffer 0, which holds a block of zeros; it is done. */
  lemma ReadZeros(s: State, k: Key) returns (states: seq<State>, acts: seq<Action>)
    requires Initial(s) && |s.bufs| > 0 && s.disk == map[] && k.dev != NODEV
    ensures IsRun(states, acts) && states[0] == s
    ensures var t := states[|acts|];
            && |t.bufs| == |s.bufs| && t.bufs[0] == Buf(k, 0, true, true, false, false, false, true, false, false)
            && t.logical == map[] && t.spoilt == {}
  {
    hide LastWrite, Sound, Lists, Unique, Coherent;
    var s1 := Reassign(s, k);
    var s2 := StartRead(s1, 0, false);
    var s3 := Complete(s2);
    states, acts := [s], [];
    assert Next(s, GetMiss(k)) == s1;
    RunMore(states, acts, GetMiss(k));
    states, acts := states + [s1], acts + [GetMiss(k)];
    assert Next(s1, Read(0, false)) == s2;
    RunMore(states, acts, Read(0, false));
    states, acts := states + [s2], acts + [Read(0, false)];
    assert Next(s2, Iodone) == s3;
    RunMore(states, acts, Iodone);
    states, acts := states + [s3], acts + [Iodone];
  }

  /** Such a run: a block of zeros is read, changed to 7, released, and found again as 7, though nothing was written. */
  lemma BadRelease(s: State, k: Key) returns (states: seq<State>, acts: seq<Action>)
    requires Initial(s) && |s.bufs| > 0 && s.disk == map[] && k.dev != NODEV
    ensures IsRun(states, acts) && states[0] == s
    ensures LastWrite(states, acts, k) == 0 && !Sound(states, acts, k)
    ensures var b := Last(states).bufs; b != [] && b[0].key == k && b[0].busy && b[0].done && !b[0].touched && b[0].data == 7
  {
    hide LastWrite, Sound, Inv;
    states, acts := ReadZeros(s, k);
    var s3 := states[|acts|];
    var s4 := Modify(s3, 0, 7);
    var s5 := Release(s4, 0);
    var s6 := Take(s5, 0);
    RunMore(states, acts, Change(0, 7));
    states, acts := states + [s4], acts + [Change(0, 7)];
    RunMore(states, acts, Brelse(0));
    states, acts := states + [s5], acts + [Brelse(0)];
    RunMore(states, acts, GetHit(0));
    states, acts := states + [s6], acts + [GetHit(0)];
    RunInv(states, acts, k);
  }

  function Last(states: seq<State>): State
    requires states != []
  {
    states[|states| - 1]
  }
}
