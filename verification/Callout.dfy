/**
 * Callouts: timeout, and the callout part of clock, in usr/sys/sys/clock.c.
 * The array holds for each callout the ticks it is due after the one before.
 */
module Callout {
  import opened Sets

  const NCALL := 20

  /** struct callo; a func of 0 ends the list. */
  datatype Callo = Callo(time: int, func: int, arg: int)

  /** A callout: the number of its request, the tick it is due at, and what is to be called. */
  datatype Due = Due(id: int, at: int, func: int, arg: int)

  /** A request to timeout. */
  datatype Request = Request(func: int, arg: int, tim: int)

  /** Overrun: the code would write one entry past the array. */
  datatype Outcome = Ok | Panic | Overrun

  ghost predicate Earlier(x: Due, y: Due) { x.at < y.at || (x.at == y.at && x.id < y.id) }

  ghost predicate InOrder(s: seq<Due>) { forall i, j :: 0 <= i < j < |s| ==> Earlier(s[i], s[j]) }

  // ---- the array ----

  /** The list in the array is e, counted from tick base. */
  ghost predicate Rep(c: seq<Callo>, base: int, e: seq<Due>) {
    && |e| < |c| && c[|e|].func == 0
    && forall k :: 0 <= k < |e| ==> RepAt(c, base, e, k)
  }

  ghost predicate RepAt(c: seq<Callo>, base: int, e: seq<Due>, k: int)
    requires 0 <= k < |e| && k < |c|
  {
    && c[k].func == e[k].func != 0 && c[k].arg == e[k].arg
    && c[k].time == e[k].at - (if k == 0 then base else e[k - 1].at)
  }

  /** Where a callout due at d goes: after all that are due by then. */
  ghost predicate IsPlace(e: seq<Due>, d: int, p: int) {
    && 0 <= p <= |e|
    && (forall k :: 0 <= k < p ==> e[k].at <= d)
    && (p < |e| ==> e[p].at > d)
  }

  ghost function Insert(e: seq<Due>, p: int, x: Due): seq<Due>
    requires 0 <= p <= |e|
  {
    e[..p] + [x] + e[p..]
  }

  lemma InsertAt(e: seq<Due>, p: int, x: Due)
    requires 0 <= p <= |e|
    ensures |Insert(e, p, x)| == |e| + 1
    ensures forall k :: 0 <= k <= |e| ==> Insert(e, p, x)[k] == if k < p then e[k] else if k == p then x else e[k - 1]
  {
  }

  /** The array after the shift of timeout: the entry at p counts from the new one, and its place is free. */
  ghost predicate Shifted(c: seq<Callo>, c': seq<Callo>, p: int, n: int, t: int) {
    && |c'| == |c| && 0 <= p <= n && n + 1 < |c|
    && (forall k :: 0 <= k < p ==> c'[k] == c[k])
    && c'[p + 1] == c[p].(time := c[p].time - t)
    && (forall k :: p + 1 < k <= n + 1 ==> c'[k] == c[k - 1])
  }

  /** A shift and a new entry insert the callout in the list. */
  lemma ShiftedRep(c: seq<Callo>, c': seq<Callo>, base: int, e: seq<Due>, p: int, t: int, x: Due)
    requires Rep(c, base, e) && Shifted(c, c', p, |e|, t) && x.func != 0
    requires t == x.at - (if p == 0 then base else e[p - 1].at)
    ensures Rep(c'[p := Callo(t, x.func, x.arg)], base, Insert(e, p, x))
  {
    var d, e' := c'[p := Callo(t, x.func, x.arg)], Insert(e, p, x);
    InsertAt(e, p, x);
    hide Insert;
    forall k | 0 <= k < |e'|
      ensures RepAt(d, base, e', k)
    {
      if k < p {
        assert RepAt(c, base, e, k);
      } else if k > p {
        assert RepAt(c, base, e, k - 1);
      }
    }
  }

  // ---- the account of requests ----

  /**
   * due has all requests, by number. What was called, in the order of the
   * calls, and what is pending, are together all requests, by deadline and
   * then by order of request.
   */
  ghost predicate Ledger(now: int, fired: seq<Due>, pend: seq<Due>, due: seq<Due>) {
    && InOrder(fired + pend)
    && |fired| + |pend| == |due|
    && (forall k :: 0 <= k < |fired + pend| ==> Known(due, (fired + pend)[k]))
    && (forall k :: 0 <= k < |fired| ==> fired[k].at <= now)
    && (forall k :: 0 <= k < |pend| ==> pend[k].at >= now)
  }

  ghost predicate Known(due: seq<Due>, x: Due) { 0 <= x.id < |due| && due[x.id] == x }

  /** A new request takes its place among the pending. */
  lemma LedgerInsert(now: int, fired: seq<Due>, pend: seq<Due>, due: seq<Due>, p: int, x: Due)
    requires Ledger(now, fired, pend, due) && IsPlace(pend, x.at, p) && x.id == |due| && x.at > now
    ensures Ledger(now, fired, Insert(pend, p, x), due + [x])
  {
    InsertAt(pend, p, x);
    hide Insert;
    var s, s', q := fired + pend, fired + Insert(pend, p, x), |fired| + p;
    assert forall k :: 0 <= k < |s'| ==> s'[k] == if k < q then s[k] else if k == q then x else s[k - 1];
    forall k | 0 <= k < |s|
      ensures s[k].id < x.id && (k < q ==> s[k].at <= x.at) && (k >= q ==> s[k].at > x.at)
    {
      assert Known(due, s[k]);
      if |fired| <= k {
        PlaceSplits(pend, x.at, p, fired, k - |fired|);
      } else {
        assert s[k] == fired[k];
      }
    }
    forall k | 0 <= k < |s'|
      ensures Known(due + [x], s'[k])
    {
      if k != q {
        assert Known(due, if k < q then s[k] else s[k - 1]);
      }
    }
    forall i, j | 0 <= i < j < |s'|
      ensures Earlier(s'[i], s'[j])
    {
      if i != q && j != q {
        assert Earlier(s[if i < q then i else i - 1], s[if j < q then j else j - 1]);
      } else if j == q {
        assert s'[i] == s[i];
      } else {
        assert s'[j] == s[j - 1];
      }
    }
    forall k | 0 <= k < |Insert(pend, p, x)|
      ensures Insert(pend, p, x)[k].at >= now
    {
    }
  }

  lemma PlaceSplits(pend: seq<Due>, d: int, p: int, fired: seq<Due>, k: int)
    requires InOrder(fired + pend) && IsPlace(pend, d, p) && 0 <= k < |pend|
    ensures k < p ==> pend[k].at <= d
    ensures k >= p ==> pend[k].at > d
  {
    if k > p {
      assert Earlier((fired + pend)[|fired| + p], (fired + pend)[|fired| + k]);
    }
  }

  /** The first pending callout is called. */
  lemma LedgerFire(now: int, fired: seq<Due>, pend: seq<Due>, due: seq<Due>)
    requires Ledger(now, fired, pend, due) && pend != [] && pend[0].at == now
    ensures Ledger(now, fired + [pend[0]], pend[1..], due)
  {
    assert fired + [pend[0]] + pend[1..] == fired + pend;
  }

  /** A tick passes when nothing is due. */
  lemma LedgerTick(now: int, fired: seq<Due>, pend: seq<Due>, due: seq<Due>)
    requires Ledger(now, fired, pend, due) && (pend != [] ==> pend[0].at > now)
    ensures Ledger(now + 1, fired, pend, due)
  {
    forall k | 0 <= k < |pend|
      ensures pend[k].at >= now + 1
    {
      if k > 0 {
        assert Earlier((fired + pend)[|fired|], (fired + pend)[|fired| + k]);
      }
    }
  }

  // ---- what the account means ----

  lemma {:induction false} IdsOnce(s: seq<Due>, due: seq<Due>, id: int)
    requires InOrder(s) && (forall k :: 0 <= k < |s| ==> Known(due, s[k]))
    ensures forall i, j :: 0 <= i < j < |s| ==> s[i].id != s[j].id
  {
    forall i, j | 0 <= i < j < |s|
      ensures s[i].id != s[j].id
    {
      assert Earlier(s[i], s[j]);
      assert Known(due, s[i]) && Known(due, s[j]);
    }
  }

  ghost function Ids(s: seq<Due>): set<int> { set k | 0 <= k < |s| :: s[k].id }

  lemma {:induction false} IdsCount(s: seq<Due>)
    requires forall i, j :: 0 <= i < j < |s| ==> s[i].id != s[j].id
    ensures |Ids(s)| == |s|
  {
    if s != [] {
      var k := |s| - 1;
      var t := s[..k];
      IdsCount(t);
      assert Ids(s) == Ids(t) + {s[k].id} by {
        forall x | x in Ids(s)
          ensures x in Ids(t) + {s[k].id}
        {
          var j :| 0 <= j < |s| && s[j].id == x;
          assert j < k ==> t[j].id == x;
        }
        forall x | x in Ids(t)
          ensures x in Ids(s)
        {
          var j :| 0 <= j < |t| && t[j].id == x;
          assert s[j].id == x;
        }
      }
      assert s[k].id !in Ids(t);
    }
  }

  /** Every request is somewhere in the account. */
  lemma Present(s: seq<Due>, due: seq<Due>, id: int) returns (k: int)
    requires InOrder(s) && |s| == |due| && (forall k :: 0 <= k < |s| ==> Known(due, s[k])) && 0 <= id < |due|
    ensures 0 <= k < |s| && s[k].id == id
  {
    IdsOnce(s, due, id);
    IdsCount(s);
    forall x | x in Ids(s)
      ensures x in Upto(|due|)
    {
      var k :| 0 <= k < |s| && s[k].id == x;
      assert Known(due, s[k]);
    }
    Smaller(Ids(s), Upto(|due|));
    assert id in Ids(s);
    k :| 0 <= k < |s| && s[k].id == id;
  }

  /**
   * Every request whose deadline has passed was called exactly once, every
   * other is pending, and calls were made by deadline and, of two with the
   * same deadline, in the order of request, with what was asked for.
   */
  lemma CalledOnce(now: int, fired: seq<Due>, pend: seq<Due>, due: seq<Due>, id: int)
    requires Ledger(now, fired, pend, due) && (pend != [] ==> pend[0].at > now) && 0 <= id < |due|
    ensures due[id].at <= now <==> exists k :: 0 <= k < |fired| && fired[k].id == id
    ensures forall k :: 0 <= k < |fired| && fired[k].id == id ==> fired[k] == due[id]
    ensures forall j, k :: 0 <= j < k < |fired| ==> fired[j].id != fired[k].id && Earlier(fired[j], fired[k])
  {
    var s := fired + pend;
    IdsOnce(s, due, id);
    var k := Present(s, due, id);
    assert Known(due, s[k]);
    hide InOrder, Earlier;
    forall j | 0 <= j < |fired|
      ensures Known(due, fired[j])
    {
      assert s[j] == fired[j];
    }
    OrderPrefix(fired, pend);
    forall i, j | 0 <= i < j < |fired|
      ensures fired[i].id != fired[j].id
    {
      assert s[i] == fired[i] && s[j] == fired[j];
    }
    if k >= |fired| {
      LaterPending(fired, pend, now, k - |fired|);
      assert s[k] == pend[k - |fired|];
    } else {
      assert s[k] == fired[k];
    }
  }

  lemma OrderPrefix(fired: seq<Due>, pend: seq<Due>)
    requires InOrder(fired + pend)
    ensures forall i, j :: 0 <= i < j < |fired| ==> Earlier(fired[i], fired[j])
  {
    forall i, j | 0 <= i < j < |fired|
      ensures Earlier(fired[i], fired[j])
    {
      assert (fired + pend)[i] == fired[i] && (fired + pend)[j] == fired[j];
    }
  }

  lemma LaterPending(fired: seq<Due>, pend: seq<Due>, now: int, k: int)
    requires InOrder(fired + pend) && pend != [] && pend[0].at > now && 0 <= k < |pend|
    ensures pend[k].at > now
  {
    if k > 0 {
      assert Earlier((fired + pend)[|fired|], (fired + pend)[|fired| + k]);
    }
  }

  // ---- what is to happen ----

  /** A call that clock makes. */
  datatype Call = Call(func: int, arg: int)

  function CallsOf(s: seq<Due>): (r: seq<Call>)
    ensures |r| == |s| && forall k :: 0 <= k < |s| ==> r[k] == Call(s[k].func, s[k].arg)
  {
    seq(|s|, k requires 0 <= k < |s| => Call(s[k].func, s[k].arg))
  }

  /** The requests due at tick t, in the order in which they were made. */
  ghost function DueAt(due: seq<Due>, t: int): seq<Due> {
    if due == [] then [] else
    var k := |due| - 1;
    DueAt(due[..k], t) + if due[k].at == t then [due[k]] else []
  }

  /** The account of requests made one after the other at tick now. */
  ghost function Entries(base: int, now: int, rs: seq<Request>): (s: seq<Due>)
    ensures |s| == |rs|
    ensures forall k :: 0 <= k < |rs| ==> s[k] == Due(base + k, now + rs[k].tim, rs[k].func, rs[k].arg)
  {
    seq(|rs|, k requires 0 <= k < |rs| => Due(base + k, now + rs[k].tim, rs[k].func, rs[k].arg))
  }

  function Reaction(rs: seq<seq<Request>>, k: int): seq<Request> { if 0 <= k < |rs| then rs[k] else [] }

  /** The account of what the first n functions called at tick now ask for. */
  ghost function Asked(base: int, now: int, rs: seq<seq<Request>>, n: nat): seq<Due> {
    if n == 0 then [] else
    var s := Asked(base, now, rs, n - 1);
    s + Entries(base + |s|, now, Reaction(rs, n - 1))
  }

  ghost predicate Proper(rs: seq<Request>) { forall k :: 0 <= k < |rs| ==> rs[k].tim >= 1 && rs[k].func != 0 }

  ghost predicate AllProper(rs: seq<seq<Request>>) { forall k :: 0 <= k < |rs| ==> Proper(rs[k]) }

  lemma {:induction false} AskedLater(base: int, now: int, rs: seq<seq<Request>>, n: nat)
    requires AllProper(rs)
    ensures forall k :: 0 <= k < |Asked(base, now, rs, n)| ==> Asked(base, now, rs, n)[k].at > now
  {
    if n > 0 {
      AskedLater(base, now, rs, n - 1);
      var r := Reaction(rs, n - 1);
      assert Proper(r);
    }
  }

  lemma {:induction false} AskedMore(base: int, now: int, rs: seq<seq<Request>>, n: nat, m: nat)
    requires n <= m
    ensures |Asked(base, now, rs, n)| <= |Asked(base, now, rs, m)|
    decreases m
  {
    if n < m {
      AskedMore(base, now, rs, n, m - 1);
    }
  }

  lemma {:induction false} DueAtIn(due: seq<Due>, t: int, x: Due)
    ensures x in DueAt(due, t) <==> x in due && x.at == t
  {
    if due != [] {
      var k := |due| - 1;
      DueAtIn(due[..k], t, x);
      assert due == due[..k] + [due[k]];
    }
  }

  /** By number, and numbered from 0. */
  ghost predicate Numbered(due: seq<Due>) { forall k :: 0 <= k < |due| ==> due[k].id == k }

  lemma {:induction false} DueAtOrder(due: seq<Due>, t: int)
    requires Numbered(due)
    ensures InOrder(DueAt(due, t))
  {
    if due != [] {
      var k := |due| - 1;
      DueAtOrder(due[..k], t);
      var s := DueAt(due[..k], t);
      forall i | 0 <= i < |s|
        ensures s[i].id < k && s[i].at == t
      {
        assert s[i] in s;
        DueAtIn(due[..k], t, s[i]);
        var j :| 0 <= j < k && due[..k][j] == s[i];
        assert due[j].id == j;
      }
    }
  }

  /** Two lists in order with the same callouts are the same list. */
  lemma {:induction false} SameOrder(s: seq<Due>, u: seq<Due>)
    requires InOrder(s) && InOrder(u) && forall x :: x in s <==> x in u
    ensures s == u
  {
    if s == [] {
      SomeMember(u);
    } else {
      assert s[0] in u;
      assert u[0] in s;
      FirstLeast(s, u[0]);
      FirstLeast(u, s[0]);
      forall x
        ensures x in s[1..] <==> x in u[1..]
      {
        TailIn(s, x);
        TailIn(u, x);
      }
      SameOrder(s[1..], u[1..]);
      assert s == [s[0]] + s[1..] && u == [u[0]] + u[1..];
    }
  }

  lemma SomeMember(u: seq<Due>)
    ensures u == [] || u[0] in u
  {
  }

  lemma FirstLeast(s: seq<Due>, x: Due)
    requires InOrder(s) && x in s
    ensures x == s[0] || Earlier(s[0], x)
  {
    var k :| 0 <= k < |s| && s[k] == x;
  }

  lemma TailIn(s: seq<Due>, x: Due)
    requires InOrder(s) && s != []
    ensures x in s[1..] <==> x in s && x != s[0]
  {
    assert s == [s[0]] + s[1..];
    if x in s[1..] {
      var k :| 1 <= k < |s| && s[k] == x;
      assert Earlier(s[0], s[k]);
    }
  }

  lemma LedgerNumbered(now: int, fired: seq<Due>, pend: seq<Due>, due: seq<Due>)
    requires Ledger(now, fired, pend, due)
    ensures Numbered(due) && forall x :: x in due <==> x in fired + pend
  {
    var s := fired + pend;
    forall k | 0 <= k < |due|
      ensures due[k].id == k && due[k] in s
    {
      var j := Present(s, due, k);
      assert Known(due, s[j]);
    }
    forall x | x in s
      ensures x in due
    {
      var j :| 0 <= j < |s| && s[j] == x;
      assert Known(due, s[j]);
    }
  }

  /** The first n of the pending are all that are due now. */
  ghost predicate Batch(pend: seq<Due>, now: int, n: int) {
    && 0 <= n <= |pend|
    && (forall k :: 0 <= k < n ==> pend[k].at == now)
    && (forall k :: n <= k < |pend| ==> pend[k].at > now)
  }

  lemma {:induction false} BatchSize(fired: seq<Due>, pend: seq<Due>, now: int) returns (n: int)
    requires InOrder(fired + pend) && forall k :: 0 <= k < |pend| ==> pend[k].at >= now
    ensures Batch(pend, now, n)
  {
    n := 0;
    while n < |pend| && pend[n].at == now
      invariant 0 <= n <= |pend| && forall k :: 0 <= k < n ==> pend[k].at == now
    {
      n := n + 1;
    }
    forall k | n <= k < |pend|
      ensures pend[k].at > now
    {
      if k > n {
        assert Earlier((fired + pend)[|fired| + n], (fired + pend)[|fired| + k]);
      }
    }
  }

  /** What is due at tick now is the front of what is pending. */
  lemma DueIsBatch(now: int, fired: seq<Due>, pend: seq<Due>, due: seq<Due>)
    requires Ledger(now, fired, pend, due) && forall k :: 0 <= k < |fired| ==> fired[k].at < now
    ensures var b := DueAt(due, now); b <= pend && Batch(pend, now, |b|)
  {
    var n := BatchSize(fired, pend, now);
    LedgerNumbered(now, fired, pend, due);
    DueAtOrder(due, now);
    FrontOrder(fired, pend, n);
    forall x
      ensures x in DueAt(due, now) <==> x in pend[..n]
    {
      DueAtIn(due, now, x);
      FrontIn(fired, pend, now, n, x);
    }
    SameOrder(DueAt(due, now), pend[..n]);
  }

  lemma FrontOrder(fired: seq<Due>, pend: seq<Due>, n: int)
    requires InOrder(fired + pend) && 0 <= n <= |pend|
    ensures InOrder(pend[..n])
  {
    forall i, j | 0 <= i < j < n
      ensures Earlier(pend[i], pend[j])
    {
      assert Earlier((fired + pend)[|fired| + i], (fired + pend)[|fired| + j]);
    }
  }

  lemma FrontIn(fired: seq<Due>, pend: seq<Due>, now: int, n: int, x: Due)
    requires Batch(pend, now, n) && forall k :: 0 <= k < |fired| ==> fired[k].at < now
    ensures x in pend[..n] <==> x in fired + pend && x.at == now
  {
    if x in pend[..n] {
      var k :| 0 <= k < n && pend[..n][k] == x;
      assert (fired + pend)[|fired| + k] == x;
    }
    if x in fired + pend && x.at == now {
      var k :| 0 <= k < |fired + pend| && (fired + pend)[k] == x;
      assert k >= |fired| && pend[k - |fired|] == x;
      assert pend[..n][k - |fired|] == x;
    }
  }

  // ---- the program ----

  class Callouts {
    const c: array<Callo>
    /** Ticks since the start. */
    ghost var now: int
    /** Called in this tick, but still in the array. */
    ghost var done: seq<Due>
    ghost var pend: seq<Due>
    ghost var fired: seq<Due>
    ghost var due: seq<Due>

    /** The state, also while callouts are being called. */
    ghost predicate Midway()
      reads this, c
    {
      && c.Length == NCALL
      && Rep(c[..], now, done + pend)
      && (forall k :: 0 <= k < |done| ==> done[k].at == now)
      && Ledger(now, fired, pend, due)
    }

    /** The state between ticks. */
    ghost predicate Valid()
      reads this, c
    {
      Midway() && done == [] && (pend != [] ==> pend[0].at > now)
    }

    constructor ()
      ensures Valid() && fresh(c) && now == 0 && due == fired == []
    {
      c := new Callo[NCALL](i => Callo(0, 0, 0));
      now, done, pend, fired, due := 0, [], [], [], [];
    }

    /** The first loop of timeout: the place in the list, and the ticks from the entry before it. */
    method Place(tim: int) returns (p: int, t: int)
      requires Midway() && tim >= 1
      ensures IsPlace(done + pend, now + tim, p) && p >= |done|
      ensures t == now + tim - (if p == 0 then now else (done + pend)[p - 1].at)
    {
      hide Ledger;
      ghost var e := done + pend;
      p, t := 0, tim;
      while c[p].func != 0 && (assert RepAt(c[..], now, e, p); c[p].time) <= t
        invariant 0 <= p <= |e|
        invariant forall k :: 0 <= k < p ==> e[k].at <= now + tim
        invariant t == now + tim - (if p == 0 then now else e[p - 1].at)
        decreases |e| - p
      {
        t := t - c[p].time;
        p := p + 1;
      }
      if p < |e| {
        assert RepAt(c[..], now, e, p);
      }
    }

    /** The last two loops of timeout, up to the new entry. */
    method Shift(p: int, t: int, ghost e: seq<Due>) returns (ok: bool)
      requires c.Length == NCALL && Rep(c[..], now, e) && 0 <= p <= |e|
      modifies c
      ensures ok <==> |e| + 1 < NCALL
      ensures ok ==> Shifted(old(c[..]), c[..], p, |e|, t)
      ensures !ok ==> forall k :: 0 <= k < NCALL && k != p ==> c[k] == old(c[k])
    {
      c[p] := c[p].(time := c[p].time - t);
      var p2 := p;
      ghost var c1 := c[..];
      while c[p2].func != 0
        invariant p <= p2 <= |e|
        decreases |e| - p2
      {
        assert RepAt(old(c[..]), now, e, p2);
        p2 := p2 + 1;
      }
      assert p2 < |e| ==> RepAt(old(c[..]), now, e, p2);
      ok := p2 + 1 < NCALL;
      if ok {
        while p2 >= p
          invariant p - 1 <= p2 <= |e|
          invariant forall k :: 0 <= k <= p2 ==> c[k] == c1[k]
          invariant forall k :: p2 + 1 < k <= |e| + 1 ==> c[k] == c1[k - 1]
        {
          c[p2 + 1] := c[p2];
          p2 := p2 - 1;
        }
      }
    }

    /**
     * timeout. It panics when the place is the last of the array; when the
     * array is full and the place is not the last, the shift would run one
     * entry past the end of it.
     */
    method Timeout(r: Request) returns (o: Outcome, ghost p: int)
      requires Midway() && r.tim >= 1 && r.func != 0
      modifies this`pend, this`due, c
      ensures IsPlace(old(pend), now + r.tim, p)
      ensures o == Ok <==> old(|done| + |pend|) < NCALL - 1
      ensures o == Panic <==> old(|done| + |pend|) == NCALL - 1 && p == |old(pend)|
      ensures o == Ok ==> Midway() && due == old(due) + [Due(|old(due)|, now + r.tim, r.func, r.arg)]
      ensures o == Ok ==> pend == Insert(old(pend), p, Due(|old(due)|, now + r.tim, r.func, r.arg))
    {
      hide Ledger, Rep, InOrder, Insert, IsPlace, Shifted;
      ghost var e, x := done + pend, Due(|due|, now + r.tim, r.func, r.arg);
      var q, t := Place(r.tim);
      p := q - |done|;
      PlaceInPend(now, done, pend, fired, due, x.at, q);
      RepLength(c[..], now, e);
      if q >= NCALL - 1 {
        return Panic, p;
      }
      ghost var c0 := c[..];
      var ok := Shift(q, t, e);
      if !ok {
        return Overrun, p;
      }
      ShiftedRep(c0, c[..], now, e, q, t, x);
      ghost var c1 := c[..];
      c[q] := Callo(t, r.func, r.arg);
      assert c[..] == c1[q := Callo(t, x.func, x.arg)];
      LedgerInsert(now, fired, pend, due, p, x);
      InsertRight(done, pend, q, x);
      pend := Insert(pend, p, x);
      due := due + [x];
      o := Ok;
    }

    static lemma RepLength(c: seq<Callo>, base: int, e: seq<Due>)
      requires Rep(c, base, e)
      ensures |e| < |c|
    {
    }

    static lemma PlaceInPend(now: int, done: seq<Due>, pend: seq<Due>, fired: seq<Due>, due: seq<Due>, d: int, p: int)
      requires IsPlace(done + pend, d, p) && p >= |done| && Ledger(now, fired, pend, due)
      ensures IsPlace(pend, d, p - |done|) && p <= |done| + |pend|
    {
      var e := done + pend;
      forall k | 0 <= k < p - |done|
        ensures pend[k].at <= d
      {
        assert e[|done| + k] == pend[k];
      }
      if p < |e| {
        assert e[p] == pend[p - |done|];
      }
    }

    static lemma InsertRight(done: seq<Due>, pend: seq<Due>, p: int, x: Due)
      requires |done| <= p <= |done| + |pend|
      ensures Insert(done + pend, p, x) == done + Insert(pend, p - |done|, x)
    {
    }

    /**
     * What a callout function does: it may ask for more callouts, which are
     * registered, exactly if there is room for all.
     */
    method React(rs: seq<Request>, ghost n: int) returns (o: Outcome)
      requires Midway() && Proper(rs) && Batch(pend, now, n)
      modifies this`pend, this`due, c
      ensures o == Ok <==> old(|done| + |pend|) + |rs| < NCALL
      ensures o == Ok ==> Midway() && due == old(due) + Entries(|old(due)|, now, rs)
      ensures o == Ok ==> |pend| == |old(pend)| + |rs| && Batch(pend, now, n) && pend[..n] == old(pend)[..n]
    {
      hide Ledger, InOrder, Insert, Batch, IsPlace, Rep;
      o := Ok;
      ghost var due0, pend0 := due, pend;
      RepLength(c[..], now, done + pend);
      BatchFronts(pend, now, n);
      assert due0 + Entries(|due0|, now, rs[..0]) == due0;
      for k := 0 to |rs|
        invariant Midway() && o == Ok && due == due0 + Entries(|due0|, now, rs[..k])
        invariant |pend| == |pend0| + k && |done| + |pend| < NCALL && Batch(pend, now, n) && Fronts(pend, pend0, n)
      {
        ghost var p, pend1;
        pend1 := pend;
        o, p := Timeout(rs[k]);
        if o != Ok {
          return;
        }
        BatchInsert(pend1, now, n, p, Due(|due0| + k, now + rs[k].tim, rs[k].func, rs[k].arg));
        EntriesMore(due0, now, rs, k);
      }
      assert rs[..|rs|] == rs;
    }

    /** The first n are the same. */
    static ghost predicate Fronts(s: seq<Due>, t: seq<Due>, n: int) { 0 <= n <= |s| && n <= |t| && s[..n] == t[..n] }

    static lemma BatchFronts(pend: seq<Due>, now: int, n: int)
      requires Batch(pend, now, n)
      ensures Fronts(pend, pend, n)
    {
    }

    /** A later callout goes behind all that are due. */
    static lemma BatchInsert(pend: seq<Due>, now: int, n: int, p: int, x: Due)
      requires Batch(pend, now, n) && IsPlace(pend, x.at, p) && x.at > now
      ensures |Insert(pend, p, x)| == |pend| + 1 && Batch(Insert(pend, p, x), now, n) && Fronts(Insert(pend, p, x), pend, n)
    {
      InsertAt(pend, p, x);
      hide Insert;
      assert p >= n;
      assert Insert(pend, p, x)[..n] == pend[..n];
    }

    static lemma EntriesMore(due: seq<Due>, now: int, rs: seq<Request>, k: int)
      requires 0 <= k < |rs|
      ensures due + Entries(|due|, now, rs[..k]) + [Due(|due| + k, now + rs[k].tim, rs[k].func, rs[k].arg)] ==
              due + Entries(|due|, now, rs[..k + 1])
    {
      assert Entries(|due|, now, rs[..k]) + [Due(|due| + k, now + rs[k].tim, rs[k].func, rs[k].arg)] ==
             Entries(|due|, now, rs[..k + 1]);
    }

    /** Where the account is when p of the batch b have been called, from due0, n0 pending and fired0 on. */
    static ghost predicate Calling(now: int, done: seq<Due>, pend: seq<Due>, fired: seq<Due>, due: seq<Due>, calls: seq<Call>,
                                   rs: seq<seq<Request>>, p: int, b: seq<Due>, due0: seq<Due>, n0: int, fired0: seq<Due>)
    {
      && 0 <= p <= |b| && done == b[..p] && calls == CallsOf(done) && fired == fired0 + done
      && Batch(pend, now, |b| - p) && pend[..|b| - p] == b[p..]
      && due == due0 + Asked(|due0|, now, rs, p) && |pend| + p == n0 + |Asked(|due0|, now, rs, p)| < NCALL
    }

    static lemma CallingStart(now: int, pend: seq<Due>, fired: seq<Due>, due: seq<Due>, rs: seq<seq<Request>>, b: seq<Due>)
      requires b <= pend && Batch(pend, now, |b|) && |pend| < NCALL
      ensures Calling(now, [], pend, fired, due, [], rs, 0, b, due, |pend|, fired)
    {
    }

    /** The next of the batch has been called, and not reacted yet. */
    static lemma CallingNext(now: int, done: seq<Due>, pend: seq<Due>, fired: seq<Due>, due: seq<Due>, calls: seq<Call>,
                             rs: seq<seq<Request>>, p: int, b: seq<Due>, due0: seq<Due>, n0: int, fired0: seq<Due>)
      requires Calling(now, done, pend, fired, due, calls, rs, p, b, due0, n0, fired0) && pend != [] && pend[0].at == now
      ensures p < |b| && pend[0] == b[p] && done + [pend[0]] == b[..p + 1]
      ensures Batch(pend[1..], now, |b| - p - 1) && pend[1..][..|b| - p - 1] == b[p + 1..]
      ensures fired + [pend[0]] == fired0 + b[..p + 1] && calls + [Call(pend[0].func, pend[0].arg)] == CallsOf(b[..p + 1])
      ensures var s := Asked(|due0|, now, rs, p);
              due == due0 + s && |pend| + p == n0 + |s| && |done| == p
    {
      hide Asked;
      BatchNext(pend, now, b, p);
    }

    static lemma CallingEnd(now: int, done: seq<Due>, pend: seq<Due>, fired: seq<Due>, due: seq<Due>, calls: seq<Call>,
                            rs: seq<seq<Request>>, p: int, b: seq<Due>, due0: seq<Due>, n0: int, fired0: seq<Due>)
      requires Calling(now, done, pend, fired, due, calls, rs, p, b, due0, n0, fired0) && (pend != [] ==> pend[0].at > now)
      ensures p == |b| && done == b && calls == CallsOf(b) && fired == fired0 + b
      ensures due == due0 + Asked(|due0|, now, rs, |b|) && |pend| + |b| == n0 + |Asked(|due0|, now, rs, |b|)| < NCALL
    {
      hide Asked;
      BatchEnd(pend, now, b, p);
    }

    /** One turn of the loop of clock that calls what is due: the function is called and reacts. */
    method CallOne(p1: int, rs: seq<seq<Request>>, calls: seq<Call>, ghost b: seq<Due>, ghost due0: seq<Due>, ghost n0: int,
                   ghost fired0: seq<Due>)
      returns (o: Outcome, calls': seq<Call>)
      requires Midway() && p1 == |done| < NCALL && AllProper(rs) && c[p1].func != 0 && c[p1].time <= 0
      requires Calling(now, done, pend, fired, due, calls, rs, p1, b, due0, n0, fired0)
      modifies this`pend, this`due, this`done, this`fired, c
      ensures p1 < |b| && (o == Ok <==> n0 + |Asked(|due0|, now, rs, p1 + 1)| < NCALL)
      ensures o == Ok ==> Midway() && |done| == p1 + 1 && Calling(now, done, pend, fired, due, calls', rs, p1 + 1, b, due0, n0, fired0)
    {
      hide Ledger, InOrder, Proper, Batch, IsPlace, Rep, Asked;
      FirstDue(c[..], now, done, pend, fired, due);
      LedgerFire(now, fired, pend, due);
      CallingNext(now, done, pend, fired, due, calls, rs, p1, b, due0, n0, fired0);
      FirstFunc(c[..], now, done, pend);
      AskedNext(due0, now, rs, p1);
      ReactionProper(rs, p1);
      assert done + [pend[0]] + pend[1..] == done + pend;
      calls' := calls + [Call(c[p1].func, c[p1].arg)];
      fired, done, pend := fired + [pend[0]], done + [pend[0]], pend[1..];
      o := React(if p1 < |rs| then rs[p1] else [], |b| - p1 - 1);
    }

    static lemma FirstFunc(c: seq<Callo>, now: int, done: seq<Due>, pend: seq<Due>)
      requires Rep(c, now, done + pend) && pend != []
      ensures |done| < |c| && c[|done|].func == pend[0].func && c[|done|].arg == pend[0].arg
    {
      assert RepAt(c, now, done + pend, |done|);
    }

    /**
     * The loop of clock that calls what is due, and does so in order. rs[k] is
     * what the k-th function called asks for, and it is registered; exactly if
     * there is room for all of it beside what is in the array.
     */
    method CallDue(rs: seq<seq<Request>>) returns (p1: int, o: Outcome, calls: seq<Call>)
      requires Midway() && done == [] && AllProper(rs) && forall k :: 0 <= k < |fired| ==> fired[k].at < now
      modifies this`pend, this`due, this`done, this`fired, c
      ensures var b := DueAt(old(due), now);
              var more := Asked(|old(due)|, now, rs, |b|);
              && (o == Ok <==> |old(pend)| + |more| < NCALL)
              && (o == Ok ==> calls == CallsOf(b) && done == b && due == old(due) + more && |pend| + |b| == |old(pend)| + |more|)
      ensures o == Ok ==> Midway() && p1 == |done| && (pend != [] ==> pend[0].at > now) && fired == old(fired) + done
    {
      hide Ledger, InOrder, AllProper, Batch, Rep, DueAt, Asked, Calling;
      ghost var due0, n0, fired0, b := due, |pend|, fired, DueAt(due, now);
      DueIsBatch(now, fired, pend, due);
      p1, o, calls := 0, Ok, [];
      RepLength(c[..], now, done + pend);
      CallingStart(now, pend, fired, due, rs, b);
      while c[p1].func != 0 && c[p1].time <= 0
        invariant Midway() && p1 == |done| && o == Ok && p1 < NCALL
        invariant Calling(now, done, pend, fired, due, calls, rs, p1, b, due0, n0, fired0)
        decreases NCALL - p1
      {
        o, calls := CallOne(p1, rs, calls, b, due0, n0, fired0);
        if o != Ok {
          AskedMore(|due0|, now, rs, p1 + 1, |b|);
          return;
        }
        p1 := p1 + 1;
        RepLength(c[..], now, done + pend);
      }
      NoneDue(c[..], now, done, pend);
      CallingEnd(now, done, pend, fired, due, calls, rs, p1, b, due0, n0, fired0);
    }

    static lemma AskedNone(base: int, now: int, rs: seq<seq<Request>>)
      ensures Asked(base, now, rs, 0) == []
    {
    }

    static lemma AskedNext(due: seq<Due>, now: int, rs: seq<seq<Request>>, n: nat)
      ensures var s := Asked(|due|, now, rs, n);
              && Asked(|due|, now, rs, n + 1) == s + Entries(|due + s|, now, Reaction(rs, n))
              && |Asked(|due|, now, rs, n + 1)| == |s| + |Reaction(rs, n)|
              && due + Asked(|due|, now, rs, n + 1) == due + s + Entries(|due + s|, now, Reaction(rs, n))
    {
      var s := Asked(|due|, now, rs, n);
      assert due + (s + Entries(|due + s|, now, Reaction(rs, n))) == due + s + Entries(|due + s|, now, Reaction(rs, n));
    }

    static lemma ReactionProper(rs: seq<seq<Request>>, k: int)
      requires AllProper(rs) && 0 <= k
      ensures Proper(Reaction(rs, k))
    {
    }

    /** The next of the batch is called. */
    static lemma BatchNext(pend: seq<Due>, now: int, b: seq<Due>, p: int)
      requires 0 <= p <= |b| && Batch(pend, now, |b| - p) && pend[..|b| - p] == b[p..] && pend != [] && pend[0].at == now
      ensures p < |b| && pend[0] == b[p] && b[..p] + [pend[0]] == b[..p + 1]
      ensures Batch(pend[1..], now, |b| - p - 1) && pend[1..][..|b| - p - 1] == b[p + 1..]
    {
      assert pend[0] == pend[..|b| - p][0];
      assert pend[1..][..|b| - p - 1] == pend[..|b| - p][1..];
    }

    static lemma BatchEnd(pend: seq<Due>, now: int, b: seq<Due>, p: int)
      requires 0 <= p <= |b| && Batch(pend, now, |b| - p) && (pend != [] ==> pend[0].at > now)
      ensures p == |b| && b[..p] == b
    {
    }

    /** An entry with no ticks left, after those called, is the first pending one and due now. */
    static lemma FirstDue(c: seq<Callo>, now: int, done: seq<Due>, pend: seq<Due>, fired: seq<Due>, due: seq<Due>)
      requires Rep(c, now, done + pend) && (forall k :: 0 <= k < |done| ==> done[k].at == now)
      requires Ledger(now, fired, pend, due) && |done| < |c| && c[|done|].func != 0 && c[|done|].time <= 0
      ensures pend != [] && pend[0].at == now
    {
      var e := done + pend;
      if pend != [] {
        assert RepAt(c, now, e, |done|);
        assert e[|done|] == pend[0];
        assert done != [] ==> e[|done| - 1] == done[|done| - 1];
      }
    }

    static lemma NoneDue(c: seq<Callo>, now: int, done: seq<Due>, pend: seq<Due>)
      requires Rep(c, now, done + pend) && (forall k :: 0 <= k < |done| ==> done[k].at == now)
      requires |done| < |c| && !(c[|done|].func != 0 && c[|done|].time <= 0)
      ensures pend != [] ==> pend[0].at > now
    {
      var e := done + pend;
      if pend != [] {
        assert RepAt(c, now, e, |done|);
        assert e[|done|] == pend[0];
        assert done != [] ==> e[|done| - 1] == done[|done| - 1];
      }
    }

    /** What the last loop of clock has moved: k entries and the function of the next. */
    static ghost predicate Squeezing(c0: seq<Callo>, c: seq<Callo>, p: int, k: int) {
      && |c| == |c0| && 0 <= p && 0 <= k && p + k < |c0|
      && (forall i :: 0 <= i < k ==> c[i] == c0[p + i])
      && c[k].func == c0[p + k].func
      && (forall i :: k < i < |c| ==> c[i] == c0[i])
      && (p == 0 ==> c[k] == c0[k])
    }

    /** One turn of it. */
    static ghost function Moved(c: seq<Callo>, p: int, k: int): seq<Callo>
      requires 0 <= p && 0 <= k && p + k + 1 < |c|
    {
      var d := c[k := Callo(c[p + k].time, c[k].func, c[p + k].arg)];
      d[k + 1 := d[k + 1].(func := d[p + k + 1].func)]
    }

    static lemma SqueezeStart(c: seq<Callo>, p: int)
      requires 0 <= p < |c|
      ensures Squeezing(c, c[0 := c[0].(func := c[p].func)], p, 0)
    {
    }

    static lemma SqueezeFunc(c0: seq<Callo>, c: seq<Callo>, p: int, k: int)
      requires Squeezing(c0, c, p, k)
      ensures |c| == |c0| && 0 <= k < |c| && 0 <= p + k < |c| && c[k].func == c0[p + k].func
      ensures forall i :: 0 <= i < k ==> c[i] == c0[p + i]
    {
    }

    static lemma SqueezeStep(c0: seq<Callo>, c: seq<Callo>, p: int, k: int)
      requires Squeezing(c0, c, p, k) && p + k + 1 < |c0|
      ensures Squeezing(c0, Moved(c, p, k), p, k + 1)
    {
    }

    /** The last loop of clock: what was called is squeezed out of the array. */
    method Squeeze(p: int)
      requires Midway() && p == |done|
      modifies this`done, c
      ensures Midway() && done == []
    {
      hide Ledger, InOrder, Rep, Squeezing;
      ghost var c0, e := c[..], done + pend;
      var p1, p2 := p, 0;
      ghost var k := 0;
      RepFuncs(c0, now, e);
      c[p2] := c[p2].(func := c[p1].func);
      assert c[..] == c0[0 := c0[0].(func := c0[p].func)];
      SqueezeStart(c0, p);
      SqueezeFunc(c0, c[..], p, 0);
      while c[p2].func != 0
        modifies c
        invariant 0 <= k <= |pend| && p1 == p + k && p2 == k && Squeezing(c0, c[..], p, k) && c[k].func == c0[p + k].func
        decreases |pend| - k
      {
        ghost var c1 := c[..];
        assert p + k < |e|;
        SqueezeStep(c0, c1, p, k);
        c[p2] := Callo(c[p1].time, c[p2].func, c[p1].arg);
        p1 := p1 + 1;
        p2 := p2 + 1;
        k := k + 1;
        c[p2] := c[p2].(func := c[p1].func);
        assert c[..] == Moved(c1, p, k - 1);
        SqueezeFunc(c0, c[..], p, k);
      }
      SqueezeFunc(c0, c[..], p, k);
      Squeezed(c0, c[..], now, done, pend);
      done := [];
      assert [] + pend == pend;
    }

    static lemma RepFuncs(c: seq<Callo>, base: int, e: seq<Due>)
      requires Rep(c, base, e)
      ensures |e| < |c| && c[|e|].func == 0 && forall k :: 0 <= k < |e| ==> c[k].func != 0
    {
      forall k | 0 <= k < |e|
        ensures c[k].func != 0
      {
        assert RepAt(c, base, e, k);
      }
    }

    static lemma Squeezed(c: seq<Callo>, c': seq<Callo>, now: int, done: seq<Due>, pend: seq<Due>)
      requires Rep(c, now, done + pend) && |c| == |c'| && (forall i :: 0 <= i < |done| ==> done[i].at == now)
      requires c'[|pend|].func == 0 && forall i :: 0 <= i < |pend| ==> c'[i] == c[|done| + i]
      ensures Rep(c', now, pend)
    {
      var e := done + pend;
      forall i | 0 <= i < |pend|
        ensures RepAt(c', now, pend, i)
      {
        assert RepAt(c, now, e, |done| + i);
        assert e[|done| + i] == pend[i];
        assert i > 0 ==> e[|done| + i - 1] == pend[i - 1];
        assert i == 0 && done != [] ==> e[|done| - 1] == done[|done| - 1];
      }
    }

    /**
     * The callout part of clock: one tick. What is called is what was asked for
     * with this deadline, in the order in which it was asked for; and what the
     * functions called ask for is registered. There is no panic and no overrun
     * exactly if there is room for that beside all that was pending.
     */
    method Tick(rs: seq<seq<Request>>) returns (o: Outcome, calls: seq<Call>)
      requires Valid() && AllProper(rs)
      modifies this, c
      ensures var b := DueAt(old(due), old(now) + 1);
              var more := Asked(|old(due)|, old(now) + 1, rs, |b|);
              && (o == Ok <==> |old(pend)| + |more| < NCALL)
              && (o == Ok ==> calls == CallsOf(b) && fired == old(fired) + b && due == old(due) + more)
      ensures o == Ok ==> Valid() && now == old(now) + 1
    {
      hide Ledger, InOrder, Rep, DueAt, Asked, AllProper;
      LedgerTick(now, fired, pend, due);
      BeforeTick(now, fired, pend, due);
      assert [] + pend == pend;
      FirstEntry(c[..], now, pend);
      RepLength(c[..], now, pend);
      AskedNone(|due|, now + 1, rs);
      assert due + [] == due && fired + [] == fired;
      if c[0].func == 0 {
        NotDue(now + 1, fired, pend, due);
        RepEmpty(c[..], now);
        now := now + 1;
        return Ok, [];
      }
      var p2 := FirstPositive();
      CountDown(c[..], now, pend);
      ghost var c0 := c[..];
      assert p2 == 0;
      c[p2] := c[p2].(time := c[p2].time - 1);
      assert c[..] == c0[0 := c0[0].(time := c0[0].time - 1)];
      now := now + 1;
      o, calls := Ok, [];
      if c[0].time <= 0 {
        var p1;
        p1, o, calls := CallDue(rs);
        if o == Ok {
          Squeeze(p1);
        }
      } else {
        NotDue(now, fired, pend, due);
      }
    }

    static lemma BeforeTick(now: int, fired: seq<Due>, pend: seq<Due>, due: seq<Due>)
      requires Ledger(now, fired, pend, due)
      ensures forall k :: 0 <= k < |fired| ==> fired[k].at < now + 1
    {
    }

    static lemma NotDue(now: int, fired: seq<Due>, pend: seq<Due>, due: seq<Due>)
      requires Ledger(now, fired, pend, due) && (forall k :: 0 <= k < |fired| ==> fired[k].at < now)
      requires pend != [] ==> pend[0].at > now
      ensures DueAt(due, now) == []
    {
      DueIsBatch(now, fired, pend, due);
    }

    /** The loop of clock that looks for the first entry with ticks left. */
    method FirstPositive() returns (p2: int)
      requires Midway() && done == []
      ensures 0 <= p2 <= |pend| && (forall k :: 0 <= k < p2 ==> c[k].time <= 0) && (p2 < |pend| ==> c[p2].time > 0)
    {
      hide Ledger, InOrder;
      assert [] + pend == pend;
      RepFuncs(c[..], now, pend);
      p2 := 0;
      while c[p2].time <= 0 && c[p2].func != 0
        invariant 0 <= p2 <= |pend| && forall k :: 0 <= k < p2 ==> c[k].time <= 0
        decreases |pend| - p2
      {
        p2 := p2 + 1;
      }
    }

    static lemma FirstEntry(c: seq<Callo>, now: int, pend: seq<Due>)
      requires Rep(c, now, pend)
      ensures |c| > 0 && (c[0].func == 0 <==> pend == [])
      ensures pend != [] ==> c[0].time == pend[0].at - now
    {
      assert pend != [] ==> RepAt(c, now, pend, 0);
    }

    static lemma RepEmpty(c: seq<Callo>, now: int)
      requires Rep(c, now, [])
      ensures Rep(c, now + 1, [])
    {
    }

    static lemma CountDown(c: seq<Callo>, now: int, pend: seq<Due>)
      requires Rep(c, now, pend) && pend != []
      ensures Rep(c[0 := c[0].(time := c[0].time - 1)], now + 1, pend)
    {
      var c', base := c[0 := c[0].(time := c[0].time - 1)], now + 1;
      forall k | 0 <= k < |pend|
        ensures RepAt(c', base, pend, k)
      {
        assert RepAt(c, now, pend, k);
      }
    }
  }

  // ---- runs ----

  /** timeout is called, or a tick passes; rs[k] is what the k-th function called at it asks for. */
  datatype Event = Ask(r: Request) | Pass(rs: seq<seq<Request>>)

  ghost predicate GoodEvent(e: Event) {
    match e
    case Ask(r) => r.tim >= 1 && r.func != 0
    case Pass(rs) => AllProper(rs)
  }

  /** The tick, all requests so far, and the calls that were made. */
  datatype Account = Account(now: int, due: seq<Due>, fired: seq<Due>)

  /** What is to happen at an event: requests are noted, and at a tick all are called that are due at it. */
  ghost function Step(w: Account, e: Event): Account {
    match e
    case Ask(r) => w.(due := w.due + [Due(|w.due|, w.now + r.tim, r.func, r.arg)])
    case Pass(rs) =>
      var b := DueAt(w.due, w.now + 1);
      Account(w.now + 1, w.due + Asked(|w.due|, w.now + 1, rs, |b|), w.fired + b)
  }

  ghost function After(es: seq<Event>): Account {
    if es == [] then Account(0, [], []) else Step(After(es[..|es| - 1]), es[|es| - 1])
  }

  /** There is never more in the array than it holds; what is called at a tick leaves it at the end of the tick. */
  ghost predicate Fits(es: seq<Event>) {
    es == [] ||
    var w := After(es[..|es| - 1]);
    Fits(es[..|es| - 1]) && |Step(w, es[|es| - 1]).due| - |w.fired| < NCALL
  }

  lemma {:induction false} FitsLess(es: seq<Event>, k: int)
    requires Fits(es) && 0 <= k <= |es|
    ensures Fits(es[..k])
    decreases |es|
  {
    if k < |es| {
      assert es[..|es| - 1][..k] == es[..k];
      FitsLess(es[..|es| - 1], k);
    } else {
      assert es[..k] == es;
    }
  }

  lemma RunStart(es: seq<Event>)
    ensures After(es[..0]) == Account(0, [], []) && Fits(es[..0]) && CallsOf([]) == []
  {
  }

  lemma RunNext(es: seq<Event>, i: int)
    requires 0 <= i < |es|
    ensures After(es[..i + 1]) == Step(After(es[..i]), es[i])
    ensures Fits(es[..i + 1]) <==> Fits(es[..i]) && |Step(After(es[..i]), es[i]).due| - |After(es[..i]).fired| < NCALL
  {
    assert es[..i + 1][..i] == es[..i];
  }

  lemma LedgerSize(now: int, fired: seq<Due>, pend: seq<Due>, due: seq<Due>)
    requires Ledger(now, fired, pend, due)
    ensures |fired| + |pend| == |due|
  {
  }

  lemma InsertFirst(pend: seq<Due>, p: int, x: Due, now: int)
    requires 0 <= p <= |pend| && x.at > now && (pend != [] ==> pend[0].at > now)
    ensures Insert(pend, p, x)[0].at > now
  {
    InsertAt(pend, p, x);
  }

  lemma NumberedMore(due: seq<Due>, now: int, rs: seq<Request>)
    requires Numbered(due)
    ensures Numbered(due + Entries(|due|, now, rs))
  {
  }

  lemma {:induction false} AskedNumbered(due: seq<Due>, now: int, rs: seq<seq<Request>>, n: nat)
    requires Numbered(due)
    ensures Numbered(due + Asked(|due|, now, rs, n))
  {
    hide Numbered, Entries;
    if n == 0 {
      assert due + [] == due;
    } else {
      AskedNumbered(due, now, rs, n - 1);
      Callouts.AskedNext(due, now, rs, n - 1);
      NumberedMore(due + Asked(|due|, now, rs, n - 1), now, Reaction(rs, n - 1));
    }
  }

  /** What is to have happened: all requests whose tick has come were called, in the order of their ticks and then of the requests, and no others. */
  ghost predicate Meant(w: Account) {
    && Numbered(w.due) && InOrder(w.fired)
    && forall x :: x in w.fired <==> x in w.due && x.at <= w.now
  }

  lemma MeantAsk(w: Account, r: Request)
    requires Meant(w) && r.tim >= 1
    ensures Meant(Step(w, Ask(r)))
  {
  }

  lemma MeantPass(w: Account, rs: seq<seq<Request>>)
    requires Meant(w) && AllProper(rs)
    ensures Meant(Step(w, Pass(rs)))
  {
    var t := w.now + 1;
    var b := DueAt(w.due, t);
    AskedNumbered(w.due, t, rs, |b|);
    AskedLater(|w.due|, t, rs, |b|);
    DueAtOrder(w.due, t);
    forall x
      ensures x in b <==> x in w.due && x.at == t
    {
      DueAtIn(w.due, t, x);
    }
    hide DueAt, Asked, Numbered;
    JoinOrder(w.fired, b, t);
  }

  lemma JoinOrder(s: seq<Due>, b: seq<Due>, t: int)
    requires InOrder(s) && InOrder(b) && (forall x :: x in s ==> x.at < t) && forall x :: x in b ==> x.at == t
    ensures InOrder(s + b)
  {
    forall i, j | 0 <= i < j < |s + b|
      ensures Earlier((s + b)[i], (s + b)[j])
    {
      if i < |s| <= j {
        assert s[i] in s && b[j - |s|] in b;
      }
    }
  }

  /** The calls of a run are what was meant. */
  lemma {:induction false} RunMeant(es: seq<Event>)
    requires forall k :: 0 <= k < |es| ==> GoodEvent(es[k])
    ensures Meant(After(es))
  {
    hide Meant;
    if es == [] {
      MeantNone();
    } else {
      var k := |es| - 1;
      RunMeant(es[..k]);
      assert GoodEvent(es[k]);
      match es[k]
      case Ask(r) => MeantAsk(After(es[..k]), r);
      case Pass(rs) => MeantPass(After(es[..k]), rs);
    }
  }

  lemma MeantNone()
    ensures Meant(Account(0, [], []))
  {
  }

  /** One event of a run: it is what is to happen, exactly when the array has room. */
  method OneEvent(t: Callouts, e: Event) returns (o: Outcome, calls: seq<Call>)
    requires t.Valid() && GoodEvent(e)
    modifies t, t.c
    ensures var w := Account(old(t.now), old(t.due), old(t.fired));
            && (o == Ok <==> |Step(w, e).due| - |w.fired| < NCALL)
            && (o == Ok ==> t.Valid() && Account(t.now, t.due, t.fired) == Step(w, e) && CallsOf(w.fired) + calls == CallsOf(t.fired))
  {
    hide DueAt, Asked, AllProper, Ledger, Rep;
    LedgerSize(t.now, t.fired, t.pend, t.due);
    calls := [];
    match e {
      case Ask(r) =>
        ghost var p;
        ghost var pend, x := t.pend, Due(|t.due|, t.now + r.tim, r.func, r.arg);
        o, p := t.Timeout(r);
        if o == Ok {
          InsertFirst(pend, p, x, t.now);
        }
      case Pass(rs) =>
        o, calls := t.Tick(rs);
    }
  }

  /** In every run the calls are those that are to happen, unless there is a panic or an overrun, exactly when the array is too short. */
  method Run(es: seq<Event>) returns (ok: bool, calls: seq<Call>)
    requires forall k :: 0 <= k < |es| ==> GoodEvent(es[k])
    ensures ok <==> Fits(es)
    ensures ok ==> calls == CallsOf(After(es).fired)
  {
    hide After, Fits, Step, GoodEvent, Ledger, Rep;
    var t := new Callouts();
    calls := [];
    RunStart(es);
    for i := 0 to |es|
      invariant t.Valid() && fresh(t) && fresh(t.c)
      invariant After(es[..i]) == Account(t.now, t.due, t.fired) && Fits(es[..i]) && calls == CallsOf(t.fired)
    {
      RunNext(es, i);
      var o, more := OneEvent(t, es[i]);
      if o != Ok {
        if Fits(es) {
          FitsLess(es, i + 1);
        }
        return false, [];
      }
      calls := calls + more;
    }
    assert es[..|es|] == es;
    ok := true;
  }
}
