/**
 * Resource maps: malloc and mfree of usr/sys/sys/malloc.c, and swapfits of
 * usr/sys/sys/slp.c. A map is an array of runs of free units by increasing
 * address, ended by a run of size 0.
 */
module ResourceMap {
  import opened Sets

  /** struct map */
  datatype Run = Run(size: int, addr: int)

  function End(r: Run): int { r.addr + r.size }

  /** Runs are nonempty, by increasing address, and no two touch. Address 0 is not used: it means failure. */
  ghost predicate Canonical(l: seq<Run>) {
    && (forall i :: 0 <= i < |l| ==> l[i].size > 0 && l[i].addr >= 1)
    && (forall i, j :: 0 <= i < j < |l| ==> End(l[i]) < l[j].addr)
  }

  ghost predicate In(r: Run, u: int) { r.addr <= u < End(r) }

  /** Unit u is free. */
  ghost predicate Free(l: seq<Run>, u: int) { exists i :: 0 <= i < |l| && In(l[i], u) }

  /** The units from x to x + size are free. */
  ghost predicate Fits(l: seq<Run>, size: int, x: int) { forall u :: x <= u < x + size ==> Free(l, u) }

  ghost predicate HasRoom(l: seq<Run>, size: int) { exists x :: Fits(l, size, x) }

  /** The array holds the list, and nothing but ends after it. */
  ghost predicate Holds(a: seq<Run>, l: seq<Run>) {
    && |l| < |a|
    && (forall k :: 0 <= k < |l| ==> a[k] == l[k])
    && (forall k :: |l| <= k < |a| ==> a[k].size == 0)
  }

  // ---- the list is determined by the set of free units ----

  lemma AtEnd(l: seq<Run>, i: int)
    requires Canonical(l) && 0 <= i < |l|
    ensures !Free(l, End(l[i])) && !Free(l, l[i].addr - 1)
  {
    forall j | 0 <= j < |l|
      ensures !In(l[j], End(l[i])) && !In(l[j], l[i].addr - 1)
    {
    }
  }

  lemma FreeTail(l: seq<Run>, u: int)
    requires l != []
    ensures Free(l, u) <==> In(l[0], u) || Free(l[1..], u)
  {
    if Free(l, u) {
      var i :| 0 <= i < |l| && In(l[i], u);
      assert i > 0 ==> l[1..][i - 1] == l[i];
    }
    if Free(l[1..], u) {
      var i :| 0 <= i < |l[1..]| && In(l[1..][i], u);
      assert l[i + 1] == l[1..][i];
    }
  }

  lemma CanonicalTail(l: seq<Run>)
    requires Canonical(l) && l != []
    ensures Canonical(l[1..])
    ensures forall u :: Free(l[1..], u) ==> u > End(l[0])
  {
    forall u | Free(l[1..], u)
      ensures u > End(l[0])
    {
      var i :| 0 <= i < |l[1..]| && In(l[1..][i], u);
      assert l[i + 1] == l[1..][i];
    }
  }

  /** The first runs of two maps of the same units are the same. */
  lemma SameHead(l: seq<Run>, m: seq<Run>)
    requires Canonical(l) && Canonical(m) && l != [] && m != []
    requires forall u :: Free(l, u) <==> Free(m, u)
    ensures l[0].addr >= m[0].addr
    ensures l[0].addr == m[0].addr ==> End(l[0]) >= End(m[0])
  {
    var x := l[0].addr;
    assert In(l[0], x);
    assert Free(l, x);
    assert Free(m, x);
    var i :| 0 <= i < |m| && In(m[i], x);
    assert i > 0 ==> m[0].addr < m[i].addr;
    AtEnd(l, 0);
    assert !Free(m, End(l[0]));
    assert !In(m[0], End(l[0]));
  }

  lemma HeadFree(l: seq<Run>)
    requires Canonical(l) && l != []
    ensures Free(l, l[0].addr)
  {
    assert In(l[0], l[0].addr);
  }

  /** A map is the only map of its free units. */
  lemma {:induction false} Unique(l: seq<Run>, m: seq<Run>)
    requires Canonical(l) && Canonical(m)
    requires forall u :: Free(l, u) <==> Free(m, u)
    ensures l == m
    decreases |l|
  {
    if l == [] {
      if m != [] {
        HeadFree(m);
      }
    } else if m == [] {
      HeadFree(l);
    } else {
      SameHead(l, m);
      SameHead(m, l);
      assert l[0] == m[0];
      CanonicalTail(l);
      CanonicalTail(m);
      forall u
        ensures Free(l[1..], u) <==> Free(m[1..], u)
      {
        FreeTail(l, u);
        FreeTail(m, u);
      }
      Unique(l[1..], m[1..]);
      assert l == [l[0]] + l[1..] && m == [m[0]] + m[1..];
    }
  }

  /** Free units in a row are in one run. */
  lemma FitsInRun(l: seq<Run>, size: int, x: int) returns (i: int)
    requires Canonical(l) && size >= 1 && Fits(l, size, x)
    ensures 0 <= i < |l| && l[i].addr <= x && x + size <= End(l[i])
  {
    assert Free(l, x);
    i :| 0 <= i < |l| && In(l[i], x);
    AtEnd(l, i);
  }

  // ---- malloc ----

  ghost function Without(l: seq<Run>, k: int): seq<Run>
    requires 0 <= k < |l|
  {
    l[..k] + l[k + 1..]
  }

  /** The entries after k move down by one: the loops at the end of malloc and in mfree. */
  method Close(a: array<Run>, k: int, ghost l: seq<Run>)
    requires 0 <= k < |l| < a.Length
    requires forall i :: 0 <= i < |l| && i != k ==> a[i] == l[i]
    requires forall i :: |l| <= i < a.Length ==> a[i].size == 0
    requires forall i :: 0 <= i < |l| ==> l[i].size > 0
    modifies a
    ensures Holds(a[..], Without(l, k))
  {
    var b := k + 1;
    a[b - 1] := a[b];
    while a[b - 1].size != 0
      invariant k < b <= |l|
      invariant forall i :: 0 <= i < k ==> a[i] == l[i]
      invariant forall i :: k <= i < b - 1 ==> a[i] == l[i + 1]
      invariant a[b - 1] == a[b]
      invariant forall i :: b <= i < |l| ==> a[i] == l[i]
      invariant forall i :: |l| <= i < a.Length ==> a[i].size == 0
      decreases |l| - b
    {
      b := b + 1;
      a[b - 1] := a[b];
    }
    assert b == |l|;
  }

  /** The first run that is large enough gives its first units. */
  ghost function Taken(l: seq<Run>, k: int, size: int): seq<Run>
    requires 0 <= k < |l|
  {
    if l[k].size == size then Without(l, k) else l[k := Run(l[k].size - size, l[k].addr + size)]
  }

  lemma WithoutAt(l: seq<Run>, k: int)
    requires 0 <= k < |l|
    ensures |Without(l, k)| == |l| - 1
    ensures forall i :: 0 <= i < |l| - 1 ==> Without(l, k)[i] == if i < k then l[i] else l[i + 1]
  {
  }

  lemma FreeWithoutIn(l: seq<Run>, k: int, u: int)
    requires Canonical(l) && 0 <= k < |l| && Free(Without(l, k), u)
    ensures Free(l, u) && !In(l[k], u)
  {
    hide Canonical;
    WithoutAt(l, k);
    var m := Without(l, k);
    hide Without;
    var i :| 0 <= i < |m| && In(m[i], u);
    var j := if i < k then i else i + 1;
    assert m[i] == l[j];
    OneRun(l, j, u);
  }

  lemma FreeWithoutOut(l: seq<Run>, k: int, u: int)
    requires 0 <= k < |l| && Free(l, u) && !In(l[k], u)
    ensures Free(Without(l, k), u)
  {
    hide In;
    var i :| 0 <= i < |l| && In(l[i], u);
    var j := if i < k then i else i - 1;
    assert Without(l, k)[j] == l[i];
  }

  lemma FreeWithout(l: seq<Run>, k: int, u: int)
    requires Canonical(l) && 0 <= k < |l|
    ensures Free(Without(l, k), u) <==> Free(l, u) && !In(l[k], u)
  {
    hide Canonical, Free, In, Without;
    if Free(Without(l, k), u) {
      FreeWithoutIn(l, k, u);
    }
    if Free(l, u) && !In(l[k], u) {
      FreeWithoutOut(l, k, u);
    }
  }

  lemma FreeReplaced(l: seq<Run>, k: int, r: Run, u: int)
    requires 0 <= k < |l|
    requires forall i :: 0 <= i < |l| && i != k && In(l[i], u) ==> !In(l[k], u) && !In(r, u)
    requires In(r, u) ==> In(l[k], u)
    ensures Free(l[k := r], u) <==> Free(l, u) && (In(l[k], u) ==> In(r, u))
  {
    var m := l[k := r];
    if Free(m, u) {
      var i :| 0 <= i < |m| && In(m[i], u);
      assert In(l[i], u);
    }
    if Free(l, u) && (In(l[k], u) ==> In(r, u)) {
      var i :| 0 <= i < |l| && In(l[i], u);
      assert In(m[i], u);
    }
  }

  lemma TakenUnits(l: seq<Run>, k: int, size: int)
    requires Canonical(l) && 0 <= k < |l| && 1 <= size <= l[k].size
    ensures Canonical(Taken(l, k, size))
    ensures forall u :: Free(Taken(l, k, size), u) <==> Free(l, u) && !(l[k].addr <= u < l[k].addr + size)
  {
    var m, r := Taken(l, k, size), Run(l[k].size - size, l[k].addr + size);
    if l[k].size == size {
      assert forall i :: 0 <= i < |m| ==> m[i] == if i < k then l[i] else l[i + 1];
    }
    forall u
      ensures Free(m, u) <==> Free(l, u) && !(l[k].addr <= u < l[k].addr + size)
    {
      if l[k].size == size {
        FreeWithout(l, k, u);
      } else {
        FreeReplaced(l, k, r, u);
        OneRun(l, k, u);
      }
    }
  }

  /** A free unit is in one run only. */
  lemma OneRun(l: seq<Run>, k: int, u: int)
    requires Canonical(l) && 0 <= k < |l|
    ensures In(l[k], u) ==> forall i :: 0 <= i < |l| && In(l[i], u) ==> i == k
  {
  }

  /** The units begin a run. */
  ghost predicate AtRun(l: seq<Run>, size: int, addr: int) { exists i :: 0 <= i < |l| && l[i].addr == addr && size <= l[i].size }

  /** A request for nothing is answered as one for a unit, but takes none. */
  function AtLeast(size: int): int { if size < 1 then 1 else size }

  /** malloc: the lowest units that fit, or 0. */
  method Malloc(a: array<Run>, size: int, ghost l: seq<Run>) returns (addr: int, ghost m: seq<Run>)
    requires Holds(a[..], l) && Canonical(l) && size >= 0
    modifies a
    ensures Holds(a[..], m) && Canonical(m) && |m| <= |l|
    ensures size == 0 ==> m == l
    ensures addr == 0 ==> m == l
    ensures (forall k :: 0 <= k < |l| ==> l[k].addr != 0) ==> (addr == 0 <==> !HasRoom(l, AtLeast(size)))
    ensures addr == 0 && size > 0 ==> !HasRoom(l, size)
    ensures addr != 0 ==> Fits(l, AtLeast(size), addr) && forall x :: x < addr ==> !Fits(l, AtLeast(size), x)
    ensures addr != 0 ==> forall u :: Free(m, u) <==> Free(l, u) && !(addr <= u < addr + size)
    ensures addr != 0 ==> AtRun(l, size, addr)
  {
    hide Fits, Free;
    var k := 0;
    while a[k].size != 0
      invariant 0 <= k <= |l|
      invariant forall i :: 0 <= i < k ==> l[i].size < size
      decreases |l| - k
    {
      if a[k].size >= size {
        addr := a[k].addr;
        Entry(l, size, k);
        FirstFit(l, AtLeast(size), k);
        m := if size == 0 then l else Taken(l, k, size);
        if size > 0 {
          TakenUnits(l, k, size);
        }
        a[k] := Run(a[k].size, a[k].addr + size);
        a[k] := Run(a[k].size - size, a[k].addr);
        if a[k].size == 0 {
          Close(a, k, l);
        }
        return;
      }
      k := k + 1;
    }
    addr, m := 0, l;
    NoEntry(l, size);
    NoFit(l, AtLeast(size));
  }

  lemma Entry(l: seq<Run>, size: int, k: int)
    requires Canonical(l) && 0 <= k < |l| && l[k].size >= size && forall i :: 0 <= i < k ==> l[i].size < size
    ensures l[k].size >= AtLeast(size) && forall i :: 0 <= i < k ==> l[i].size < AtLeast(size)
  {
  }

  lemma NoEntry(l: seq<Run>, size: int)
    requires Canonical(l) && forall i :: 0 <= i < |l| ==> l[i].size < size
    ensures forall i :: 0 <= i < |l| ==> l[i].size < AtLeast(size)
  {
  }

  lemma FirstFit(l: seq<Run>, size: int, k: int)
    requires Canonical(l) && size >= 1 && 0 <= k < |l| && l[k].size >= size
    requires forall i :: 0 <= i < k ==> l[i].size < size
    ensures Fits(l, size, l[k].addr) && forall x :: x < l[k].addr ==> !Fits(l, size, x)
  {
    forall u | l[k].addr <= u < l[k].addr + size
      ensures Free(l, u)
    {
      assert In(l[k], u);
    }
    forall x | x < l[k].addr && Fits(l, size, x)
      ensures false
    {
      var i := FitsInRun(l, size, x);
    }
  }

  lemma NoFit(l: seq<Run>, size: int)
    requires Canonical(l) && size >= 1 && forall i :: 0 <= i < |l| ==> l[i].size < size
    ensures forall x :: !Fits(l, size, x)
  {
    forall x | Fits(l, size, x)
      ensures false
    {
      var i := FitsInRun(l, size, x);
    }
  }

  /** swapfits: whether malloc would succeed. */
  method SwapFits(a: array<Run>, size: int, ghost l: seq<Run>) returns (ok: bool)
    requires Holds(a[..], l) && Canonical(l) && size >= 1
    ensures ok <==> HasRoom(l, size)
  {
    var k := 0;
    while a[k].size != 0
      invariant 0 <= k <= |l| && forall i :: 0 <= i < k ==> l[i].size < size
      decreases |l| - k
    {
      if a[k].size >= size {
        FirstFit(l, size, k);
        return true;
      }
      k := k + 1;
    }
    NoFit(l, size);
    ok := false;
  }

  // ---- mfree ----

  /** How many runs start at or before addr. */
  ghost predicate Before(l: seq<Run>, b: int, addr: int) {
    && 0 <= b <= |l|
    && (forall i :: 0 <= i < b ==> l[i].addr <= addr)
    && (b < |l| ==> addr < l[b].addr)
  }

  /** The first loop of mfree stops there. */
  ghost function Place(l: seq<Run>, addr: int): (b: int)
    ensures 0 <= b <= |l|
  {
    if l == [] || l[0].addr > addr then 0 else Place(l[1..], addr) + 1
  }

  lemma {:induction false} PlaceIs(l: seq<Run>, b: int, addr: int)
    requires Before(l, b, addr)
    ensures Place(l, addr) == b
    decreases |l|
  {
    if l != [] && l[0].addr <= addr {
      assert Before(l[1..], b - 1, addr) by {
        assert forall i :: 0 <= i < |l| - 1 ==> l[1..][i] == l[i + 1];
      }
      PlaceIs(l[1..], b - 1, addr);
    }
  }

  ghost predicate Increasing(l: seq<Run>) {
    (forall i :: 0 <= i < |l| ==> l[i].size > 0) && (forall i, j :: 0 <= i < j < |l| ==> l[i].addr < l[j].addr)
  }

  lemma {:induction false} PlaceBefore(l: seq<Run>, addr: int)
    requires Increasing(l)
    ensures Before(l, Place(l, addr), addr)
    decreases |l|
  {
    if l != [] && l[0].addr <= addr {
      assert forall i :: 0 <= i < |l| - 1 ==> l[1..][i] == l[i + 1];
      PlaceBefore(l[1..], addr);
      var b := Place(l, addr);
      forall i | 0 <= i < b
        ensures l[i].addr <= addr
      {
        assert i > 0 ==> l[i] == l[1..][i - 1];
      }
    }
  }

  ghost predicate TouchesLeft(l: seq<Run>, b: int, addr: int)
    requires 0 <= b <= |l|
  {
    b > 0 && End(l[b - 1]) == addr
  }

  ghost predicate TouchesRight(l: seq<Run>, b: int, end: int)
    requires 0 <= b <= |l|
  {
    b < |l| && l[b].addr == end
  }

  /** The units from addr joined to the runs they touch, or made a run of their own. */
  ghost function Given(l: seq<Run>, b: int, size: int, addr: int): seq<Run>
    requires 0 <= b <= |l|
  {
    if TouchesLeft(l, b, addr) then
      if TouchesRight(l, b, addr + size)
      then Without(l[b - 1 := Run(l[b - 1].size + size + l[b].size, l[b - 1].addr)], b)
      else l[b - 1 := Run(l[b - 1].size + size, l[b - 1].addr)]
    else if TouchesRight(l, b, addr + size) then l[b := Run(l[b].size + size, l[b].addr - size)]
    else if size > 0 then l[..b] + [Run(size, addr)] + l[b..]
    else l
  }

  /** The units are not free yet. */
  ghost predicate NotFree(l: seq<Run>, size: int, addr: int) {
    forall u :: addr <= u < addr + size ==> !Free(l, u)
  }

  /** The units lie between the runs before and after them. */
  lemma Between(l: seq<Run>, b: int, size: int, addr: int)
    requires Canonical(l) && Before(l, b, addr) && size > 0 && NotFree(l, size, addr)
    ensures forall i :: 0 <= i < b ==> End(l[i]) <= addr
    ensures forall i :: b <= i < |l| ==> addr + size <= l[i].addr
  {
    forall i | 0 <= i < |l|
      ensures i < b ==> End(l[i]) <= addr
      ensures i >= b ==> addr + size <= l[i].addr
    {
      assert !Free(l, addr);
      assert !In(l[i], addr);
      if b <= i {
        assert l[b].addr <= l[i].addr;
        if addr <= l[i].addr < addr + size {
          assert In(l[i], l[i].addr);
          assert Free(l, l[i].addr);
          assert false;
        }
      }
    }
  }

  lemma GivenCanonical(l: seq<Run>, b: int, size: int, addr: int)
    requires Canonical(l) && Before(l, b, addr) && size > 0 && addr >= 1 && NotFree(l, size, addr)
    ensures Canonical(Given(l, b, size, addr))
  {
    Between(l, b, size, addr);
    hide NotFree, Canonical;
    GapAround(l, b, size, addr);
    if TouchesLeft(l, b, addr) {
      if TouchesRight(l, b, addr + size) {
        JoinCanonical(l, b, size);
      } else {
        ReplaceCanonical(l, b - 1, Run(l[b - 1].size + size, l[b - 1].addr));
      }
    } else if TouchesRight(l, b, addr + size) {
      ReplaceCanonical(l, b, Run(l[b].size + size, l[b].addr - size));
    } else {
      InsertCanonical(l, b, Run(size, addr));
    }
  }

  /** The neighbours of the units are apart from all other runs. */
  lemma GapAround(l: seq<Run>, b: int, size: int, addr: int)
    requires Canonical(l) && 0 <= b <= |l|
    requires forall i :: 0 <= i < b ==> End(l[i]) <= addr
    requires forall i :: b <= i < |l| ==> addr + size <= l[i].addr
    ensures forall i :: 0 <= i < b - 1 ==> End(l[i]) < l[b - 1].addr && End(l[i]) < addr
    ensures forall i :: b < i < |l| ==> End(l[b]) < l[i].addr && addr + size < l[i].addr
    ensures forall i :: 0 <= i < |l| ==> l[i].size > 0 && l[i].addr >= 1
  {
  }

  lemma ReplaceCanonical(l: seq<Run>, k: int, r: Run)
    requires Canonical(l) && 0 <= k < |l| && r.size > 0 && r.addr >= 1
    requires forall i :: 0 <= i < k ==> End(l[i]) < r.addr
    requires forall i :: k < i < |l| ==> End(r) < l[i].addr
    ensures Canonical(l[k := r])
  {
  }

  lemma JoinCanonical(l: seq<Run>, b: int, size: int)
    requires Canonical(l) && 0 < b < |l| && End(l[b - 1]) + size == l[b].addr && size > 0
    ensures Canonical(Without(l[b - 1 := Run(l[b - 1].size + size + l[b].size, l[b - 1].addr)], b))
  {
    var r := Run(l[b - 1].size + size + l[b].size, l[b - 1].addr);
    var m := Without(l[b - 1 := r], b);
    assert End(r) == End(l[b]);
    assert forall i :: 0 <= i < |m| ==> m[i] == if i < b - 1 then l[i] else if i == b - 1 then r else l[i + 1];
  }

  lemma InsertCanonical(l: seq<Run>, b: int, r: Run)
    requires Canonical(l) && 0 <= b <= |l| && r.size > 0 && r.addr >= 1
    requires forall i :: 0 <= i < b ==> End(l[i]) < r.addr
    requires forall i :: b <= i < |l| ==> End(r) < l[i].addr
    ensures Canonical(l[..b] + [r] + l[b..])
  {
    var m := l[..b] + [r] + l[b..];
    assert forall i :: 0 <= i < |m| ==> m[i] == if i < b then l[i] else if i == b then r else l[i - 1];
  }

  /** In every case the map gains exactly the units given back. */
  lemma GivenUnits(l: seq<Run>, b: int, size: int, addr: int, u: int)
    requires Canonical(l) && Before(l, b, addr) && size > 0 && addr >= 1 && NotFree(l, size, addr)
    ensures Free(Given(l, b, size, addr), u) <==> Free(l, u) || addr <= u < addr + size
  {
    var m := Given(l, b, size, addr);
    if TouchesLeft(l, b, addr) {
      if TouchesRight(l, b, addr + size) {
        GivenBoth(l, b, size, addr, u);
      } else {
        GivenOne(l, b - 1, Run(l[b - 1].size + size, l[b - 1].addr), size, addr, u);
      }
    } else if TouchesRight(l, b, addr + size) {
      GivenOne(l, b, Run(l[b].size + size, l[b].addr - size), size, addr, u);
    } else {
      GivenNew(l, b, size, addr, u);
    }
  }

  lemma GivenOne(l: seq<Run>, k: int, r: Run, size: int, addr: int, u: int)
    requires 0 <= k < |l| && (In(r, u) <==> In(l[k], u) || addr <= u < addr + size)
    ensures Free(l[k := r], u) <==> Free(l, u) || addr <= u < addr + size
  {
    var m := l[k := r];
    if Free(m, u) {
      var i :| 0 <= i < |m| && In(m[i], u);
      assert i != k ==> In(l[i], u);
    }
    if Free(l, u) {
      var i :| 0 <= i < |l| && In(l[i], u);
      assert In(m[i], u);
    }
    assert In(r, u) ==> In(m[k], u);
  }

  lemma GivenNew(l: seq<Run>, b: int, size: int, addr: int, u: int)
    requires 0 <= b <= |l|
    ensures Free(l[..b] + [Run(size, addr)] + l[b..], u) <==> Free(l, u) || addr <= u < addr + size
  {
    var m := l[..b] + [Run(size, addr)] + l[b..];
    if Free(m, u) {
      var i :| 0 <= i < |m| && In(m[i], u);
      assert i < b ==> In(l[i], u);
      assert i > b ==> m[i] == l[i - 1];
    }
    if Free(l, u) {
      var i :| 0 <= i < |l| && In(l[i], u);
      assert i < b ==> m[i] == l[i];
      assert i >= b ==> m[i + 1] == l[i];
    }
    assert m[b] == Run(size, addr);
  }

  lemma GivenBoth(l: seq<Run>, b: int, size: int, addr: int, u: int)
    requires Canonical(l) && 0 < b < |l| && End(l[b - 1]) == addr && l[b].addr == addr + size && size > 0
    ensures var r := Run(l[b - 1].size + size + l[b].size, l[b - 1].addr);
            Free(Without(l[b - 1 := r], b), u) <==> Free(l, u) || addr <= u < addr + size
  {
    var r := Run(l[b - 1].size + size + l[b].size, l[b - 1].addr);
    assert l[b - 1].size > 0 && l[b].size > 0;
    hide Canonical, Without, Free;
    GivenOne(l, b - 1, r, size + l[b].size, addr, u);
    FreeAt(l, b, u);
    WithoutCovered(l[b - 1 := r], b, u);
  }

  lemma FreeAt(l: seq<Run>, b: int, u: int)
    requires 0 <= b < |l|
    ensures In(l[b], u) ==> Free(l, u)
  {
  }

  /** An entry that the one before it covers can go. */
  lemma WithoutCovered(l: seq<Run>, b: int, u: int)
    requires 0 < b < |l| && (In(l[b], u) ==> In(l[b - 1], u))
    ensures Free(Without(l, b), u) <==> Free(l, u)
  {
    var m := Without(l, b);
    WithoutAt(l, b);
    hide Without;
    if Free(m, u) {
      var i :| 0 <= i < |m| && In(m[i], u);
      assert m[i] == l[if i < b then i else i + 1];
    }
    if Free(l, u) {
      var i :| 0 <= i < |l| && In(l[i], u);
      var j := if i < b then i else i - 1;
      assert In(m[j], u);
    }
  }

  /** The first loop of mfree. */
  method Scan(a: array<Run>, addr: int, ghost l: seq<Run>) returns (b: int)
    requires Holds(a[..], l) && Increasing(l)
    ensures b == Place(l, addr) && Before(l, b, addr)
  {
    hide Place;
    b := 0;
    while a[b].addr <= addr && a[b].size != 0
      invariant 0 <= b <= |l| && forall i :: 0 <= i < b ==> l[i].addr <= addr
      decreases |l| - b
    {
      b := b + 1;
    }
    PlaceIs(l, b, addr);
  }

  /** The case of mfree in which the units touch the run before them. */
  method Join(a: array<Run>, b: int, size: int, addr: int, ghost l: seq<Run>)
    requires Holds(a[..], l) && 0 < b <= |l| && End(l[b - 1]) == addr && size >= 0 && forall i :: 0 <= i < |l| ==> l[i].size > 0
    modifies a
    ensures Holds(a[..], Given(l, b, size, addr))
  {
    a[b - 1] := Run(a[b - 1].size + size, a[b - 1].addr);
    if addr + size == a[b].addr {
      a[b - 1] := Run(a[b - 1].size + a[b].size, a[b - 1].addr);
      if a[b].size != 0 {
        ghost var l' := l[b - 1 := Run(l[b - 1].size + size + l[b].size, l[b - 1].addr)];
        Close(a, b, l');
      }
    }
  }

  /** mfree: the units from addr are free again. */
  method Mfree(a: array<Run>, size: int, addr: int, ghost l: seq<Run>) returns (ghost m: seq<Run>)
    requires Holds(a[..], l) && Canonical(l) && size >= 0 && addr >= 1 && NotFree(l, size, addr)
    requires |Given(l, Place(l, addr), size, addr)| < a.Length
    modifies a
    ensures Holds(a[..], m) && Canonical(m) && m == Given(l, Place(l, addr), size, addr)
    ensures forall u :: Free(m, u) <==> Free(l, u) || addr <= u < addr + size
  {
    hide Canonical, Free, Place, Without, NotFree;
    CanonicalSizes(l);
    var b := Scan(a, addr, l);
    m := Given(l, b, size, addr);
    GivenAll(l, b, size, addr);
    if b > 0 && a[b - 1].addr + a[b - 1].size == addr {
      Join(a, b, size, addr, l);
    } else if addr + size == a[b].addr && a[b].size != 0 {
      a[b] := Run(a[b].size + size, a[b].addr - size);
    } else if size != 0 {
      Open(a, b, Run(size, addr), l);
    }
  }

  lemma CanonicalSizes(l: seq<Run>)
    requires Canonical(l)
    ensures Increasing(l)
  {
  }

  lemma GivenAll(l: seq<Run>, b: int, size: int, addr: int)
    requires Canonical(l) && size >= 0 && addr >= 1 && NotFree(l, size, addr) && Before(l, b, addr)
    ensures Canonical(Given(l, b, size, addr))
    ensures forall u :: Free(Given(l, b, size, addr), u) <==> Free(l, u) || addr <= u < addr + size
  {
    hide Free, Given;
    if size > 0 {
      GivenCanonical(l, b, size, addr);
      forall u
        ensures Free(Given(l, b, size, addr), u) <==> Free(l, u) || addr <= u < addr + size
      {
        GivenUnits(l, b, size, addr, u);
      }
    } else {
      GivenNothing(l, b, addr);
    }
  }

  lemma GivenNothing(l: seq<Run>, b: int, addr: int)
    requires Before(l, b, addr)
    ensures Given(l, b, 0, addr) == l
  {
  }

  /** The last loop of mfree: each run takes the place of the next, up to the end of the list. */
  method Open(a: array<Run>, k: int, r: Run, ghost l: seq<Run>)
    requires Holds(a[..], l) && 0 <= k <= |l| && |l| + 1 < a.Length && forall i :: 0 <= i < |l| ==> l[i].size > 0
    modifies a
    ensures Holds(a[..], l[..k] + [r] + l[k..])
  {
    var b, carry := k, r;
    ghost var m := l[..k] + [r] + l[k..];
    var t := a[b];
    a[b] := carry;
    b := b + 1;
    carry := t;
    while carry.size != 0
      invariant k < b <= |l| + 1
      invariant forall i :: 0 <= i < b ==> a[i] == m[i]
      invariant forall i :: b <= i < |l| ==> a[i] == l[i]
      invariant forall i :: |l| <= i < a.Length && i >= b ==> a[i].size == 0
      invariant if b <= |l| then carry == m[b] else carry.size == 0
      decreases |l| + 1 - b
    {
      t := a[b];
      a[b] := carry;
      b := b + 1;
      carry := t;
    }
  }

  /** The map after mfree, as far as its units are concerned. */
  lemma GivenAt(l: seq<Run>, size: int, addr: int)
    requires Canonical(l) && size >= 0 && addr >= 1 && NotFree(l, size, addr)
    ensures Canonical(Given(l, Place(l, addr), size, addr))
    ensures forall u :: Free(Given(l, Place(l, addr), size, addr), u) <==> Free(l, u) || addr <= u < addr + size
  {
    CanonicalSizes(l);
    PlaceBefore(l, addr);
    hide Canonical, Free;
    GivenAll(l, Place(l, addr), size, addr);
  }

  /** Units taken and given back leave the map as it was, entry for entry. */
  method Reserve(a: array<Run>, size: int, ghost l: seq<Run>) returns (ok: bool)
    requires Holds(a[..], l) && Canonical(l) && size >= 1
    modifies a
    ensures Holds(a[..], l)
    ensures ok <==> HasRoom(l, size)
  {
    hide Canonical, Free, Given, Place;
    var addr, m := Malloc(a, size, l);
    if addr == 0 {
      return false;
    }
    PositiveAddr(l, size, addr);
    GivenAt(m, size, addr);
    Unique(Given(m, Place(m, addr), size, addr), l);
    var n := Mfree(a, size, addr, m);
    ok := true;
  }

  lemma PositiveAddr(l: seq<Run>, size: int, x: int)
    requires Canonical(l) && size >= 1 && Fits(l, size, x)
    ensures x >= 1
  {
    var i := FitsInRun(l, size, x);
  }

  // ---- how many entries a map can need ----

  /** The pieces in use: within [lo, hi), apart from one another, and together all that is not free. */
  ghost predicate InUse(l: seq<Run>, ps: seq<Run>, lo: int, hi: int) {
    && (forall i :: 0 <= i < |l| ==> lo <= l[i].addr && End(l[i]) <= hi)
    && (forall p :: 0 <= p < |ps| ==> lo <= ps[p].addr && End(ps[p]) <= hi && ps[p].size >= 0)
    && (forall u :: lo <= u < hi ==> (Free(ps, u) <==> !Free(l, u)))
    && (forall p, q, u :: 0 <= p < q < |ps| && In(ps[p], u) ==> !In(ps[q], u))
  }

  /** The piece that follows run i. */
  ghost function After(l: seq<Run>, ps: seq<Run>, lo: int, hi: int, i: int): (p: int)
    requires Canonical(l) && InUse(l, ps, lo, hi) && 0 <= i < |l| - 1
    ensures 0 <= p < |ps| && In(ps[p], End(l[i]))
  {
    AtEnd(l, i);
    assert lo <= End(l[i]) < l[i + 1].addr < End(l[i + 1]) <= hi;
    assert Free(ps, End(l[i]));
    var p :| 0 <= p < |ps| && In(ps[p], End(l[i]));
    p
  }

  /** Different runs are followed by different pieces, for a run lies between. */
  lemma AfterApart(l: seq<Run>, ps: seq<Run>, lo: int, hi: int, i: int, j: int)
    requires Canonical(l) && InUse(l, ps, lo, hi) && 0 <= i < j < |l| - 1
    ensures After(l, ps, lo, hi, i) != After(l, ps, lo, hi, j)
  {
    var p := After(l, ps, lo, hi, i);
    assert In(l[j], l[j].addr) && Free(l, l[j].addr);
    assert !Free(ps, l[j].addr);
    assert !In(ps[p], l[j].addr);
    assert End(l[i]) < l[j].addr < End(l[j]);
  }

  lemma {:induction false} Afters(l: seq<Run>, ps: seq<Run>, lo: int, hi: int, n: int) returns (s: set<int>)
    requires Canonical(l) && InUse(l, ps, lo, hi) && 0 <= n < |l|
    ensures |s| == n && forall p :: p in s ==> 0 <= p < |ps|
    ensures forall p :: p in s ==> exists i :: 0 <= i < n && p == After(l, ps, lo, hi, i)
    decreases n
  {
    hide Canonical, InUse, After;
    if n == 0 {
      s := {};
    } else {
      var t := Afters(l, ps, lo, hi, n - 1);
      var p := After(l, ps, lo, hi, n - 1);
      if p in t {
        var i :| 0 <= i < n - 1 && p == After(l, ps, lo, hi, i);
        AfterApart(l, ps, lo, hi, i, n - 1);
      }
      s := t + {p};
    }
  }

  /** With k pieces in use a map has at most k + 1 entries: what PMAPSIZ and SMAPSIZ count on. */
  lemma EntriesBound(l: seq<Run>, ps: seq<Run>, lo: int, hi: int)
    requires Canonical(l) && InUse(l, ps, lo, hi)
    ensures |l| <= |ps| + 1
  {
    if l != [] {
      var s := Afters(l, ps, lo, hi, |l| - 1);
      Smaller(s, Upto(|ps|));
    }
  }

  // ---- the pieces over a run ----

  ghost function Dropped(ps: seq<Run>, j: int): seq<Run>
    requires 0 <= j < |ps|
  {
    ps[..j] + ps[j + 1..]
  }

  /** malloc adds its piece to those in use. */
  lemma PieceTaken(l: seq<Run>, m: seq<Run>, ps: seq<Run>, lo: int, hi: int, size: int, addr: int)
    requires InUse(l, ps, lo, hi) && Canonical(l) && Canonical(m) && size >= 0 && lo <= addr && addr + size <= hi
    requires forall u :: addr <= u < addr + size ==> Free(l, u)
    requires forall u :: Free(m, u) <==> Free(l, u) && !(addr <= u < addr + size)
    ensures InUse(m, ps + [Run(size, addr)], lo, hi)
  {
    var p := Run(size, addr);
    forall u
      ensures Free(ps + [p], u) <==> Free(ps, u) || In(p, u)
    {
      GivenNew(ps, |ps|, size, addr, u);
      assert ps[..|ps|] + [p] + ps[|ps|..] == ps + [p];
    }
    forall i | 0 <= i < |m|
      ensures lo <= m[i].addr && End(m[i]) <= hi
    {
      FreeBounds(l, m, i, lo, hi);
    }
    forall q, u | 0 <= q < |ps| && In(ps[q], u)
      ensures !In(p, u)
    {
      assert Free(ps, u);
    }
    hide Free, Canonical;
  }

  /** A map with fewer units is within the same bounds. */
  lemma FreeBounds(l: seq<Run>, m: seq<Run>, i: int, lo: int, hi: int)
    requires Canonical(m) && 0 <= i < |m| && (forall u :: Free(m, u) ==> lo <= u < hi)
    ensures lo <= m[i].addr && End(m[i]) <= hi
  {
    assert In(m[i], m[i].addr) && In(m[i], End(m[i]) - 1);
    assert Free(m, m[i].addr) && Free(m, End(m[i]) - 1);
  }

  /** A piece in use is not free, and mfree takes it out of those in use. */
  lemma PieceGiven(l: seq<Run>, m: seq<Run>, ps: seq<Run>, lo: int, hi: int, j: int)
    requires InUse(l, ps, lo, hi) && Canonical(m) && 0 <= j < |ps|
    requires forall u :: Free(m, u) <==> Free(l, u) || In(ps[j], u)
    ensures InUse(m, Dropped(ps, j), lo, hi)
  {
    hide Free, Canonical, In;
    forall i | 0 <= i < |m|
      ensures lo <= m[i].addr && End(m[i]) <= hi
    {
      forall u | Free(m, u)
        ensures lo <= u < hi
      {
        GivenBounds(l, ps, lo, hi, j, u);
      }
      FreeBounds(l, m, i, lo, hi);
    }
    forall u | lo <= u < hi
      ensures Free(Dropped(ps, j), u) <==> !Free(m, u)
    {
      DroppedUnits(ps, j, u);
      InPiece(ps, j, u);
    }
    DroppedApart(ps, lo, hi, j);
  }

  lemma GivenBounds(l: seq<Run>, ps: seq<Run>, lo: int, hi: int, j: int, u: int)
    requires InUse(l, ps, lo, hi) && 0 <= j < |ps| && (Free(l, u) || In(ps[j], u))
    ensures lo <= u < hi
  {
    if Free(l, u) {
      var i :| 0 <= i < |l| && In(l[i], u);
    }
  }

  lemma InPiece(ps: seq<Run>, j: int, u: int)
    requires 0 <= j < |ps|
    ensures In(ps[j], u) ==> Free(ps, u)
  {
  }

  /** The pieces that are left are in the area and apart. */
  lemma DroppedApart(ps: seq<Run>, lo: int, hi: int, j: int)
    requires 0 <= j < |ps| && forall p, q, u :: 0 <= p < q < |ps| && In(ps[p], u) ==> !In(ps[q], u)
    requires forall p :: 0 <= p < |ps| ==> lo <= ps[p].addr && End(ps[p]) <= hi && ps[p].size >= 0
    ensures var qs := Dropped(ps, j);
            && (forall p :: 0 <= p < |qs| ==> lo <= qs[p].addr && End(qs[p]) <= hi && qs[p].size >= 0)
            && (forall p, q, u :: 0 <= p < q < |qs| && In(qs[p], u) ==> !In(qs[q], u))
  {
    hide In;
    var qs := Dropped(ps, j);
    forall p, q, u | 0 <= p < q < |qs| && In(qs[p], u)
      ensures !In(qs[q], u)
    {
      assert qs[p] == ps[if p < j then p else p + 1] && qs[q] == ps[if q < j then q else q + 1];
    }
  }

  lemma DroppedUnits(ps: seq<Run>, j: int, u: int)
    requires 0 <= j < |ps| && (forall p, q, u :: 0 <= p < q < |ps| && In(ps[p], u) ==> !In(ps[q], u))
    ensures Free(Dropped(ps, j), u) <==> Free(ps, u) && !In(ps[j], u)
  {
    var qs := Dropped(ps, j);
    if Free(qs, u) {
      var q :| 0 <= q < |qs| && In(qs[q], u);
      assert In(ps[if q < j then q else q + 1], u);
    }
    if Free(ps, u) && !In(ps[j], u) {
      var p :| 0 <= p < |ps| && In(ps[p], u);
      assert In(qs[if p < j then p else p - 1], u);
    }
  }

  lemma PieceNotFree(l: seq<Run>, ps: seq<Run>, lo: int, hi: int, j: int)
    requires InUse(l, ps, lo, hi) && 0 <= j < |ps|
    ensures NotFree(l, ps[j].size, ps[j].addr)
  {
    forall u | In(ps[j], u)
      ensures !Free(l, u)
    {
      assert Free(ps, u);
    }
  }

  lemma AddrBounds(l: seq<Run>, ps: seq<Run>, lo: int, hi: int, size: int, addr: int)
    requires Canonical(l) && InUse(l, ps, lo, hi) && AtRun(l, size, addr)
    ensures lo <= addr && addr + size <= hi && forall u :: addr <= u < addr + size ==> Free(l, u)
  {
    var i :| 0 <= i < |l| && l[i].addr == addr && size <= l[i].size;
    forall u | addr <= u < addr + size
      ensures Free(l, u)
    {
      assert In(l[i], u);
    }
  }

  /** malloc or mfree of the j-th of the pieces in use, and what malloc answered. */
  datatype Request = Alloc(size: nat) | Release(j: nat)

  /** Unit u is in the area, and in none of the pieces. */
  ghost predicate Spare(ps: seq<Run>, lo: int, hi: int, u: int) { lo <= u < hi && !Free(ps, u) }

  /** All units from x to x + size are. */
  ghost predicate Vacant(ps: seq<Run>, lo: int, hi: int, size: int, x: int) {
    forall u :: x <= u < x + size ==> Spare(ps, lo, hi, u)
  }

  /** a is the lowest place for size units beside the pieces, or 0 if there is none. */
  ghost predicate Answers(ps: seq<Run>, lo: int, hi: int, size: nat, a: int) {
    if a == 0 then forall x :: !Vacant(ps, lo, hi, AtLeast(size), x)
    else Vacant(ps, lo, hi, AtLeast(size), a) && forall x :: x < a ==> !Vacant(ps, lo, hi, AtLeast(size), x)
  }

  /** There is one answer. */
  lemma OneAnswer(ps: seq<Run>, lo: int, hi: int, size: nat, a: int, b: int)
    requires Answers(ps, lo, hi, size, a) && Answers(ps, lo, hi, size, b)
    ensures a == b
  {
    hide Vacant;
  }

  /** What is free is what is vacant. */
  lemma FreeVacant(l: seq<Run>, ps: seq<Run>, lo: int, hi: int, size: int, x: int)
    requires Canonical(l) && InUse(l, ps, lo, hi)
    ensures Fits(l, size, x) <==> Vacant(ps, lo, hi, size, x)
  {
    hide Canonical, Free, In, Spare, InUse;
    if Fits(l, size, x) {
      forall u | x <= u < x + size
        ensures Spare(ps, lo, hi, u)
      {
        FreeOrUsed(l, ps, lo, hi, u);
      }
    }
    if Vacant(ps, lo, hi, size, x) {
      forall u | x <= u < x + size
        ensures Free(l, u)
      {
        FreeOrUsed(l, ps, lo, hi, u);
      }
    }
  }

  lemma FreeOrUsed(l: seq<Run>, ps: seq<Run>, lo: int, hi: int, u: int)
    requires InUse(l, ps, lo, hi)
    ensures Free(l, u) <==> Spare(ps, lo, hi, u)
  {
    if Free(l, u) {
      var i :| 0 <= i < |l| && In(l[i], u);
    }
  }

  lemma EntriesUp(l: seq<Run>, ps: seq<Run>, lo: int, hi: int)
    requires InUse(l, ps, lo, hi) && lo >= 1
    ensures forall k :: 0 <= k < |l| ==> l[k].addr != 0
  {
  }

  /** malloc with the pieces in use: the lowest place beside them. */
  method Grant(a: array<Run>, size: nat, lo: int, hi: int, ps: seq<Run>, ghost l: seq<Run>)
    returns (addr: int, ps': seq<Run>, ghost m: seq<Run>)
    requires Holds(a[..], l) && Canonical(l) && InUse(l, ps, lo, hi) && lo >= 1
    modifies a
    ensures Holds(a[..], m) && Canonical(m) && InUse(m, ps', lo, hi)
    ensures Answers(ps, lo, hi, size, addr) && ps' == if addr == 0 then ps else ps + [Run(size, addr)]
  {
    hide Canonical, Free, InUse, Fits, Vacant;
    EntriesUp(l, ps, lo, hi);
    addr, m := Malloc(a, size, l);
    ps' := ps;
    forall x
      ensures Fits(l, AtLeast(size), x) <==> Vacant(ps, lo, hi, AtLeast(size), x)
    {
      FreeVacant(l, ps, lo, hi, AtLeast(size), x);
    }
    if addr != 0 {
      AddrBounds(l, ps, lo, hi, size, addr);
      PieceTaken(l, m, ps, lo, hi, size, addr);
      ps' := ps + [Run(size, addr)];
    }
  }

  /** mfree of a piece in use: the array has room for the map after it, as it has two entries more than there are pieces. */
  method Return(a: array<Run>, size: int, addr: int, ghost j: nat, ghost lo: int, ghost hi: int, ghost ps: seq<Run>, ghost l: seq<Run>)
    returns (ghost m: seq<Run>)
    requires Holds(a[..], l) && Canonical(l) && InUse(l, ps, lo, hi) && lo >= 1 && j < |ps| < a.Length && ps[j] == Run(size, addr)
    modifies a
    ensures Holds(a[..], m) && Canonical(m) && InUse(m, Dropped(ps, j), lo, hi)
  {
    hide Canonical, Free, Given, Place, Holds;
    PieceNotFree(l, ps, lo, hi, j);
    PieceFacts(l, ps, lo, hi, j);
    hide InUse, NotFree;
    GivenAt(l, size, addr);
    m := Given(l, Place(l, addr), size, addr);
    PieceGiven(l, m, ps, lo, hi, j);
    EntriesBound(m, Dropped(ps, j), lo, hi);
    m := Mfree(a, size, addr, l);
  }

  lemma PieceFacts(l: seq<Run>, ps: seq<Run>, lo: int, hi: int, j: int)
    requires InUse(l, ps, lo, hi) && 0 <= j < |ps|
    ensures lo <= ps[j].addr && End(ps[j]) <= hi && ps[j].size >= 0
  {
  }

  /** The pieces in use after the requests rs with the answers as; malloc is asked for no more than cap pieces at a time. */
  ghost function Pieces(rs: seq<Request>, answers: seq<int>, cap: int): seq<Run>
    requires |rs| == |answers|
  {
    if rs == [] then [] else
    var k := |rs| - 1;
    var ps := Pieces(rs[..k], answers[..k], cap);
    match rs[k]
    case Alloc(size) => if |ps| < cap && answers[k] != 0 then ps + [Run(size, answers[k])] else ps
    case Release(j) => if j < |ps| then Dropped(ps, j) else ps
  }

  /** The k-th answer is that of malloc beside the pieces then in use; there is none to mfree. */
  ghost predicate AnswerOk(rs: seq<Request>, answers: seq<int>, cap: int, lo: int, hi: int, k: int)
    requires 0 <= k < |rs| && k < |answers|
  {
    var ps := Pieces(rs[..k], answers[..k], cap);
    if rs[k].Alloc? && |ps| < cap then Answers(ps, lo, hi, rs[k].size, answers[k]) else answers[k] == 0
  }

  ghost predicate AllAnswered(rs: seq<Request>, answers: seq<int>, cap: int, lo: int, hi: int) {
    |answers| <= |rs| && forall k {:trigger answers[k]} :: 0 <= k < |answers| ==> AnswerOk(rs, answers, cap, lo, hi, k)
  }

  lemma PiecesNext(rs: seq<Request>, answers: seq<int>, cap: int, lo: int, hi: int, a: int)
    requires |answers| < |rs| && AllAnswered(rs, answers, cap, lo, hi)
    ensures var k := |answers|;
            var ps := Pieces(rs[..k], answers, cap);
            && ((if rs[k].Alloc? && |ps| < cap then Answers(ps, lo, hi, rs[k].size, a) else a == 0) ==>
                AllAnswered(rs, answers + [a], cap, lo, hi))
            && Pieces(rs[..k + 1], answers + [a], cap) ==
               match rs[k]
               case Alloc(size) => if |ps| < cap && a != 0 then ps + [Run(size, a)] else ps
               case Release(j) => if j < |ps| then Dropped(ps, j) else ps
  {
    hide Answers;
    var k := |answers|;
    assert (answers + [a])[..k] == answers && rs[..k + 1][..k] == rs[..k];
    forall i | 0 <= i < k
      ensures AnswerOk(rs, answers + [a], cap, lo, hi, i)
    {
      assert (answers + [a])[..i] == answers[..i] && (answers + [a])[i] == answers[i];
      assert AnswerOk(rs, answers, cap, lo, hi, i);
    }
    var ps := Pieces(rs[..k], answers, cap);
    if if rs[k].Alloc? && |ps| < cap then Answers(ps, lo, hi, rs[k].size, a) else a == 0 {
      assert AnswerOk(rs, answers + [a], cap, lo, hi, k);
      hide AnswerOk;
    }
  }

  /**
   * Any run of malloc and mfree over [lo, hi), with at most a.Length - 2
   * pieces in use at a time: neither ever leaves the array; each answer of
   * malloc is the lowest place beside the pieces in use, or 0 when there is
   * none; and the map is always that of the units not in use, of at most one
   * entry more than there are pieces.
   */
  method Serve(a: array<Run>, rs: seq<Request>, lo: int, hi: int) returns (answers: seq<int>, ps: seq<Run>, ghost l: seq<Run>)
    requires a.Length >= 2 && 1 <= lo < hi && Holds(a[..], [Run(hi - lo, lo)])
    modifies a
    ensures |answers| == |rs| && AllAnswered(rs, answers, a.Length - 2, lo, hi)
    ensures ps == Pieces(rs, answers, a.Length - 2)
    ensures Holds(a[..], l) && Canonical(l) && InUse(l, ps, lo, hi) && |ps| <= a.Length - 2 && |l| <= |ps| + 1
  {
    hide Canonical, InUse, Holds, Answers, Pieces, AnswerOk;
    l := [Run(hi - lo, lo)];
    ps, answers := [], [];
    StartInUse(lo, hi);
    NoPieces(a.Length - 2);
    assert rs[..0] == [];
    var k := 0;
    while k < |rs|
      invariant 0 <= k <= |rs| && |answers| == k && Holds(a[..], l) && Canonical(l) && InUse(l, ps, lo, hi) && |ps| <= a.Length - 2
      invariant ps == Pieces(rs[..k], answers, a.Length - 2)
      invariant AllAnswered(rs, answers, a.Length - 2, lo, hi)
    {
      var addr := 0;
      ghost var was := answers;
      match rs[k] {
        case Alloc(size) =>
          if |ps| < a.Length - 2 {
            addr, ps, l := Grant(a, size, lo, hi, ps, l);
          }
        case Release(j) =>
          if j < |ps| {
            l := Return(a, ps[j].size, ps[j].addr, j, lo, hi, ps, l);
            ps := ps[..j] + ps[j + 1..];
          }
      }
      PiecesNext(rs, was, a.Length - 2, lo, hi, addr);
      answers := answers + [addr];
      k := k + 1;
    }
    assert rs[..k] == rs;
    EntriesBound(l, ps, lo, hi);
  }

  lemma NoPieces(cap: int)
    ensures Pieces([], [], cap) == []
  {
  }

  lemma StartInUse(lo: int, hi: int)
    requires 1 <= lo < hi
    ensures Canonical([Run(hi - lo, lo)]) && InUse([Run(hi - lo, lo)], [], lo, hi)
  {
    var l := [Run(hi - lo, lo)];
    forall u
      ensures Free(l, u) <==> lo <= u < hi
    {
      assert In(l[0], u) <==> lo <= u < hi;
    }
  }
}
