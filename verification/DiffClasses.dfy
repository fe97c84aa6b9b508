/**
 * How usr/src/cmd/diff.c finds, for each line of file 0, the lines of file 1
 * with the same value: sort, equiv and unsort.
 */
module DiffClasses {
  import opened DiffSpec
  import opened DiffStone

  /** struct line */
  datatype Line = Line(serial: int, value: int)

  predicate Less(p: Line, q: Line) {
    p.value < q.value || (p.value == q.value && p.serial < q.serial)
  }

  /** Entries lo..hi-1 of s are in order. */
  ghost predicate Sorted(s: seq<Line>, lo: int, hi: int) {
    0 <= lo && hi <= |s| && forall i, j :: lo <= i < j < hi ==> !Less(s[j], s[i])
  }

  // ---- sort ----

  method Swap(a: array<Line>, i: int, j: int)
    requires 0 <= i < j < a.Length
    modifies a
    ensures a[..] == old(a[..])[i := old(a[j])][j := old(a[i])]
    ensures multiset(a[..]) == old(multiset(a[..]))
  {
    a[i], a[j] := a[j], a[i];
  }

  /** The innermost loop of sort: a[j + m] sinks by steps of m; with m = 1 it is inserted in a sorted prefix. */
  method Sink(a: array<Line>, j: int, m: int)
    requires 1 <= j && 1 <= m && j + m < a.Length
    requires m == 1 ==> Sorted(a[..], 1, j + 1)
    modifies a
    ensures multiset(a[..]) == old(multiset(a[..]))
    ensures forall k :: 0 <= k < a.Length && !(1 <= k <= j + m) ==> a[k] == old(a[k])
    ensures m == 1 ==> Sorted(a[..], 1, j + 2)
  {
    var i := j;
    while i > 0
      invariant i <= j && (m == 1 ==> 0 <= i)
      invariant multiset(a[..]) == old(multiset(a[..]))
      invariant forall k :: 0 <= k < a.Length && !(1 <= k <= j + m) ==> a[k] == old(a[k])
      invariant m == 1 ==> forall p, q :: 1 <= p < q <= j + 1 && q != i + 1 ==> !Less(a[q], a[p])
    {
      if Less(a[i], a[i + m]) {
        break;
      }
      Swap(a, i, i + m);
      i := i - m;
    }
  }

  /** sort: Shell's method on a[1..n]. */
  method Sort(a: array<Line>, n: int)
    requires 0 <= n < a.Length
    modifies a
    ensures Sorted(a[..], 1, n + 1)
    ensures multiset(a[..]) == old(multiset(a[..]))
    ensures forall k :: 0 <= k < a.Length && !(1 <= k <= n) ==> a[k] == old(a[k])
  {
    var m, j := 0, 1;
    while j <= n
      invariant 1 <= j && m == j - 1 && (j == 1 || j <= 2 * n)
    {
      m := 2 * j - 1;
      j := j * 2;
    }
    m := m / 2;
    while m != 0
      invariant 0 <= m && (m == 0 || m < n)
      invariant m == 0 ==> Sorted(a[..], 1, n + 1)
      invariant multiset(a[..]) == old(multiset(a[..]))
      invariant forall k :: 0 <= k < a.Length && !(1 <= k <= n) ==> a[k] == old(a[k])
    {
      var k := n - m;
      for j := 1 to k + 1
        invariant multiset(a[..]) == old(multiset(a[..]))
        invariant forall k :: 0 <= k < a.Length && !(1 <= k <= n) ==> a[k] == old(a[k])
        invariant m == 1 ==> Sorted(a[..], 1, j + 1)
      {
        Sink(a, j, m);
      }
      m := m / 2;
    }
  }

  // ---- equiv ----

  /** r is the index of the first entry of s[1..m] with the value val, or 0 if there is none. */
  ghost predicate IsFirst(s: seq<Line>, m: int, val: int, r: int) {
    && 0 <= m < |s|
    && if r == 0 then forall k :: 1 <= k <= m ==> s[k].value != val
       else 1 <= r <= m && s[r].value == val && forall k :: 1 <= k < r ==> s[k].value != val
  }

  /** The entry k of member for the sorted lines s: a serial number, negative at the head of a class. */
  ghost function Member(s: seq<Line>, k: int): int
    requires 1 <= k < |s|
  {
    if k == 1 || s[k].value != s[k - 1].value then -s[k].serial else s[k].serial
  }

  /** The first half of equiv: the value of each line of a becomes the index of its class in b. */
  method Classify(a: array<Line>, n: int, b: array<Line>, m: int)
    requires a != b && 0 <= n < a.Length && 0 <= m < b.Length
    requires Sorted(a[..], 1, n + 1) && Sorted(b[..], 1, m + 1)
    modifies a
    ensures forall k :: 1 <= k <= n ==> a[k].serial == old(a[k].serial) && IsFirst(b[..], m, old(a[k].value), a[k].value)
  {
    ghost var a0 := a[..];
    var i, j := 1, 1;
    while i <= n && j <= m
      invariant 1 <= i <= n + 1 && 1 <= j <= m + 1
      invariant forall k :: 1 <= k < i ==> a[k].serial == a0[k].serial && IsFirst(b[..], m, a0[k].value, a[k].value)
      invariant forall k :: i <= k <= n ==> a[k] == a0[k]
      invariant i <= n ==> forall k :: 1 <= k < j ==> b[k].value < a0[i].value
      decreases n - i + m - j
    {
      if a[i].value < b[j].value {
        a[i] := a[i].(value := 0);
        i := i + 1;
      } else if a[i].value == b[j].value {
        a[i] := a[i].(value := j);
        i := i + 1;
      } else {
        j := j + 1;
      }
    }
    while i <= n
      invariant 1 <= i <= n + 1
      invariant i <= n ==> forall k :: 1 <= k <= m ==> b[k].value < a0[i].value
      invariant forall k :: 1 <= k < i ==> a[k].serial == a0[k].serial && IsFirst(b[..], m, a0[k].value, a[k].value)
      invariant forall k :: i <= k <= n ==> a[k] == a0[k]
    {
      a[i] := a[i].(value := 0);
      i := i + 1;
    }
  }

  /** The second half of equiv: file 1 squeezed into member. A zero value marks the end of b, so no line may have it. */
  method Squeeze(b: array<Line>, m: int, c: array<int>)
    requires 0 <= m && m + 1 < b.Length && m + 1 < c.Length
    requires forall k :: 1 <= k <= m ==> b[k].value != 0
    modifies b, c
    ensures forall k :: 0 <= k <= m ==> b[k] == old(b[k])
    ensures forall k :: 1 <= k <= m ==> c[k] == Member(b[..], k)
    ensures c[m + 1] == -1
  {
    b[m + 1] := b[m + 1].(value := 0);
    var j := 1;
    while j <= m
      modifies c
      invariant 1 <= j <= m + 1
      invariant 1 < j <= m ==> b[j].value != b[j - 1].value
      invariant forall k :: 1 <= k < j ==> c[k] == Member(b[..], k)
    {
      c[j] := -b[j].serial;
      while b[j + 1].value == b[j].value
        modifies c
        invariant 1 <= j <= m
        invariant forall k :: 1 <= k <= j ==> c[k] == Member(b[..], k)
        decreases m - j
      {
        j := j + 1;
        c[j] := b[j].serial;
      }
      j := j + 1;
    }
    c[j] := -1;
  }

  /** unsort: the class of each line back in the order of file 0. */
  method Unsort(f: array<Line>, l: int, b: array<int>)
    requires 0 <= l < f.Length && l < b.Length
    requires forall k :: 1 <= k <= l ==> 1 <= f[k].serial <= l
    requires forall k, k' :: 1 <= k < k' <= l ==> f[k].serial != f[k'].serial
    modifies b
    ensures forall k :: 1 <= k <= l ==> b[f[k].serial] == f[k].value
  {
    var a := new int[l + 1];
    for i := 1 to l + 1
      invariant forall k :: 1 <= k < i ==> a[f[k].serial] == f[k].value
    {
      a[f[i].serial] := f[i].value;
    }
    for i := 1 to l + 1
      modifies b
      invariant forall x :: 1 <= x < i ==> b[x] == a[x]
    {
      b[i] := a[i];
    }
  }

  // ---- what the sorted lines mean ----

  /** One of s[1..n] has the number x. */
  ghost predicate Has(s: seq<Line>, n: int, x: int) {
    exists k :: 1 <= k <= n < |s| && s[k].serial == x
  }

  /** s[1..n] holds the lines of u, each once, with their line numbers. */
  ghost predicate Tags(s: seq<Line>, u: seq<int>) {
    && |u| < |s|
    && (forall k :: 1 <= k <= |u| ==> 1 <= s[k].serial <= |u| && s[k].value == u[s[k].serial - 1])
    && (forall k, k' :: 1 <= k < k' <= |u| ==> s[k].serial != s[k'].serial)
    && (forall x :: 1 <= x <= |u| ==> Has(s, |u|, x))
  }

  lemma TwiceInMultiset(s: seq<Line>, i: int, j: int)
    requires 0 <= i < j < |s| && s[i] == s[j]
    ensures multiset(s)[s[i]] >= 2
  {
    assert s == s[..i] + [s[i]] + s[i + 1..j] + [s[j]] + s[j + 1..];
  }

  lemma OnceInMultiset(s: seq<Line>, i: int)
    requires 0 <= i < |s| && forall k :: 0 <= k < |s| && k != i ==> s[k] != s[i]
    ensures multiset(s)[s[i]] == 1
  {
    assert s == s[..i] + [s[i]] + s[i + 1..];
    assert s[i] !in s[..i] && s[i] !in s[i + 1..];
  }

  lemma MiddleMultiset(s: seq<Line>, t: seq<Line>, n: int)
    requires |s| == |t| > n >= 0 && multiset(s) == multiset(t)
    requires forall k :: 0 <= k < |s| && !(1 <= k <= n) ==> s[k] == t[k]
    ensures multiset(s[1..n + 1]) == multiset(t[1..n + 1])
  {
    Middle(s, n);
    Middle(t, n);
    assert s[..1] == t[..1] && s[n + 1..] == t[n + 1..];
  }

  lemma Middle(s: seq<Line>, n: int)
    requires |s| > n >= 0
    ensures multiset(s[1..n + 1]) == multiset(s) - multiset(s[..1]) - multiset(s[n + 1..])
  {
    assert s == s[..1] + s[1..n + 1] + s[n + 1..];
  }

  /** Any rearrangement of the numbered lines of u holds each of them once. */
  lemma RearrangedTags(s: seq<Line>, t: seq<Line>, u: seq<int>)
    requires |s| == |t| > |u| && multiset(s) == multiset(t)
    requires forall k :: 0 <= k < |s| && !(1 <= k <= |u|) ==> s[k] == t[k]
    requires forall k :: 1 <= k <= |u| ==> s[k] == Line(k, u[k - 1])
    ensures Tags(t, u)
  {
    var n := |u|;
    var ms, mt := s[1..n + 1], t[1..n + 1];
    MiddleMultiset(s, t, n);
    forall k | 1 <= k <= n
      ensures 1 <= t[k].serial <= n && t[k].value == u[t[k].serial - 1]
    {
      TagAt(ms, mt, u, k);
    }
    forall k, k' | 1 <= k < k' <= n
      ensures t[k].serial != t[k'].serial
    {
      TagOnce(ms, mt, u, k, k');
    }
    forall x | 1 <= x <= n
      ensures Has(t, n, x)
    {
      assert ms[x - 1] in multiset(ms);
      assert ms[x - 1] in mt;
      var k :| 0 <= k < n && mt[k] == ms[x - 1];
      assert t[k + 1].serial == x;
    }
  }

  lemma TagAt(ms: seq<Line>, mt: seq<Line>, u: seq<int>, k: int)
    requires |ms| == |mt| == |u| && multiset(ms) == multiset(mt) && 1 <= k <= |u|
    requires forall i :: 0 <= i < |u| ==> ms[i] == Line(i + 1, u[i])
    ensures 1 <= mt[k - 1].serial <= |u| && mt[k - 1] == ms[mt[k - 1].serial - 1]
  {
    assert mt[k - 1] in multiset(mt);
    assert mt[k - 1] in ms;
  }

  lemma TagOnce(ms: seq<Line>, mt: seq<Line>, u: seq<int>, k: int, k': int)
    requires |ms| == |mt| == |u| && multiset(ms) == multiset(mt) && 1 <= k < k' <= |u|
    requires forall i :: 0 <= i < |u| ==> ms[i] == Line(i + 1, u[i])
    ensures mt[k - 1].serial != mt[k' - 1].serial
  {
    TagAt(ms, mt, u, k);
    TagAt(ms, mt, u, k');
    if mt[k - 1].serial == mt[k' - 1].serial {
      TwiceInMultiset(mt, k - 1, k' - 1);
      OnceInMultiset(ms, mt[k - 1].serial - 1);
      assert false;
    }
  }

  /** How many of s[j..m] in a row have the value of s[j]. */
  ghost function RunLength(s: seq<Line>, m: int, j: int): (r: int)
    requires 1 <= j <= m < |s|
    ensures 1 <= r && j + r <= m + 1
    ensures forall k :: j <= k < j + r ==> s[k].value == s[j].value
    ensures j + r <= m ==> s[j + r].value != s[j].value
    decreases m - j
  {
    if j < m && s[j + 1].value == s[j].value
    then 1 + RunLength(s, m, j + 1)
    else 1
  }

  /** The line numbers of the class that starts at index j of the sorted lines s, or none. */
  ghost function ClassOf(s: seq<Line>, m: int, j: int): seq<int>
    requires 0 <= j <= m < |s|
  {
    if j == 0 then [] else seq(RunLength(s, m, j), t requires 0 <= t < RunLength(s, m, j) => s[j + t].serial)
  }

  /** The lines in a class have its value and increasing numbers. */
  lemma ClassAscends(s: seq<Line>, v: seq<int>, j: int)
    requires Tags(s, v) && Sorted(s, 1, |v| + 1) && 0 <= j <= |v|
    ensures Ascending(ClassOf(s, |v|, j), |v| + 1)
    ensures forall y :: y in ClassOf(s, |v|, j) ==> v[y - 1] == s[j].value
  {
    var ys := ClassOf(s, |v|, j);
    forall t | 0 <= t < |ys|
      ensures 1 <= ys[t] <= |v| && v[ys[t] - 1] == s[j].value && ys[t] == s[j + t].serial
    {
    }
    forall t, t' | 0 <= t < t' < |ys|
      ensures ys[t] < ys[t']
    {
      assert !Less(s[j + t'], s[j + t]) && s[j + t].serial != s[j + t'].serial;
    }
  }

  /** The class holds exactly the lines of v with the value. */
  lemma ClassIsMates(s: seq<Line>, v: seq<int>, val: int, j: int)
    requires Tags(s, v) && Sorted(s, 1, |v| + 1) && IsFirst(s, |v|, val, j)
    ensures Ascending(ClassOf(s, |v|, j), |v| + 1)
    ensures forall y :: y in ClassOf(s, |v|, j) <==> 1 <= y <= |v| && v[y - 1] == val
  {
    var ys := ClassOf(s, |v|, j);
    ClassAscends(s, v, j);
    forall y | 1 <= y <= |v| && v[y - 1] == val
      ensures y in ys
    {
      assert Has(s, |v|, y);
      var k :| 1 <= k <= |v| && s[k].serial == y;
      assert s[k].value == val;
      InRun(s, |v|, j, k);
      assert ys[k - j] == y;
    }
  }

  /** member lists the class. */
  lemma ClassIsListed(s: seq<Line>, v: seq<int>, c: seq<int>, val: int, j: int)
    requires Tags(s, v) && IsFirst(s, |v|, val, j) && j != 0
    requires |v| + 1 < |c| && c[|v| + 1] == -1 && forall k :: 1 <= k <= |v| ==> c[k] == Member(s, k)
    ensures Listed(c, j, ClassOf(s, |v|, j))
  {
    var ys := ClassOf(s, |v|, j);
    assert j > 1 ==> s[j - 1].value != val;
    forall t | 1 <= t < |ys|
      ensures c[j + t] == ys[t]
    {
      assert s[j + t].value == s[j].value && s[j + (t - 1)].value == s[j].value;
    }
    var e := |ys|;
    assert s[j + (e - 1)].value == s[j].value;
  }

  lemma InRun(s: seq<Line>, m: int, j: int, k: int)
    requires 1 <= j <= m < |s| && Sorted(s, 1, m + 1) && IsFirst(s, m, s[j].value, j)
    requires 1 <= k <= m && s[k].value == s[j].value
    ensures j <= k < j + RunLength(s, m, j)
  {
    var e := j + RunLength(s, m, j);
    if e <= m {
      assert !Less(s[e], s[j]);
    }
  }

  /** cls lists, for each line of u, the lines of v with its value. */
  ghost predicate MatesOf(cls: seq<seq<int>>, u: seq<int>, v: seq<int>) {
    && |cls| == |u|
    && forall i, y :: 0 <= i < |u| ==> (y in cls[i] <==> 1 <= y <= |v| && v[y - 1] == u[i])
  }

  /** Over such lists the subsequences that stone searches are the common subsequences of u and v. */
  lemma SubIsCommon(cls: seq<seq<int>>, u: seq<int>, v: seq<int>, ps: seq<Pair>)
    requires MatesOf(cls, u, v)
    ensures Sub(cls, |cls|, ps) <==> Common(u, v, ps)
  {
    forall k | 0 <= k < |ps| && 1 <= ps[k].x <= |u|
      ensures ps[k].y in cls[ps[k].x - 1] <==> Mates(u, v, ps[k])
    {
    }
  }
}
