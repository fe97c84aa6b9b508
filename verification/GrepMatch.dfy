/**
 * The matcher of usr/src/cmd/grep.c: advance, and the search of execute,
 * for compiled expressions without back-references.
 */
module GrepMatch {

  /**
   * An element of a compiled expression. The numbers of brackets only serve
   * back-references and are left out. bits is the bit map of a class.
   */
  datatype Elem =
    | Chr(c: int, star: bool)
    | Dot(star: bool)
    | Ccl(bits: set<int>, star: bool)
    | Bra
    | Ket
    | Dol

  /** A line: characters other than NUL. */
  ghost predicate IsLine(s: seq<int>) { forall k :: 0 <= k < |s| ==> 1 <= s[k] <= 255 }

  predicate Single(e: Elem) { e.Chr? || e.Dot? || e.Ccl? }

  predicate Starred(e: Elem) { Single(e) && e.star }

  /** Character c is matched by a one-character element. */
  predicate Member(e: Elem, c: int) {
    match e
    case Chr(d, _) => c == d
    case Dot(_) => c != 0
    case Ccl(bits, _) => c % 128 in bits
    case _ => false
  }

  /** No element matches the NUL at the end of a line: what keeps the matcher on the line. */
  ghost predicate Wf(es: seq<Elem>) { forall k :: 0 <= k < |es| ==> !Member(es[k], 0) }

  // ---- what an expression matches ----

  /** All of s[i..k] is matched by e. */
  ghost predicate Run(e: Elem, s: seq<int>, i: int, k: int) {
    0 <= i <= k <= |s| && forall t :: i <= t < k ==> Member(e, s[t])
  }

  /** The expression matches s[i..j]. */
  ghost predicate Accepts(es: seq<Elem>, s: seq<int>, i: int, j: int)
    decreases |es|
  {
    if es == [] then i == j
    else if Starred(es[0]) then exists k :: Run(es[0], s, i, k) && Accepts(es[1..], s, k, j)
    else if Single(es[0]) then 0 <= i < |s| && Member(es[0], s[i]) && Accepts(es[1..], s, i + 1, j)
    else if es[0].Dol? then i == |s| && Accepts(es[1..], s, i, j)
    else Accepts(es[1..], s, i, j)
  }

  /** The expression matches some string that starts at i. */
  ghost predicate Matches(es: seq<Elem>, s: seq<int>, i: int) {
    exists j :: Accepts(es, s, i, j)
  }

  lemma {:induction false} AcceptsRange(es: seq<Elem>, s: seq<int>, i: int, j: int)
    requires Accepts(es, s, i, j) && 0 <= i <= |s|
    ensures i <= j <= |s|
    decreases |es|
  {
    if es != [] {
      if Starred(es[0]) {
        var k :| Run(es[0], s, i, k) && Accepts(es[1..], s, k, j);
        AcceptsRange(es[1..], s, k, j);
      } else if Single(es[0]) {
        AcceptsRange(es[1..], s, i + 1, j);
      } else {
        AcceptsRange(es[1..], s, i, j);
      }
    }
  }

  // One lemma for each kind of element: what matching it comes down to.

  lemma MatchSingle(es: seq<Elem>, s: seq<int>, i: int)
    requires es != [] && Single(es[0]) && !es[0].star && 0 <= i <= |s|
    ensures Matches(es, s, i) <==> i < |s| && Member(es[0], s[i]) && Matches(es[1..], s, i + 1)
  {
    if Matches(es, s, i) {
      var j :| Accepts(es, s, i, j);
      assert Accepts(es[1..], s, i + 1, j);
    }
    if i < |s| && Member(es[0], s[i]) && Matches(es[1..], s, i + 1) {
      var j :| Accepts(es[1..], s, i + 1, j);
      assert Accepts(es, s, i, j);
    }
  }

  lemma MatchMark(es: seq<Elem>, s: seq<int>, i: int)
    requires es != [] && (es[0].Bra? || es[0].Ket?)
    ensures Matches(es, s, i) <==> Matches(es[1..], s, i)
  {
    if Matches(es, s, i) {
      var j :| Accepts(es, s, i, j);
      assert Accepts(es[1..], s, i, j);
    }
    if Matches(es[1..], s, i) {
      var j :| Accepts(es[1..], s, i, j);
      assert Accepts(es, s, i, j);
    }
  }

  lemma MatchDol(es: seq<Elem>, s: seq<int>, i: int)
    requires es != [] && es[0].Dol?
    ensures Matches(es, s, i) <==> i == |s| && Matches(es[1..], s, i)
  {
    if Matches(es, s, i) {
      var j :| Accepts(es, s, i, j);
      assert Accepts(es[1..], s, i, j);
    }
    if i == |s| && Matches(es[1..], s, i) {
      var j :| Accepts(es[1..], s, i, j);
      assert Accepts(es, s, i, j);
    }
  }

  lemma MatchNone(s: seq<int>, i: int)
    ensures Matches([], s, i)
  {
    assert Accepts([], s, i, i);
  }

  /** With a longest run from i to e, a starred element matches one of its parts. */
  lemma MatchStar(es: seq<Elem>, s: seq<int>, i: int, e: int)
    requires es != [] && Starred(es[0]) && Run(es[0], s, i, e) && (e == |s| || !Member(es[0], s[e]))
    ensures Matches(es, s, i) <==> exists k :: i <= k <= e && Matches(es[1..], s, k)
  {
    if Matches(es, s, i) {
      var j :| Accepts(es, s, i, j);
      var k :| Run(es[0], s, i, k) && Accepts(es[1..], s, k, j);
      assert Matches(es[1..], s, k);
      assert k <= e;
    }
    if exists k :: i <= k <= e && Matches(es[1..], s, k) {
      var k :| i <= k <= e && Matches(es[1..], s, k);
      var j :| Accepts(es[1..], s, k, j);
      assert Run(es[0], s, i, k);
      assert Accepts(es, s, i, j);
    }
  }

  // ---- whether the matcher stays in the line ----

  /** An expression has no NUL among its characters; a class may match one. */
  ghost predicate NoNul(es: seq<Elem>) { forall k :: 0 <= k < |es| ==> es[k].Chr? ==> es[k].c != 0 }

  /**
   * However a beginning of the expression matches from i on, when it comes to
   * the end of the line the next element does not match the NUL there.
   */
  ghost predicate Stays(es: seq<Elem>, s: seq<int>, i: int)
    decreases |es|
  {
    if es == [] then true
    else if Starred(es[0]) then
      && (Run(es[0], s, i, |s|) ==> !Member(es[0], 0))
      && forall k :: Run(es[0], s, i, k) ==> Stays(es[1..], s, k)
    else if Single(es[0]) then
      && (i == |s| ==> !Member(es[0], 0))
      && (0 <= i < |s| && Member(es[0], s[i]) ==> Stays(es[1..], s, i + 1))
    else if es[0].Dol? then i == |s| ==> Stays(es[1..], s, i)
    else Stays(es[1..], s, i)
  }

  lemma StaySingle(es: seq<Elem>, s: seq<int>, i: int)
    requires es != [] && Single(es[0]) && !es[0].star && 0 <= i <= |s|
    ensures i == |s| && Member(es[0], 0) ==> !Stays(es, s, i)
    ensures !Member(es[0], At(s, i)) ==> Stays(es, s, i)
    ensures i < |s| && Member(es[0], s[i]) ==> (Stays(es, s, i) <==> Stays(es[1..], s, i + 1))
  {
  }

  lemma StayMark(es: seq<Elem>, s: seq<int>, i: int)
    requires es != [] && (es[0].Bra? || es[0].Ket? || (es[0].Dol? && i == |s|))
    ensures Stays(es, s, i) <==> Stays(es[1..], s, i)
  {
  }

  lemma StayDol(es: seq<Elem>, s: seq<int>, i: int)
    requires es != [] && es[0].Dol? && i != |s|
    ensures Stays(es, s, i)
  {
  }

  lemma StayStar(es: seq<Elem>, s: seq<int>, i: int, e: int)
    requires es != [] && Starred(es[0]) && Run(es[0], s, i, e) && !Member(es[0], At(s, e))
    ensures Stays(es, s, i) <==> forall k :: i <= k <= e ==> Stays(es[1..], s, k)
  {
    assert e < |s| ==> At(s, e) == s[e];
    assert Run(es[0], s, i, |s|) ==> e == |s| && !Member(es[0], 0);
    StarUnfold(es, s, i);
    hide Stays;
    forall k
      ensures Run(es[0], s, i, k) <==> i <= k <= e
    {
    }
  }

  lemma StarUnfold(es: seq<Elem>, s: seq<int>, i: int)
    requires es != [] && Starred(es[0])
    ensures Stays(es, s, i) <==> (Run(es[0], s, i, |s|) ==> !Member(es[0], 0)) && forall k :: Run(es[0], s, i, k) ==> Stays(es[1..], s, k)
  {
  }

  lemma StayNone(s: seq<int>, i: int)
    ensures Stays([], s, i)
  {
  }

  /** If no element matches NUL the matcher stays in every line. */
  lemma {:induction false} WfStays(es: seq<Elem>, s: seq<int>, i: int)
    requires Wf(es)
    ensures Stays(es, s, i)
    decreases |es|
  {
    if es != [] {
      assert Wf(es[1..]);
      forall k
        ensures Stays(es[1..], s, k)
      {
        WfStays(es[1..], s, k);
      }
    }
  }

  // ---- advance ----

  /** The character at k; a line ends with NUL. */
  function At(s: seq<int>, k: int): int
    requires 0 <= k
  {
    if k < |s| then s[k] else 0
  }

  /** The loops that run over what a starred element matches; off when they come past the NUL. */
  method LongestRun(s: seq<int>, e: Elem, i: int) returns (k: int, off: bool)
    requires 0 <= i <= |s|
    ensures off ==> Run(e, s, i, |s|) && Member(e, 0)
    ensures !off ==> Run(e, s, i, k) && !Member(e, At(s, k)) && (k == |s| || !Member(e, s[k]))
  {
    k, off := i, false;
    while Member(e, At(s, k))
      invariant Run(e, s, i, k)
      decreases |s| - k
    {
      if k == |s| {
        return k, true;
      }
      k := k + 1;
    }
  }

  /**
   * advance: whether the expression from element ep on matches from lp on;
   * off when it steps over the NUL at the end of the line. What it does then
   * depends on what is in memory there.
   */
  method Advance(s: seq<int>, es: seq<Elem>, lp0: int, ep0: int) returns (r: bool, off: bool)
    requires IsLine(s) && NoNul(es) && 0 <= lp0 <= |s| && 0 <= ep0 <= |es|
    ensures off ==> !Stays(es[ep0..], s, lp0)
    ensures !off ==> (r <==> Matches(es[ep0..], s, lp0)) && (!r ==> Stays(es[ep0..], s, lp0))
    decreases |es| - ep0, 1
  {
    hide Matches, Stays, NoNul;
    var lp, ep := lp0, ep0;
    off := false;
    while ep < |es|
      invariant 0 <= lp <= |s| && ep0 <= ep <= |es| && !off
      invariant Matches(es[ep..], s, lp) <==> Matches(es[ep0..], s, lp0)
      invariant Stays(es[ep..], s, lp) <==> Stays(es[ep0..], s, lp0)
    {
      var e := es[ep];
      assert es[ep..][0] == e && es[ep..][1..] == es[ep + 1..];
      if Starred(e) {
        var curlp := lp;
        lp, off := LongestRun(s, e, curlp);
        if off {
          StayOff(es[ep..], s, curlp);
          return false, true;
        }
        MatchStar(es[ep..], s, curlp, lp);
        StayStar(es[ep..], s, curlp, lp);
        ep := ep + 1;
        if lp == curlp {
          continue;
        }
        r, off := Backtrack(s, es, curlp, lp, ep);
        return;
      } else if Single(e) {
        MatchSingle(es[ep..], s, lp);
        StaySingle(es[ep..], s, lp);
        if !Member(e, At(s, lp)) {
          return false, false;
        }
        if lp == |s| {
          return false, true;
        }
        lp := lp + 1;
      } else if e.Dol? {
        MatchDol(es[ep..], s, lp);
        if At(s, lp) != 0 {
          StayDol(es[ep..], s, lp);
          return false, false;
        }
        StayMark(es[ep..], s, lp);
      } else {
        MatchMark(es[ep..], s, lp);
        StayMark(es[ep..], s, lp);
      }
      ep := ep + 1;
    }
    assert es[ep..] == [];
    MatchNone(s, lp);
    StayNone(s, lp);
    r := true;
  }

  lemma StayOff(es: seq<Elem>, s: seq<int>, i: int)
    requires es != [] && Starred(es[0]) && Run(es[0], s, i, |s|) && Member(es[0], 0)
    ensures !Stays(es, s, i)
  {
  }

  /** The loops after the label star: each end of the run, from the longest on. */
  method Backtrack(s: seq<int>, es: seq<Elem>, curlp: int, end: int, ep: int) returns (r: bool, off: bool)
    requires IsLine(s) && NoNul(es) && 0 <= curlp <= end <= |s| && 0 <= ep <= |es|
    ensures off ==> exists k :: curlp <= k <= end && !Stays(es[ep..], s, k)
    ensures !off ==> (r <==> exists k :: curlp <= k <= end && Matches(es[ep..], s, k))
    ensures !off && !r ==> forall k :: curlp <= k <= end ==> Stays(es[ep..], s, k)
    decreases |es| - ep, 2
  {
    hide Matches, Stays, NoNul;
    var lp := end;
    var fast := ep < |es| && es[ep].Chr? && !es[ep].star;
    while lp >= curlp
      invariant curlp - 1 <= lp <= end
      invariant forall k :: lp < k <= end ==> !Matches(es[ep..], s, k) && Stays(es[ep..], s, k)
    {
      if fast && At(s, lp) != es[ep].c {
        MatchSingle(es[ep..], s, lp);
        StaySingle(es[ep..], s, lp);
      } else {
        r, off := Advance(s, es, lp, ep);
        if off || r {
          return;
        }
      }
      lp := lp - 1;
    }
    r, off := false, false;
  }

  // ---- the search of execute ----

  /** Some part of the line matches; from its start if the expression is anchored. */
  ghost predicate Found(circf: bool, es: seq<Elem>, s: seq<int>) {
    exists i, j :: 0 <= i <= j <= |s| && (circf ==> i == 0) && Accepts(es, s, i, j)
  }

  lemma FoundAt(circf: bool, es: seq<Elem>, s: seq<int>, i: int)
    requires 0 <= i <= |s| && (circf ==> i == 0) && Matches(es, s, i)
    ensures Found(circf, es, s)
  {
    var j :| Accepts(es, s, i, j);
    AcceptsRange(es, s, i, j);
  }

  lemma NotFound(circf: bool, es: seq<Elem>, s: seq<int>)
    requires forall i :: 0 <= i <= |s| && (circf ==> i == 0) ==> !Matches(es, s, i)
    ensures !Found(circf, es, s)
  {
    if Found(circf, es, s) {
      var i, j :| 0 <= i <= j <= |s| && (circf ==> i == 0) && Accepts(es, s, i, j);
      assert Matches(es, s, i);
    }
  }

  /** From wherever it starts, the matcher stays in the line. */
  ghost predicate StaysIn(circf: bool, es: seq<Elem>, s: seq<int>) {
    forall i :: 0 <= i <= |s| && (circf ==> i == 0) ==> Stays(es, s, i)
  }

  lemma LeavesAt(circf: bool, es: seq<Elem>, s: seq<int>, i: int)
    requires 0 <= i <= |s| && (circf ==> i == 0) && !Stays(es, s, i)
    ensures !StaysIn(circf, es, s)
  {
  }

  /**
   * Whether the line is to be printed; an expression that starts with a
   * character is only tried where it occurs. On a line that is not to be
   * printed the matcher goes off exactly when it does not stay in the line.
   */
  method Search(circf: bool, es: seq<Elem>, s: seq<int>) returns (r: bool, off: bool)
    requires IsLine(s) && NoNul(es)
    ensures off ==> !StaysIn(circf, es, s)
    ensures !off ==> (r <==> Found(circf, es, s)) && (!r ==> StaysIn(circf, es, s))
  {
    hide Matches, Found, Stays, NoNul;
    assert es[0..] == es;
    if circf {
      r, off := Advance(s, es, 0, 0);
      if off {
        LeavesAt(circf, es, s, 0);
      } else if r {
        FoundAt(circf, es, s, 0);
      } else {
        NotFound(circf, es, s);
      }
      return;
    }
    var fast := es != [] && es[0].Chr? && !es[0].star;
    var p1 := 0;
    while p1 <= |s|
      invariant 0 <= p1 <= |s| + 1
      invariant forall i :: 0 <= i < p1 ==> !Matches(es, s, i) && Stays(es, s, i)
    {
      if fast && At(s, p1) != es[0].c {
        MatchSingle(es, s, p1);
        StaySingle(es, s, p1);
      } else {
        r, off := Advance(s, es, p1, 0);
        if off {
          LeavesAt(circf, es, s, p1);
          return;
        }
        if r {
          FoundAt(circf, es, s, p1);
          return;
        }
      }
      p1 := p1 + 1;
    }
    NotFound(circf, es, s);
    r, off := false, false;
  }
}
