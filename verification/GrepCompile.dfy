/**
 * The compiler of usr/src/cmd/grep.c, against the notation of regular
 * expressions.
 */
module GrepCompile {
  import opened GrepMatch

  const ESIZE := 256
  const NBRA := 9

  const STAR := 42
  const HAT := 94
  const POINT := 46
  const DOLLAR := 36
  const OPEN := 91
  const CLOSE := 93
  const DASH := 45
  const BACKSLASH := 92
  const LPAREN := 40
  const RPAREN := 41

  /** A pattern: characters other than NUL. */
  ghost predicate IsPattern(p: seq<int>) { forall k :: 0 <= k < |p| ==> 1 <= p[k] <= 255 }

  // ---- the notation: classes ----

  /** A member of a class, or a range of them. */
  datatype Piece = One(c: int) | Span(c: int, hi: int)

  /** pieces: what is between the brackets; next: where the pattern goes on. */
  datatype ClassRes = ClassOk(pieces: seq<Piece>, next: int) | ClassBad | ClassRun

  function Join(x: Piece, r: ClassRes): ClassRes { if r.ClassOk? then ClassOk([x] + r.pieces, r.next) else r }

  /** The members of a class from position i on; its first member is at f. A dash between two members is a range. */
  function ClassFrom(p: seq<int>, i: int, f: int): (r: ClassRes)
    requires 0 <= f <= i
    ensures r.ClassOk? ==> i < r.next <= |p|
    decreases |p| - i, 0
  {
    if i >= |p| then ClassBad
    else if p[i] == DASH && i > f && !(i + 1 < |p| && p[i + 1] == CLOSE) then
      if i + 1 >= |p| then ClassRun else Join(Span(p[i - 1], p[i + 1]), ClassNext(p, i + 2, f))
    else Join(One(p[i]), ClassNext(p, i + 1, f))
  }

  function ClassNext(p: seq<int>, i: int, f: int): (r: ClassRes)
    requires 0 <= f < i
    ensures r.ClassOk? ==> i < r.next <= |p|
    decreases |p| - i, 1
  {
    if i < |p| && p[i] == CLOSE then ClassOk([], i + 1) else ClassFrom(p, i, f)
  }

  // ---- the notation: expressions ----

  /** One element of a pattern: a class, or anything else, which is already an element to match. */
  datatype Item = Plain(e: Elem) | Class(neg: bool, pieces: seq<Piece>, star: bool)

  /** How a pattern ends: in order; wrongly; in a back-reference; or in the middle of a range or an escape. */
  datatype End = Done | Wrong | Refers | Beyond(range: bool)

  datatype Reading = Reading(items: seq<Item>, end: End)

  /** open: brackets not closed; numbra: brackets opened; closed: brackets closed. */
  datatype Br = Br(open: int, numbra: int, closed: int)

  /** One element, whether a star may follow it, and what comes after. */
  datatype Atom = Got(item: Item, star: bool, next: int, br: Br) | Stop(end: End)

  function Append(items: seq<Item>, r: Reading): Reading { Reading(items + r.items, r.end) }

  function Escape(p: seq<int>, k: int, br: Br): (a: Atom)
    requires 0 <= k
    ensures a.Got? ==> k < a.next <= |p|
  {
    if k >= |p| then Stop(Beyond(false))
    else if p[k] == LPAREN then
      if br.numbra >= NBRA then Stop(Wrong)
      else Got(Plain(Bra), false, k + 1, br.(open := br.open + 1, numbra := br.numbra + 1))
    else if p[k] == RPAREN then
      if br.open <= 0 then Stop(Wrong)
      else Got(Plain(Ket), false, k + 1, br.(open := br.open - 1, closed := br.closed + 1))
    else if 49 <= p[k] <= 57 then Stop(if p[k] - 49 >= br.closed then Wrong else Refers)
    else Got(Plain(Chr(p[k], false)), true, k + 1, br)
  }

  /** The class whose bracket ends before k. */
  function ClassAt(p: seq<int>, k: int, br: Br): (a: Atom)
    requires 0 <= k
    ensures a.Got? ==> k < a.next <= |p|
  {
    var neg := k < |p| && p[k] == HAT;
    var f := if neg then k + 1 else k;
    match ClassFrom(p, f, f)
    case ClassOk(pieces, next) => Got(Class(neg, pieces, false), true, next, br)
    case ClassBad => Stop(Wrong)
    case ClassRun => Stop(Beyond(true))
  }

  function AtomAt(p: seq<int>, k: int, br: Br): (a: Atom)
    requires 0 <= k < |p|
    ensures a.Got? ==> k < a.next <= |p|
  {
    if p[k] == POINT then Got(Plain(Dot(false)), true, k + 1, br)
    else if p[k] == STAR then Got(Plain(Chr(STAR, false)), false, k + 1, br)
    else if p[k] == DOLLAR && k + 1 == |p| then Got(Plain(Dol), false, k + 1, br)
    else if p[k] == OPEN then ClassAt(p, k + 1, br)
    else if p[k] == BACKSLASH then Escape(p, k + 1, br)
    else Got(Plain(Chr(p[k], false)), true, k + 1, br)
  }

  /** The first position from k on that is not a star. */
  function SkipStars(p: seq<int>, k: int): (n: int)
    requires 0 <= k
    ensures k <= n && (k <= |p| ==> n <= |p|)
    decreases |p| - k
  {
    if k < |p| && p[k] == STAR then SkipStars(p, k + 1) else k
  }

  function Star(e: Elem, star: bool): Elem {
    match e
    case Chr(c, _) => Chr(c, star)
    case Dot(_) => Dot(star)
    case Ccl(b, _) => Ccl(b, star)
    case _ => e
  }

  function WithStar(x: Item, star: bool): Item {
    match x
    case Class(neg, pieces, _) => Class(neg, pieces, star)
    case Plain(e) => Plain(Star(e, star))
  }

  /**
   * The expression from position k on. A star belongs to the one-character
   * element before it, and is a character itself where there is none.
   */
  function Items(p: seq<int>, k: int, br: Br): Reading
    requires 0 <= k
    decreases |p| - k
  {
    if k >= |p| then Reading([], Done)
    else
      match AtomAt(p, k, br)
      case Stop(end) => Reading([], end)
      case Got(x, star, next, br') =>
        if !star then Append([x], Items(p, next, br'))
        else
          var n := SkipStars(p, next);
          Append([WithStar(x, n > next)], Items(p, n, br'))
  }

  predicate Anchored(p: seq<int>) { p != [] && p[0] == HAT }

  function Read(p: seq<int>): Reading { Items(p, if Anchored(p) then 1 else 0, Br(0, 0, 0)) }

  // ---- what a pattern denotes ----

  predicate Between(lo: int, x: int, hi: int) { lo <= x <= hi }

  /** A range; an inverted one is its first character alone. */
  function Range(lo: int, hi: int): set<int> { {lo} + Below(lo, hi + 1) }

  function Below(lo: int, hi: int): set<int> { set x | lo <= x < hi && Between(lo, x, hi) }

  /** Characters of a class are taken modulo 128. */
  function BitsOf(x: Piece): set<int> {
    match x
    case One(c) => {c % 128}
    case Span(lo, hi) => Range(lo % 128, hi % 128)
  }

  function Bits(pieces: seq<Piece>): set<int> {
    if pieces == [] then {} else Bits(pieces[..|pieces| - 1]) + BitsOf(pieces[|pieces| - 1])
  }

  function Complement(bits: set<int>): set<int> { set x | 1 <= x < 128 && x !in bits }

  function ClassBits(neg: bool, pieces: seq<Piece>): set<int> { if neg then Complement(Bits(pieces)) else Bits(pieces) }

  function Denoted(x: Item): Elem {
    match x
    case Plain(e) => e
    case Class(neg, pieces, star) => Ccl(ClassBits(neg, pieces), star)
  }

  function DenotedAll(items: seq<Item>): (es: seq<Elem>)
    ensures |es| == |items| && forall k :: 0 <= k < |es| ==> es[k] == Denoted(items[k])
  {
    seq(|items|, k requires 0 <= k < |items| => Denoted(items[k]))
  }

  /** Bytes that an element takes in expbuf. */
  function SizeOf(x: Item): (n: int)
    ensures n > 0
  {
    match x
    case Class(_, _, _) => 17
    case Plain(e) => if e.Dot? || e.Dol? then 1 else 2
  }

  function Size(items: seq<Item>): (n: int)
    ensures n >= 0
  {
    if items == [] then 0 else Size(items[..|items| - 1]) + SizeOf(items[|items| - 1])
  }

  /**
   * What becomes of a pattern: an expression; an error message; a
   * back-reference, which is not modelled further; or a pattern that ends in
   * the middle of an escape or of a range, on which the compiler reads on
   * past the end.
   */
  datatype Parsed = Re(es: seq<Elem>) | Bad | BackRef | Runaway

  /** A pattern is refused exactly when it is wrong or what comes before its end does not fit. */
  function Outcome(r: Reading): Parsed {
    if Size(r.items) + (if r.end == Beyond(true) then 17 else 0) >= ESIZE then Bad
    else match r.end
      case Done => Re(DenotedAll(r.items))
      case Wrong => Bad
      case Refers => BackRef
      case Beyond(_) => Runaway
  }

  // ---- which patterns the matcher can be trusted with ----

  /** A class, not complemented, with a member that is 0 modulo 128, other than as the end of a range. */
  predicate Covers(x: Item) {
    x.Class? && !x.neg && exists n :: 0 <= n < |x.pieces| && x.pieces[n].c == 128
  }

  predicate Harmless(p: seq<int>) {
    var items := Read(p).items;
    forall k :: 0 <= k < |items| ==> !Covers(items[k])
  }

  ghost predicate Proper(x: Item) {
    match x
    case Plain(e) => !e.Ccl? && (e.Chr? ==> 1 <= e.c <= 255)
    case Class(_, pieces, _) => ProperPieces(pieces)
  }

  ghost predicate ProperPieces(pieces: seq<Piece>) {
    forall n :: 0 <= n < |pieces| ==> 1 <= pieces[n].c <= 255 && (pieces[n].Span? ==> 1 <= pieces[n].hi <= 255)
  }

  lemma {:induction false} ClassProper(p: seq<int>, i: int, f: int)
    requires IsPattern(p) && 0 <= f <= i
    ensures var r := ClassFrom(p, i, f); r.ClassOk? ==> ProperPieces(r.pieces)
    decreases |p| - i
  {
    if i < |p| {
      if p[i] == DASH && i > f && !(i + 1 < |p| && p[i + 1] == CLOSE) {
        if i + 1 < |p| {
          ClassProper(p, i + 2, f);
        }
      } else {
        ClassProper(p, i + 1, f);
      }
    }
  }

  lemma AtomProper(p: seq<int>, k: int, br: Br)
    requires IsPattern(p) && 0 <= k < |p|
    ensures var a := AtomAt(p, k, br); a.Got? ==> Proper(a.item) && (a.star <==> Single(Denoted(a.item)) && p[k] != STAR)
    ensures var a := AtomAt(p, k, br); a.Got? ==> WithStar(a.item, false) == a.item && (a.item == Plain(Dol) ==> a.next == |p|)
  {
    if p[k] == OPEN {
      var f := if k + 1 < |p| && p[k + 1] == HAT then k + 2 else k + 1;
      ClassProper(p, f, f);
    }
  }

  lemma {:induction false} ItemsProper(p: seq<int>, k: int, br: Br)
    requires IsPattern(p) && 0 <= k
    ensures forall n :: 0 <= n < |Items(p, k, br).items| ==> Proper(Items(p, k, br).items[n])
    decreases |p| - k
  {
    hide AtomAt;
    if k < |p| {
      AtomProper(p, k, br);
      var a := AtomAt(p, k, br);
      if a.Got? {
        ItemsProper(p, if a.star then SkipStars(p, a.next) else a.next, a.br);
      }
    }
  }

  lemma {:induction false} BitsHave(pieces: seq<Piece>, x: int)
    ensures x in Bits(pieces) <==> exists n :: 0 <= n < |pieces| && x in BitsOf(pieces[n])
  {
    hide BitsOf;
    if pieces != [] {
      BitsHave(pieces[..|pieces| - 1], x);
    }
  }

  lemma PieceZero(x: Piece)
    requires 1 <= x.c <= 255
    ensures 0 in BitsOf(x) <==> x.c == 128
  {
  }

  lemma ItemZero(x: Item)
    requires Proper(x)
    ensures Member(Denoted(x), 0) <==> Covers(x)
  {
    hide Bits, BitsOf;
    if x.Class? {
      BitsHave(x.pieces, 0);
      forall n | 0 <= n < |x.pieces|
        ensures 0 in BitsOf(x.pieces[n]) <==> x.pieces[n].c == 128
      {
        PieceZero(x.pieces[n]);
      }
    }
  }

  /** No element of the compiled expression matches NUL exactly when no plain class has the character 0200 as a member. */
  lemma WfIff(p: seq<int>)
    requires IsPattern(p)
    ensures Wf(DenotedAll(Read(p).items)) <==> Harmless(p)
  {
    hide Items, Covers, Member, Denoted, Proper;
    var items := Read(p).items;
    ItemsProper(p, if Anchored(p) then 1 else 0, Br(0, 0, 0));
    forall k | 0 <= k < |items|
      ensures Member(DenotedAll(items)[k], 0) <==> Covers(items[k])
    {
      ItemZero(items[k]);
    }
  }

  /** The class of 0200 alone: it is in no line of ASCII characters, but it matches the NUL after each. */
  lemma NulMatched(s: seq<int>)
    requires forall k :: 0 <= k < |s| ==> 1 <= s[k] <= 127
    ensures var p := [OPEN, 128, CLOSE];
            var es := [Ccl({0}, false)];
            && IsPattern(p) && Outcome(Read(p)) == Re(es) && !Harmless(p)
            && !Found(false, es, s) && Matches(es, s + [0], |s|) && !StaysIn(false, es, s)
  {
    var p, es := [OPEN, 128, CLOSE], [Ccl({0}, false)];
    var pieces, br := [One(128)], Br(0, 0, 0);
    assert ClassFrom(p, 1, 1) == ClassOk(pieces, 3) by { assert [One(128)] + [] == pieces; }
    assert AtomAt(p, 0, br) == Got(Class(false, pieces, false), true, 3, br);
    assert Items(p, 3, br) == Reading([], Done);
    var items := [Class(false, pieces, false)];
    assert Read(p) == Reading(items, Done);
    assert Bits(pieces) == {0} by { assert pieces[..0] == []; }
    assert Size(items) == 17 by { assert items[..0] == []; }
    assert DenotedAll(items) == es;
    assert items[0].pieces[0].c == 128;
    assert Accepts(es, s + [0], |s|, |s| + 1);
    LeavesAt(false, es, s, |s|);
  }

  // ---- the compiler ----

  function JoinSeq(pieces: seq<Piece>, r: ClassRes): ClassRes {
    if r.ClassOk? then ClassOk(pieces + r.pieces, r.next) else r
  }

  lemma JoinAll(pieces: seq<Piece>, x: Piece, r: ClassRes)
    ensures JoinSeq(pieces, Join(x, r)) == JoinSeq(pieces + [x], r)
    ensures Bits(pieces + [x]) == Bits(pieces) + BitsOf(x)
  {
    if r.ClassOk? {
      assert pieces + ([x] + r.pieces) == pieces + [x] + r.pieces;
    }
    assert (pieces + [x])[..|pieces|] == pieces;
  }

  /** One step through the members, of a range or of one. */
  lemma ClassStep(p: seq<int>, i: int, f: int, pieces: seq<Piece>)
    requires 0 <= f <= i < |p|
    ensures var range := p[i] == DASH && i > f && !(i + 1 < |p| && p[i + 1] == CLOSE);
            if range && i + 1 >= |p| then JoinSeq(pieces, ClassFrom(p, i, f)) == ClassRun
            else
              var x, next := if range then Span(p[i - 1], p[i + 1]) else One(p[i]), if range then i + 2 else i + 1;
              && JoinSeq(pieces, ClassFrom(p, i, f)) == JoinSeq(pieces + [x], ClassNext(p, next, f))
              && Bits(pieces + [x]) == Bits(pieces) + BitsOf(x)
  {
    hide Bits, BitsOf, ClassNext, JoinSeq;
    var range := p[i] == DASH && i > f && !(i + 1 < |p| && p[i + 1] == CLOSE);
    if !range {
      JoinAll(pieces, One(p[i]), ClassNext(p, i + 1, f));
    } else if i + 1 < |p| {
      JoinAll(pieces, Span(p[i - 1], p[i + 1]), ClassNext(p, i + 2, f));
    } else {
      RunIs(pieces);
    }
  }

  lemma RunIs(pieces: seq<Piece>)
    ensures JoinSeq(pieces, ClassRun) == ClassRun && JoinSeq(pieces, ClassBad) == ClassBad
  {
  }

  lemma ClassEnds(p: seq<int>, i: int, f: int, pieces: seq<Piece>)
    requires 0 <= f <= i
    ensures i >= |p| ==> JoinSeq(pieces, ClassFrom(p, i, f)) == ClassBad
    ensures f < i < |p| && p[i] == CLOSE ==> JoinSeq(pieces, ClassNext(p, i, f)) == ClassOk(pieces, i + 1)
    ensures f < i && !(i < |p| && p[i] == CLOSE) ==> ClassNext(p, i, f) == ClassFrom(p, i, f)
  {
    assert pieces + [] == pieces;
  }

  lemma PieceBits(p: seq<int>, i: int)
    requires 0 <= i < |p|
    ensures BitsOf(One(p[i])) == {p[i] % 128}
    ensures 0 < i < |p| - 1 ==> BitsOf(Span(p[i - 1], p[i + 1])) == Range(p[i - 1] % 128, p[i + 1] % 128)
  {
  }

  lemma JoinNone(r: ClassRes)
    ensures JoinSeq([], r) == r && Bits([]) == {}
  {
    assert r.ClassOk? ==> [] + r.pieces == r.pieces;
  }

  /** What is before the brackets of a class and what becomes of its bits. */
  method CompileClass(p: seq<int>, k: int, ghost br: Br) returns (end: End, bits: set<int>, sp: int)
    requires 0 <= k <= |p|
    ensures var a := ClassAt(p, k, br);
            if a.Stop? then end == a.end && end != Done
            else end == Done && sp == a.next && bits == ClassBits(a.item.neg, a.item.pieces)
  {
    hide Bits, ClassFrom, Complement;
    var neg := k < |p| && p[k] == HAT;
    end, bits, sp := CompileMembers(p, if neg then k + 1 else k);
    if end == Done && neg {
      bits := Complement(bits);
    }
  }

  /** The loop of compile over the members of a class. */
  method CompileMembers(p: seq<int>, f: int) returns (end: End, bits: set<int>, sp: int)
    requires 0 <= f <= |p|
    ensures match ClassFrom(p, f, f)
            case ClassOk(pieces, next) => end == Done && sp == next && bits == Bits(pieces)
            case ClassBad => end == Wrong
            case ClassRun => end == Beyond(true)
  {
    hide Range, Bits, BitsOf, ClassFrom, ClassNext, JoinSeq;
    sp, bits := f, {};
    ghost var want, pieces: seq<Piece> := ClassFrom(p, f, f), [];
    JoinNone(want);
    while true
      invariant f <= sp <= |p| && want == JoinSeq(pieces, ClassFrom(p, sp, f)) && bits == Bits(pieces)
      decreases |p| - sp
    {
      ClassEnds(p, sp, f, pieces);
      if sp >= |p| {
        end := Wrong;
        return;
      }
      ClassStep(p, sp, f, pieces);
      PieceBits(p, sp);
      var c := p[sp];
      sp := sp + 1;
      if c == DASH && sp > f + 1 && !(sp < |p| && p[sp] == CLOSE) {
        if sp >= |p| {
          end := Beyond(true);
          return;
        }
        pieces := pieces + [Span(p[sp - 2], p[sp])];
        c, bits := FillRange(bits, p[sp - 2] % 128, p[sp] % 128);
        sp := sp + 1;
      } else {
        pieces := pieces + [One(c)];
      }
      bits := bits + {c % 128};
      ClassEnds(p, sp, f, pieces);
      if sp < |p| && p[sp] == CLOSE {
        sp := sp + 1;
        end := Done;
        return;
      }
    }
  }

  /** The inner loop of compile for a range: the members below hi are put in, and c is left for the last. */
  method FillRange(bits0: set<int>, lo: int, hi: int) returns (c: int, bits: set<int>)
    ensures bits + {c} == bits0 + Range(lo, hi) && (c == lo || c == hi)
  {
    c, bits := lo, bits0;
    while c < hi
      invariant lo <= c && (c <= hi || c == lo) && bits == bits0 + Below(lo, c)
    {
      bits := bits + {c};
      c := c + 1;
    }
  }

  /** What is still to come when items have been written and k characters read; star: the last one may be starred. */
  ghost function Cont(p: seq<int>, k: int, br: Br, items: seq<Item>, star: bool): Reading
    requires 0 <= k && (star ==> items != [])
    decreases |p| - k
  {
    if star && k < |p| && p[k] == STAR
    then Cont(p, k + 1, br, items[|items| - 1 := WithStar(items[|items| - 1], true)], true)
    else Append(items, Items(p, k, br))
  }

  lemma {:induction false} ContStars(p: seq<int>, k: int, br: Br, items: seq<Item>)
    requires 0 <= k <= |p| && items != []
    ensures var n := SkipStars(p, k);
            var m := |items| - 1;
            Cont(p, k, br, items, true) ==
            Append(if n > k then items[m := WithStar(items[m], true)] else items, Items(p, n, br))
    decreases |p| - k
  {
    hide Items;
    if k < |p| && p[k] == STAR {
      var m := |items| - 1;
      var items' := items[m := WithStar(items[m], true)];
      ContStars(p, k + 1, br, items');
      assert items'[m := WithStar(items'[m], true)] == items';
    }
  }

  /** One element more, with the stars after it. */
  lemma ContAtom(p: seq<int>, k: int, br: Br, items: seq<Item>)
    requires 0 <= k < |p| && (AtomAt(p, k, br).Got? ==> AtomAt(p, k, br).item == WithStar(AtomAt(p, k, br).item, false))
    ensures var a := AtomAt(p, k, br);
            Append(items, Items(p, k, br)) ==
            if a.Stop? then Reading(items, a.end) else Cont(p, a.next, a.br, items + [a.item], a.star)
  {
    hide AtomAt;
    match AtomAt(p, k, br)
    case Stop(end) =>
      assert items + [] == items;
    case Got(x, star, next, br') =>
      var n := SkipStars(p, next);
      if star {
        ContStars(p, next, br', items + [x]);
        AppendTwo(items, [WithStar(x, n > next)], Items(p, n, br'));
        assert (items + [x])[|items| := WithStar(x, true)] == items + [WithStar(x, true)];
      } else {
        AppendTwo(items, [x], Items(p, next, br'));
      }
  }

  lemma AppendTwo(items: seq<Item>, more: seq<Item>, r: Reading)
    ensures Append(items, Append(more, r)) == Append(items + more, r)
  {
    assert items + (more + r.items) == items + more + r.items;
  }

  lemma ContStart(p: seq<int>, k: int, br: Br)
    requires 0 <= k
    ensures Cont(p, k, br, [], false) == Items(p, k, br)
  {
    assert [] + Items(p, k, br).items == Items(p, k, br).items;
  }

  lemma ContPlain(p: seq<int>, k: int, br: Br, items: seq<Item>, star: bool)
    requires 0 <= k && (star ==> items != []) && !(star && k < |p| && p[k] == STAR)
    ensures Cont(p, k, br, items, star) == Append(items, Items(p, k, br))
  {
    hide Items;
  }

  lemma ContEnd(p: seq<int>, k: int, br: Br, items: seq<Item>, star: bool)
    requires 0 <= k && |p| <= k && (star ==> items != [])
    ensures Cont(p, k, br, items, star) == Reading(items, Done)
  {
    assert items + [] == items;
  }

  lemma ContStar(p: seq<int>, k: int, br: Br, items: seq<Item>)
    requires 0 <= k < |p| && p[k] == STAR && items != []
    ensures Cont(p, k, br, items, true) == Cont(p, k + 1, br, items[|items| - 1 := WithStar(items[|items| - 1], true)], true)
  {
    hide Items;
  }

  lemma SizeMore(items: seq<Item>, x: Item)
    ensures Size(items + [x]) == Size(items) + SizeOf(x)
  {
    assert (items + [x])[..|items|] == items;
  }

  lemma SizeStar(items: seq<Item>)
    requires items != []
    ensures Size(items[|items| - 1 := WithStar(items[|items| - 1], true)]) == Size(items)
  {
    var m := |items| - 1;
    assert items[m := WithStar(items[m], true)][..m] == items[..m];
  }

  lemma {:induction false} SizeAppend(items: seq<Item>, more: seq<Item>)
    ensures Size(items + more) >= Size(items)
  {
    if more == [] {
      assert items + more == items;
    } else {
      var m := |more| - 1;
      assert items + more == items + more[..m] + [more[m]];
      SizeMore(items + more[..m], more[m]);
      SizeAppend(items, more[..m]);
    }
  }

  /** What has been written never gets shorter. */
  lemma ContSize(p: seq<int>, k: int, br: Br, items: seq<Item>, star: bool)
    requires 0 <= k && (star ==> items != [])
    ensures Size(Cont(p, k, br, items, star).items) >= Size(items)
    decreases |p| - k
  {
    hide Items, Size;
    if star && k < |p| && p[k] == STAR {
      SizeStar(items);
      ContSize(p, k + 1, br, items[|items| - 1 := WithStar(items[|items| - 1], true)], true);
    } else {
      SizeAppend(items, Items(p, k, br).items);
    }
  }

  /** What compile does with one character that is not a star to apply: an element and its size, or how it ends. */
  datatype Step = Put(e: Elem, n: int, next: int, br: Br) | Quit(end: End)

  /** The switch of compile. A class that would not fit is an error before it is read. */
  method CompileAtom(p: seq<int>, k: int, br: Br, ep: int) returns (a: Step)
    requires IsPattern(p) && 0 <= k < |p|
    ensures var at := AtomAt(p, k, br);
            if a.Put? then at.Got? && a.e == Denoted(at.item) && a.n == SizeOf(at.item) && a.next == at.next && a.br == at.br
            else if p[k] == OPEN && ep + 17 >= ESIZE then a == Quit(Wrong)
            else at.Stop? && a.end == at.end && a.end != Done
    ensures p[k] == OPEN && ep + 17 >= ESIZE ==> a.Quit?
  {
    hide ClassFrom, ClassBits;
    var c, sp := p[k], k + 1;
    if c == POINT {
      a := Put(Dot(false), 1, sp, br);
    } else if c == DOLLAR && sp == |p| {
      a := Put(Dol, 1, sp, br);
    } else if c == OPEN {
      if ep + 17 >= ESIZE {
        return Quit(Wrong);
      }
      var end, bits;
      end, bits, sp := CompileClass(p, sp, br);
      a := if end == Done then Put(Ccl(bits, false), 17, sp, br) else Quit(end);
    } else if c == BACKSLASH {
      if sp >= |p| {
        return Quit(Beyond(false));
      }
      c, sp := p[sp], sp + 1;
      if c == LPAREN {
        a := if br.numbra >= NBRA then Quit(Wrong) else Put(Bra, 2, sp, br.(open := br.open + 1, numbra := br.numbra + 1));
      } else if c == RPAREN {
        a := if br.open <= 0 then Quit(Wrong) else Put(Ket, 2, sp, br.(open := br.open - 1, closed := br.closed + 1));
      } else if 49 <= c <= 57 {
        a := Quit(if c - 49 >= br.closed then Wrong else Refers);
      } else {
        a := Put(Chr(c, false), 2, sp, br);
      }
    } else {
      a := Put(Chr(c, false), 2, sp, br);
    }
  }

  /** What compile answers when the switch has ended it with a reading of items. */
  function Answer(end: End): Parsed {
    match end
    case Wrong => Bad
    case Refers => BackRef
    case _ => Runaway
  }

  /** compile: character by character, with lastep at the last element that did not come from a star. */
  method Compile(p: seq<int>) returns (circf: bool, r: Parsed)
    requires IsPattern(p)
    ensures circf == Anchored(p) && r == Outcome(Read(p))
  {
    hide Items, Cont, AtomAt, Denoted, SizeOf, Size, WithStar;
    var sp, es: seq<Elem>, ep, lastep, br := 0, [], 0, -1, Br(0, 0, 0);
    circf := p != [] && p[0] == HAT;
    if circf {
      sp := 1;
    }
    ghost var want, star, items: seq<Item> := Items(p, sp, br), false, [];
    ContStart(p, sp, br);
    SizeNone();
    while true
      invariant 0 <= sp <= |p| && -1 <= lastep < |es| && es == DenotedAll(items) && ep == Size(items)
      invariant star <==> lastep >= 0 && Single(es[lastep])
      invariant star ==> lastep == |es| - 1
      invariant lastep >= 0 && es[lastep].Dol? ==> sp == |p|
      invariant Cont(p, sp, br, items, star) == want
      decreases |p| - sp
    {
      if ep >= ESIZE {
        ContSize(p, sp, br, items, star);
        return circf, Bad;
      }
      if sp >= |p| {
        ContEnd(p, sp, br, items, star);
        return circf, Re(es);
      }
      if p[sp] == STAR && !(lastep < 0 || es[lastep].Bra? || es[lastep].Ket?) {
        ContStar(p, sp, br, items);
        SizeStar(items);
        StarDenoted(items);
        es := es[lastep := Star(es[lastep], true)];
        items := items[lastep := WithStar(items[lastep], true)];
        sp := sp + 1;
        continue;
      }
      ContPlain(p, sp, br, items, star);
      AtomProper(p, sp, br);
      ContAtom(p, sp, br, items);
      var a := CompileAtom(p, sp, br, ep);
      if a.Quit? {
        QuitAnswer(p, sp, br, items, ep);
        return circf, Answer(a.end);
      }
      if p[sp] != STAR {
        lastep := |es|;
      }
      ghost var at := AtomAt(p, sp, br);
      SizeMore(items, at.item);
      DolIs(at.item);
      items, star := items + [at.item], at.star;
      es, ep, sp, br := es + [a.e], ep + a.n, a.next, a.br;
    }
  }

  lemma SizeNone()
    ensures Size([]) == 0
  {
  }

  lemma DolIs(x: Item)
    ensures Denoted(x).Dol? <==> x == Plain(Dol)
  {
  }

  lemma StarDenoted(items: seq<Item>)
    requires items != []
    ensures var m := |items| - 1;
            DenotedAll(items[m := WithStar(items[m], true)]) == DenotedAll(items)[m := Star(DenotedAll(items)[m], true)]
  {
    hide ClassBits;
  }

  /** When the switch ends the compiler, the answer is that for the whole pattern. */
  lemma QuitAnswer(p: seq<int>, k: int, br: Br, items: seq<Item>, ep: int)
    requires 0 <= k < |p| && ep == Size(items) && ep < ESIZE
    requires AtomAt(p, k, br).Got? ==> AtomAt(p, k, br).item == WithStar(AtomAt(p, k, br).item, false)
    ensures p[k] == OPEN && ep + 17 >= ESIZE ==> Outcome(Append(items, Items(p, k, br))) == Bad
    ensures AtomAt(p, k, br).Stop? && !(p[k] == OPEN && ep + 17 >= ESIZE) ==>
              Outcome(Append(items, Items(p, k, br))) == Answer(AtomAt(p, k, br).end)
  {
    hide Items, Size, Cont, ClassFrom, DenotedAll;
    ContAtom(p, k, br, items);
    var a := AtomAt(p, k, br);
    if a.Got? {
      SizeMore(items, a.item);
      ContSize(p, a.next, a.br, items + [a.item], a.star);
    }
  }

  lemma NoNulAll(p: seq<int>)
    requires IsPattern(p)
    ensures NoNul(DenotedAll(Read(p).items))
  {
    hide Items, Bits, BitsOf;
    ItemsProper(p, if Anchored(p) then 1 else 0, Br(0, 0, 0));
    var items := Read(p).items;
    forall k | 0 <= k < |items|
      ensures DenotedAll(items)[k].Chr? ==> DenotedAll(items)[k].c != 0
    {
      assert Proper(items[k]);
    }
  }

  /** A pattern with no plain class of 0200 keeps the matcher in every line. */
  lemma HarmlessStays(p: seq<int>, s: seq<int>)
    requires IsPattern(p) && Harmless(p)
    ensures StaysIn(Anchored(p), DenotedAll(Read(p).items), s)
  {
    WfIff(p);
    hide Harmless, Stays;
    forall i
      ensures Stays(DenotedAll(Read(p).items), s, i)
    {
      WfStays(DenotedAll(Read(p).items), s, i);
    }
  }

  /**
   * main and execute on one line: as long as the matcher does not go off the
   * line, a pattern that compile takes selects exactly the lines in which what
   * it denotes is found. On a line in which it is not found the matcher goes
   * off exactly when a beginning of it matches up to the end of the line and
   * is followed by a class with the character 0200; elsewhere only then.
   */
  method Grep(p: seq<int>, s: seq<int>) returns (selected: bool, off: bool, r: Parsed)
    requires IsPattern(p) && IsLine(s)
    ensures r == Outcome(Read(p)) && (r.Re? ==> r.es == DenotedAll(Read(p).items))
    ensures r.Re? && !off ==> (selected <==> Found(Anchored(p), r.es, s))
    ensures r.Re? && StaysIn(Anchored(p), r.es, s) ==> !off
    ensures r.Re? && !StaysIn(Anchored(p), r.es, s) && !Found(Anchored(p), r.es, s) ==> off
    ensures Harmless(p) ==> !off
  {
    hide Items, StaysIn, Found, Harmless, NoNul;
    var circf;
    selected, off := false, false;
    circf, r := Compile(p);
    if r.Re? {
      NoNulAll(p);
      if Harmless(p) {
        HarmlessStays(p, s);
      }
      selected, off := Search(circf, r.es, s);
    }
  }
}
