/**
 * The regular expressions that a user of usr/src/cmd/grep.c writes: their
 * parts, how they are written, and what they match in a line, without the
 * compiled form.
 */
module GrepNotation {
  import opened GrepMatch
  import opened GrepCompile

  /** A member of a class, or a range of them, of ASCII characters. */
  datatype Choice = Only(c: int) | From(lo: int, hi: int)

  /** A part of an expression. esc: written with a backslash; stars: how many stars follow. */
  datatype Part =
    | Lit(c: int, esc: bool, stars: nat)
    | Any(stars: nat)
    | OneOf(neg: bool, cs: seq<Choice>, stars: nat)
    | Mark(open: bool)

  /** front: only at the beginning of the line; back: only at its end. */
  datatype Notation = Notation(front: bool, parts: seq<Part>, back: bool)

  // ---- how it is written ----

  function Stars(n: nat): seq<int> { if n == 0 then [] else ['*' as int] + Stars(n - 1) }

  function ShowChoice(x: Choice): seq<int> {
    match x
    case Only(c) => [c]
    case From(lo, hi) => [lo, '-' as int, hi]
  }

  function ShowChoices(cs: seq<Choice>): seq<int> { if cs == [] then [] else ShowChoice(cs[0]) + ShowChoices(cs[1..]) }

  function ShowPart(x: Part): seq<int> {
    match x
    case Lit(c, esc, stars) => (if esc then ['\\' as int] else []) + [c] + Stars(stars)
    case Any(stars) => ['.' as int] + Stars(stars)
    case OneOf(neg, cs, stars) => ['[' as int] + (if neg then ['^' as int] else []) + ShowChoices(cs) + [']' as int] + Stars(stars)
    case Mark(open) => ['\\' as int, if open then '(' as int else ')' as int]
  }

  function ShowParts(parts: seq<Part>, back: bool): seq<int> {
    if parts == [] then if back then ['$' as int] else []
    else ShowPart(parts[0]) + ShowParts(parts[1..], back)
  }

  function Show(e: Notation): seq<int> { (if e.front then ['^' as int] else []) + ShowParts(e.parts, e.back) }

  // ---- what can be written ----

  /** A closing bracket comes first in a class if at all, and a dash first or last. */
  predicate ChoiceOk(x: Choice, first: bool, last: bool) {
    match x
    case Only(c) => 1 <= c < 128 && (c == ']' as int ==> first) && (c == '-' as int ==> first || last)
    case From(lo, hi) => 1 <= lo < 128 && 1 <= hi < 128 && hi != ']' as int && (lo == ']' as int || lo == '-' as int ==> first)
  }

  predicate ChoicesOk(cs: seq<Choice>, first: bool) {
    cs == [] || (ChoiceOk(cs[0], first, |cs| == 1) && ChoicesOk(cs[1..], false))
  }

  /**
   * A special character is written with a backslash, but a star where there is
   * nothing to repeat (bare), and a dollar sign elsewhere than at the end.
   */
  predicate PartOk(x: Part, bare: bool, last: bool) {
    match x
    case Lit(c, esc, stars) =>
      && 1 <= c <= 255
      && if esc then c != '(' as int && c != ')' as int && !('1' as int <= c <= '9' as int)
         else
           && c != '\\' as int && c != '[' as int && c != '.' as int
           && (c == '*' as int ==> bare && stars == 0) && (c == '$' as int ==> stars > 0 || !last)
    case OneOf(neg, cs, _) => cs != [] && ChoicesOk(cs, true) && (!neg ==> ShowChoice(cs[0])[0] != '^' as int)
    case _ => true
  }

  predicate BareAfter(x: Part) { x.Mark? || (x.Lit? && !x.esc && x.c == '*' as int) }

  /** At most nine brackets are opened, and only open ones closed. */
  predicate Tidy(parts: seq<Part>, back: bool, bare: bool, open: nat, numbra: nat) {
    parts == [] ||
    (&& PartOk(parts[0], bare, |parts| == 1 && !back)
     && if !parts[0].Mark? then Tidy(parts[1..], back, BareAfter(parts[0]), open, numbra)
        else if parts[0].open then numbra < 9 && Tidy(parts[1..], back, true, open + 1, numbra + 1)
        else open > 0 && Tidy(parts[1..], back, true, open - 1, numbra))
  }

  predicate Writable(e: Notation) {
    && Tidy(e.parts, e.back, true, 0, 0)
    && (!e.front && e.parts != [] && e.parts[0].Lit? && !e.parts[0].esc ==> e.parts[0].c != '^' as int)
  }

  // ---- what it matches ----

  /** The member of a class takes the character c; of an inverted range only the first is there. */
  predicate Picks(x: Choice, c: int) {
    match x
    case Only(d) => c == d
    case From(lo, hi) => c == lo || lo <= c <= hi
  }

  predicate Picked(cs: seq<Choice>, c: int) { exists k :: 0 <= k < |cs| && Picks(cs[k], c) }

  /** A part takes a character of the line; classes look at its lower seven bits. */
  predicate Fits(x: Part, c: int) {
    match x
    case Lit(d, _, _) => c == d
    case Any(_) => true
    case OneOf(neg, cs, _) => if neg then c % 128 != 0 && !Picked(cs, c % 128) else Picked(cs, c % 128)
    case Mark(_) => false
  }

  predicate AllFit(x: Part, s: seq<int>, i: int, k: int) { 0 <= i <= k <= |s| && forall t :: i <= t < k ==> Fits(x, s[t]) }

  /** The parts take s[i..j], one after the other. */
  ghost predicate Spans(parts: seq<Part>, s: seq<int>, i: int, j: int) {
    if parts == [] then i == j
    else if parts[0].Mark? then Spans(parts[1..], s, i, j)
    else if parts[0].stars > 0 then exists k :: AllFit(parts[0], s, i, k) && Spans(parts[1..], s, k, j)
    else 0 <= i < |s| && Fits(parts[0], s[i]) && Spans(parts[1..], s, i + 1, j)
  }

  /** The expression is in the line. */
  ghost predicate Selects(e: Notation, s: seq<int>) {
    exists i, j :: 0 <= i <= j <= |s| && (e.front ==> i == 0) && (e.back ==> j == |s|) && Spans(e.parts, s, i, j)
  }

  /** The bytes that it takes in expbuf. */
  function Cost(parts: seq<Part>): nat {
    if parts == [] then 0
    else Cost(parts[1..]) + match parts[0] case Any(_) => 1 case OneOf(_, _, _) => 17 case _ => 2
  }

  // ---- how it is read ----

  function PiecesOf(cs: seq<Choice>): seq<Piece> {
    if cs == [] then []
    else
      match cs[0]
      case Only(c) => [One(c)] + PiecesOf(cs[1..])
      case From(lo, hi) => [One(lo)] + ([Span(lo, hi)] + PiecesOf(cs[1..]))
  }

  function ItemOf(x: Part): Item {
    match x
    case Lit(c, _, stars) => Plain(Chr(c, stars > 0))
    case Any(stars) => Plain(Dot(stars > 0))
    case OneOf(neg, cs, stars) => Class(neg, PiecesOf(cs), stars > 0)
    case Mark(open) => Plain(if open then Bra else Ket)
  }

  function ItemsOf(parts: seq<Part>, back: bool): seq<Item> {
    if parts == [] then if back then [Plain(Dol)] else [] else [ItemOf(parts[0])] + ItemsOf(parts[1..], back)
  }

  /** From k on the pattern is w and what is left from its end on. */
  ghost predicate Holds(p: seq<int>, k: int, w: seq<int>) { 0 <= k && k + |w| <= |p| && p[k..k + |w|] == w }

  lemma HoldsTwo(p: seq<int>, k: int, v: seq<int>, w: seq<int>)
    requires Holds(p, k, v + w)
    ensures Holds(p, k, v) && Holds(p, k + |v|, w)
  {
    assert p[k..k + |v|] == (v + w)[..|v|] == v;
    assert p[k + |v|..k + |v + w|] == (v + w)[|v|..] == w;
  }

  lemma HoldsOne(p: seq<int>, k: int, c: int, w: seq<int>)
    requires Holds(p, k, [c] + w)
    ensures 0 <= k < |p| && p[k] == c && Holds(p, k + 1, w)
  {
    HoldsTwo(p, k, [c], w);
    assert p[k..k + 1][0] == c;
  }

  lemma {:induction false} StarsRead(p: seq<int>, k: int, n: nat)
    requires Holds(p, k, Stars(n)) && (k + n < |p| ==> p[k + n] != STAR)
    ensures |Stars(n)| == n && SkipStars(p, k) == k + n
    decreases n
  {
    if n > 0 {
      HoldsOne(p, k, '*' as int, Stars(n - 1));
      StarsLength(n - 1);
      StarsRead(p, k + 1, n - 1);
    }
  }

  lemma {:induction false} StarsLength(n: nat)
    ensures |Stars(n)| == n
  {
    if n > 0 {
      StarsLength(n - 1);
    }
  }

  /** One member of a class. */
  lemma OnlyRead(p: seq<int>, i: int, f: int, c: int, r: ClassRes)
    requires 0 <= f <= i < |p| && p[i] == c && (c == DASH && i > f ==> i + 1 < |p| && p[i + 1] == CLOSE)
    requires ClassNext(p, i + 1, f) == r
    ensures ClassFrom(p, i, f) == Join(One(c), r)
  {
  }

  lemma FromRead(p: seq<int>, i: int, f: int, lo: int, hi: int, r: ClassRes)
    requires 0 <= f <= i && i + 2 < |p| && p[i] == lo && p[i + 1] == DASH && p[i + 2] == hi && hi != CLOSE && (lo == DASH ==> i == f)
    requires ClassNext(p, i + 3, f) == r
    ensures ClassFrom(p, i, f) == Join(One(lo), Join(Span(lo, hi), r))
  {
    assert ClassFrom(p, i + 1, f) == Join(Span(lo, hi), ClassNext(p, i + 3, f));
  }

  lemma FromShown(lo: int, hi: int, rest: seq<int>)
    ensures ShowChoice(From(lo, hi)) + rest == [lo] + ([DASH] + ([hi] + rest))
  {
  }

  lemma ChoicesShown(cs: seq<Choice>)
    requires cs != []
    ensures ShowChoices(cs) + [CLOSE] == ShowChoice(cs[0]) + (ShowChoices(cs[1..]) + [CLOSE])
    ensures |ShowChoices(cs)| == |ShowChoice(cs[0])| + |ShowChoices(cs[1..])|
  {
    hide ShowChoice;
  }

  lemma ChoicesPieces(cs: seq<Choice>, next: int)
    requires cs != []
    ensures ClassOk(PiecesOf(cs), next) ==
            match cs[0]
            case Only(c) => Join(One(c), ClassOk(PiecesOf(cs[1..]), next))
            case From(lo, hi) => Join(One(lo), Join(Span(lo, hi), ClassOk(PiecesOf(cs[1..]), next)))
  {
  }

  lemma Regroup<T>(x: T, v: seq<T>, w: seq<T>)
    ensures [x] + v + w == [x] + (v + w) && ([x] + v + w)[1..] == v + w
  {
  }

  /** The members of a class, up to its bracket. */
  lemma {:induction false} ClassRead(p: seq<int>, i: int, f: int, cs: seq<Choice>)
    requires 0 <= f <= i && cs != [] && ChoicesOk(cs, i == f) && Holds(p, i, ShowChoices(cs) + [CLOSE])
    ensures ClassFrom(p, i, f) == ClassOk(PiecesOf(cs), i + |ShowChoices(cs)| + 1)
    decreases |cs|, 0
  {
    hide Holds, ShowChoices, PiecesOf, ClassFrom, ClassNext, Join;
    var rest := ShowChoices(cs[1..]) + [CLOSE];
    ChoicesShown(cs);
    ChoicesPieces(cs, i + |ShowChoices(cs)| + 1);
    var r := ClassOk(PiecesOf(cs[1..]), i + |ShowChoices(cs)| + 1);
    match cs[0] {
      case Only(c) =>
        HoldsOne(p, i, c, rest);
        ClassReadOn(p, i + 1, f, cs[1..]);
        OnlyRead(p, i, f, c, r);
      case From(lo, hi) =>
        FromShown(lo, hi, rest);
        HoldsOne(p, i, lo, [DASH] + ([hi] + rest));
        HoldsOne(p, i + 1, DASH, [hi] + rest);
        HoldsOne(p, i + 2, hi, rest);
        ClassReadOn(p, i + 3, f, cs[1..]);
        FromRead(p, i, f, lo, hi, r);
    }
  }

  lemma {:induction false} ClassReadOn(p: seq<int>, i: int, f: int, cs: seq<Choice>)
    requires 0 <= f < i && ChoicesOk(cs, false) && Holds(p, i, ShowChoices(cs) + [CLOSE])
    ensures ClassNext(p, i, f) == ClassOk(PiecesOf(cs), i + |ShowChoices(cs)| + 1)
    ensures cs == [] ==> i < |p| && p[i] == CLOSE
    decreases |cs|, 1
  {
    if cs == [] {
      HoldsOne(p, i, CLOSE, []);
    } else {
      var w := ShowChoices(cs) + [CLOSE];
      HoldsOne(p, i, w[0], w[1..]) by { assert w == [w[0]] + w[1..]; }
      ClassRead(p, i, f, cs);
    }
  }

  /** How many characters of a part come before its stars. */
  function Width(x: Part): int { |ShowPart(x)| - if x.Mark? then 0 else x.stars }

  function AfterMark(x: Part, br: Br): Br {
    if !x.Mark? then br
    else if x.open then br.(open := br.open + 1, numbra := br.numbra + 1)
    else br.(open := br.open - 1, closed := br.closed + 1)
  }

  lemma LitRead(p: seq<int>, k: int, br: Br, x: Part, bare: bool, last: bool)
    requires x.Lit? && Holds(p, k, ShowPart(x)) && PartOk(x, bare, last) && (!last ==> k + |ShowPart(x)| < |p|)
    ensures k < |p| && AtomAt(p, k, br) == Got(WithStar(ItemOf(x), false), !BareAfter(x), k + Width(x), br)
    ensures Holds(p, k + Width(x), Stars(x.stars))
  {
    LitShown(x);
    hide Holds, Stars, ShowPart, Width, AtomAt, ItemOf, WithStar;
    if x.esc {
      HoldsOne(p, k, BACKSLASH, [x.c] + Stars(x.stars));
      HoldsOne(p, k + 1, x.c, Stars(x.stars));
      EscapeAtom(p, k, br);
    } else {
      HoldsOne(p, k, x.c, Stars(x.stars));
      WithinBounds(p, k + 1, Stars(x.stars));
      PlainAtom(p, k, br);
    }
  }

  lemma LitShown(x: Part)
    requires x.Lit?
    ensures var w := [x.c] + Stars(x.stars);
            ShowPart(x) == (if x.esc then [BACKSLASH] + w else w) && |w| == 1 + x.stars
    ensures Width(x) == (if x.esc then 2 else 1) && WithStar(ItemOf(x), false) == Plain(Chr(x.c, false))
  {
    StarsLength(x.stars);
    var w := Stars(x.stars);
    assert [BACKSLASH] + [x.c] + w == [BACKSLASH] + ([x.c] + w);
    assert [] + [x.c] + w == [x.c] + w;
  }

  lemma EscapeAtom(p: seq<int>, k: int, br: Br)
    requires 0 <= k && k + 1 < |p| && p[k] == BACKSLASH && p[k + 1] != LPAREN && p[k + 1] != RPAREN && !(49 <= p[k + 1] <= 57)
    ensures AtomAt(p, k, br) == Got(Plain(Chr(p[k + 1], false)), true, k + 2, br)
  {
    hide ClassAt;
  }

  lemma PlainAtom(p: seq<int>, k: int, br: Br)
    requires 0 <= k < |p| && p[k] != POINT && p[k] != OPEN && p[k] != BACKSLASH && (p[k] == DOLLAR ==> k + 1 < |p|)
    ensures AtomAt(p, k, br) == Got(Plain(Chr(p[k], false)), p[k] != STAR, k + 1, br)
  {
    hide ClassAt, Escape;
  }

  lemma WithinBounds(p: seq<int>, k: int, w: seq<int>)
    requires Holds(p, k, w)
    ensures 0 <= k && k + |w| <= |p|
  {
  }

  lemma AnyRead(p: seq<int>, k: int, br: Br, x: Part)
    requires x.Any? && Holds(p, k, ShowPart(x))
    ensures k < |p| && AtomAt(p, k, br) == Got(WithStar(ItemOf(x), false), true, k + Width(x), br)
    ensures Holds(p, k + Width(x), Stars(x.stars))
  {
    AnyShown(x);
    hide AtomAt, Holds, Stars, ShowPart, Width, WithStar, ItemOf;
    HoldsOne(p, k, POINT, Stars(x.stars));
    PointAtom(p, k, br);
  }

  lemma AnyShown(x: Part)
    requires x.Any?
    ensures ShowPart(x) == [POINT] + Stars(x.stars) && Width(x) == 1 && WithStar(ItemOf(x), false) == Plain(Dot(false))
  {
    StarsLength(x.stars);
  }

  lemma PointAtom(p: seq<int>, k: int, br: Br)
    requires 0 <= k < |p| && p[k] == POINT
    ensures AtomAt(p, k, br) == Got(Plain(Dot(false)), true, k + 1, br)
  {
  }

  lemma MarkRead(p: seq<int>, k: int, br: Br, x: Part)
    requires x.Mark? && Holds(p, k, ShowPart(x)) && if x.open then br.numbra < 9 else br.open > 0
    ensures k < |p| && AtomAt(p, k, br) == Got(WithStar(ItemOf(x), false), false, k + Width(x), AfterMark(x, br))
  {
    var c := if x.open then LPAREN else RPAREN;
    MarkShown(x, c);
    hide Holds, AtomAt, ShowPart, Width, WithStar, ItemOf, AfterMark;
    HoldsOne(p, k, BACKSLASH, [c] + []);
    HoldsOne(p, k + 1, c, []);
    MarkAtom(p, k, br, x);
  }

  lemma MarkShown(x: Part, c: int)
    requires x.Mark? && c == if x.open then LPAREN else RPAREN
    ensures ShowPart(x) == [BACKSLASH] + ([c] + []) && Width(x) == 2
    ensures WithStar(ItemOf(x), false) == Plain(if x.open then Bra else Ket)
  {
  }

  lemma MarkAtom(p: seq<int>, k: int, br: Br, x: Part)
    requires 0 <= k && k + 1 < |p| && p[k] == BACKSLASH && p[k + 1] == (if x.Mark? && x.open then LPAREN else RPAREN)
    requires x.Mark? && if x.open then br.numbra < 9 else br.open > 0
    ensures AtomAt(p, k, br) == Got(Plain(if x.open then Bra else Ket), false, k + 2, AfterMark(x, br))
  {
    hide ClassAt;
  }

  /** A part without its stars. */
  lemma PartRead(p: seq<int>, k: int, br: Br, x: Part, bare: bool, last: bool)
    requires Holds(p, k, ShowPart(x)) && PartOk(x, bare, last) && (!last ==> k + |ShowPart(x)| < |p|)
    requires x.Mark? ==> if x.open then br.numbra < 9 else br.open > 0
    ensures k < |p| && AtomAt(p, k, br) == Got(WithStar(ItemOf(x), false), !BareAfter(x), k + Width(x), AfterMark(x, br))
    ensures !x.Mark? ==> Holds(p, k + Width(x), Stars(x.stars))
  {
    hide AtomAt, Holds, Stars, ShowPart, WithStar, ItemOf, Width;
    match x {
      case Lit(_, _, _) => LitRead(p, k, br, x, bare, last);
      case Any(_) => AnyRead(p, k, br, x);
      case OneOf(_, _, _) => OneOfRead(p, k, br, x, bare, last);
      case Mark(_) => MarkRead(p, k, br, x);
    }
  }

  lemma OneOfRead(p: seq<int>, k: int, br: Br, x: Part, bare: bool, last: bool)
    requires x.OneOf? && Holds(p, k, ShowPart(x)) && PartOk(x, bare, last)
    ensures k < |p| && AtomAt(p, k, br) == Got(WithStar(ItemOf(x), false), true, k + Width(x), br)
    ensures Holds(p, k + Width(x), Stars(x.stars))
  {
    OneOfShown(x);
    OneOfFirst(x, bare, last);
    hide ClassFrom, Holds, Stars, PiecesOf, ShowPart, Width, AtomAt, ItemOf, WithStar, ShowChoices, ShowChoice, PartOk, ChoicesOk;
    var w := ShowChoices(x.cs) + [CLOSE];
    var f := if x.neg then k + 2 else k + 1;
    OpenHolds(p, k, x.neg, w + Stars(x.stars));
    HoldsTwo(p, f, w, Stars(x.stars));
    ClassRead(p, f, f, x.cs);
    ClassAtom(p, k, br, x.neg, PiecesOf(x.cs), f + |w|);
  }

  lemma OpenHolds(p: seq<int>, k: int, neg: bool, v: seq<int>)
    requires Holds(p, k, if neg then [OPEN] + ([HAT] + v) else [OPEN] + v) && v != [] && (!neg ==> v[0] != HAT)
    ensures 0 <= k && k + 1 < |p| && p[k] == OPEN && (neg <==> p[k + 1] == HAT) && Holds(p, if neg then k + 2 else k + 1, v)
  {
    hide Holds;
    if neg {
      HoldsOne(p, k, OPEN, [HAT] + v);
      HoldsOne(p, k + 1, HAT, v);
    } else {
      HoldsOne(p, k, OPEN, v);
      HoldsAt(p, k + 1, v);
    }
  }

  lemma OneOfShown(x: Part)
    requires x.OneOf?
    ensures var w := ShowChoices(x.cs) + [CLOSE];
            var v := w + Stars(x.stars);
            && ShowPart(x) == (if x.neg then [OPEN] + ([HAT] + v) else [OPEN] + v)
            && Width(x) == |w| + if x.neg then 2 else 1
    ensures WithStar(ItemOf(x), false) == Class(x.neg, PiecesOf(x.cs), false)
  {
    StarsLength(x.stars);
    hide Stars, ShowChoices, PiecesOf;
    var u, z := ShowChoices(x.cs), Stars(x.stars);
    assert [OPEN] + [HAT] + u + [CLOSE] + z == [OPEN] + ([HAT] + (u + [CLOSE] + z));
    assert [OPEN] + [] + u + [CLOSE] + z == [OPEN] + (u + [CLOSE] + z);
  }

  lemma OneOfFirst(x: Part, bare: bool, last: bool)
    requires x.OneOf? && PartOk(x, bare, last)
    ensures var v := ShowChoices(x.cs) + [CLOSE] + Stars(x.stars); x.cs != [] && ChoicesOk(x.cs, true) && v != [] && (!x.neg ==> v[0] != HAT)
  {
    hide Stars;
    assert ShowChoices(x.cs) == ShowChoice(x.cs[0]) + ShowChoices(x.cs[1..]);
  }

  lemma ClassAtom(p: seq<int>, k: int, br: Br, neg: bool, pieces: seq<Piece>, next: int)
    requires 0 <= k && k + 1 < |p| && p[k] == OPEN && (neg <==> p[k + 1] == HAT)
    requires var f := if neg then k + 2 else k + 1; ClassFrom(p, f, f) == ClassOk(pieces, next)
    ensures AtomAt(p, k, br) == Got(Class(neg, pieces, false), true, next, br)
  {
    hide ClassFrom;
  }

  /** What comes after a part that can be repeated does not begin with a star. */
  lemma NoStar(parts: seq<Part>, back: bool, open: nat, numbra: nat)
    requires Tidy(parts, back, false, open, numbra)
    ensures var w := ShowParts(parts, back); w == [] || w[0] != STAR
  {
  }

  lemma ShowSome(parts: seq<Part>, back: bool)
    ensures parts != [] || back ==> ShowParts(parts, back) != []
  {
  }

  lemma HoldsAt(p: seq<int>, k: int, w: seq<int>)
    requires Holds(p, k, w) && w != []
    ensures 0 <= k < |p| && p[k] == w[0]
  {
    assert p[k..k + |w|][0] == w[0];
  }

  /** One part read, and the rest. */
  lemma PartThenRest(p: seq<int>, k: int, br: Br, x: Part, bare: bool, last: bool, r: Reading)
    requires 0 <= k < |p| && PartOk(x, bare, last)
    requires AtomAt(p, k, br) == Got(WithStar(ItemOf(x), false), !BareAfter(x), k + Width(x), AfterMark(x, br))
    requires !BareAfter(x) ==> SkipStars(p, k + Width(x)) == k + |ShowPart(x)|
    requires Items(p, k + |ShowPart(x)|, AfterMark(x, br)) == r
    ensures Items(p, k, br) == Append([ItemOf(x)], r)
  {
    hide AtomAt, SkipStars, ShowPart;
    if BareAfter(x) {
      BareStar(x, bare, last);
    } else {
      StarIs(x);
      WidthIs(x);
    }
  }

  lemma WidthIs(x: Part)
    ensures !x.Mark? ==> Width(x) + x.stars == |ShowPart(x)|
    ensures BareAfter(x) ==> x.Mark? || Width(x) + x.stars == |ShowPart(x)|
  {
  }

  lemma TidyOne(parts: seq<Part>, back: bool, bare: bool, br: Br)
    requires parts != [] && br.open >= 0 && br.numbra >= 0 && Tidy(parts, back, bare, br.open, br.numbra)
    ensures PartOk(parts[0], bare, |parts| == 1 && !back) && (parts[0].Mark? ==> BareAfter(parts[0]))
    ensures parts[0].Mark? ==> if parts[0].open then br.numbra < 9 else br.open > 0
    ensures var br' := AfterMark(parts[0], br);
            br'.open >= 0 && br'.numbra >= 0 && Tidy(parts[1..], back, BareAfter(parts[0]), br'.open, br'.numbra)
  {
    hide PartOk;
  }

  /** An expression is read as its parts. */
  lemma {:induction false} PartsRead(p: seq<int>, k: int, br: Br, parts: seq<Part>, back: bool, bare: bool)
    requires Holds(p, k, ShowParts(parts, back)) && k + |ShowParts(parts, back)| == |p|
    requires br.open >= 0 && br.numbra >= 0 && Tidy(parts, back, bare, br.open, br.numbra)
    ensures Items(p, k, br) == Reading(ItemsOf(parts, back), Done)
    decreases |parts|
  {
    hide Holds, AtomAt, PartOk, ItemOf, ShowPart, WithStar, Items, SkipStars, Tidy, Width, AfterMark, BareAfter;
    if parts == [] {
      EndRead(p, k, br, back);
    } else {
      var x, rest, last := parts[0], parts[1..], |parts| == 1 && !back;
      TidyOne(parts, back, bare, br);
      HoldsTwo(p, k, ShowPart(x), ShowParts(rest, back));
      ShowSome(rest, back);
      PartRead(p, k, br, x, bare, last);
      PartsRead(p, k + |ShowPart(x)|, AfterMark(x, br), rest, back, BareAfter(x));
      if !BareAfter(x) {
        StarsThen(p, k, x, rest, back, AfterMark(x, br));
      }
      PartThenRest(p, k, br, x, bare, last, Reading(ItemsOf(rest, back), Done));
    }
  }

  lemma StarsThen(p: seq<int>, k: int, x: Part, rest: seq<Part>, back: bool, br: Br)
    requires 0 <= k && !BareAfter(x) && Holds(p, k + Width(x), Stars(x.stars)) && Holds(p, k + |ShowPart(x)|, ShowParts(rest, back))
    requires br.open >= 0 && br.numbra >= 0 && Tidy(rest, back, false, br.open, br.numbra)
    requires k + |ShowPart(x)| + |ShowParts(rest, back)| == |p|
    ensures SkipStars(p, k + Width(x)) == k + |ShowPart(x)|
  {
    hide Holds, ShowPart, Tidy, Width;
    WidthIs(x);
    NoStar(rest, back, br.open, br.numbra);
    if k + |ShowPart(x)| < |p| {
      HoldsAt(p, k + |ShowPart(x)|, ShowParts(rest, back));
    }
    StarsRead(p, k + Width(x), x.stars);
  }

  lemma BareStar(x: Part, bare: bool, last: bool)
    requires PartOk(x, bare, last) && BareAfter(x)
    ensures WithStar(ItemOf(x), false) == ItemOf(x) && (x.Lit? ==> x.stars == 0)
  {
  }

  lemma StarIs(x: Part)
    requires !x.Mark?
    ensures WithStar(WithStar(ItemOf(x), false), x.stars > 0) == ItemOf(x)
  {
  }

  lemma EndRead(p: seq<int>, k: int, br: Br, back: bool)
    requires Holds(p, k, ShowParts([], back)) && k + |ShowParts([], back)| == |p|
    ensures Items(p, k, br) == Reading(ItemsOf([], back), Done)
  {
    if back {
      HoldsOne(p, k, DOLLAR, []) by { assert [DOLLAR] + [] == ShowParts([], back); }
      assert AtomAt(p, k, br) == Got(Plain(Dol), false, k + 1, br);
      assert Items(p, k + 1, br) == Reading([], Done);
    }
  }

  // ---- what is read matches as it is meant ----

  lemma {:induction false} BitsAppend(a: seq<Piece>, b: seq<Piece>)
    ensures Bits(a + b) == Bits(a) + Bits(b)
  {
    hide BitsOf;
    if b == [] {
      assert a + b == a;
    } else {
      var m := |b| - 1;
      assert (a + b)[..|a + b| - 1] == a + b[..m];
      BitsAppend(a, b[..m]);
    }
  }

  lemma BitsTwo(x: Piece, y: Piece)
    ensures Bits([x]) == BitsOf(x) && Bits([x, y]) == BitsOf(x) + BitsOf(y)
  {
    hide BitsOf;
    assert [x][..0] == [];
    assert [x, y][..1] == [x];
  }

  lemma ChoiceBits(x: Choice, c: int)
    requires ChoiceOk(x, true, true) && 0 <= c < 128
    ensures c in Bits(PiecesOf([x])) <==> Picks(x, c)
  {
    match x
    case Only(d) =>
      assert PiecesOf([x]) == [One(d)];
      BitsTwo(One(d), One(d));
    case From(lo, hi) =>
      var ps := [One(lo), Span(lo, hi)];
      assert PiecesOf([x]) == ps;
      BitsTwo(One(lo), Span(lo, hi));
      assert lo <= c <= hi ==> Between(lo, c, hi + 1);
  }

  /** The bits of a class are its members. */
  lemma {:induction false} ClassPicks(cs: seq<Choice>, first: bool, c: int)
    requires ChoicesOk(cs, first) && 0 <= c < 128
    ensures c in Bits(PiecesOf(cs)) <==> Picked(cs, c)
  {
    hide Bits, Picks;
    if cs == [] {
      NoBits();
    } else {
      assert PiecesOf(cs) == PiecesOf([cs[0]]) + PiecesOf(cs[1..]);
      BitsAppend(PiecesOf([cs[0]]), PiecesOf(cs[1..]));
      ChoiceBits(cs[0], c);
      ClassPicks(cs[1..], false, c);
      assert Picked(cs, c) <==> Picks(cs[0], c) || Picked(cs[1..], c) by {
        PickedMore(cs, c);
      }
    }
  }

  lemma NoBits()
    ensures Bits([]) == {}
  {
  }

  lemma PickedMore(cs: seq<Choice>, c: int)
    requires cs != []
    ensures Picked(cs, c) <==> Picks(cs[0], c) || Picked(cs[1..], c)
  {
    hide Picks;
    if Picked(cs, c) {
      var k :| 0 <= k < |cs| && Picks(cs[k], c);
      assert k > 0 ==> cs[1..][k - 1] == cs[k];
    }
    if Picked(cs[1..], c) {
      var k :| 0 <= k < |cs| - 1 && Picks(cs[1..][k], c);
      assert cs[k + 1] == cs[1..][k];
    }
  }

  lemma FitsIs(x: Part, bare: bool, last: bool, c: int)
    requires PartOk(x, bare, last) && 1 <= c <= 255 && !x.Mark?
    ensures Member(Denoted(ItemOf(x)), c) <==> Fits(x, c)
  {
    if x.OneOf? {
      hide Bits, Picked, PiecesOf;
      ClassPicks(x.cs, true, c % 128);
    }
  }

  // ---- the parts against the elements ----

  lemma DenotedRest(items: seq<Item>)
    requires items != []
    ensures DenotedAll(items)[0] == Denoted(items[0]) && DenotedAll(items)[1..] == DenotedAll(items[1..])
  {
    hide Denoted;
  }

  lemma KindIs(x: Part)
    ensures x.Mark? ==> Denoted(ItemOf(x)).Bra? || Denoted(ItemOf(x)).Ket?
    ensures !x.Mark? ==> Single(Denoted(ItemOf(x))) && (Starred(Denoted(ItemOf(x))) <==> x.stars > 0)
  {
  }

  lemma RunIs(x: Part, bare: bool, last: bool, s: seq<int>, i: int, k: int)
    requires PartOk(x, bare, last) && IsLine(s) && !x.Mark?
    ensures Run(Denoted(ItemOf(x)), s, i, k) <==> AllFit(x, s, i, k)
  {
    hide Denoted, Fits, Member, PartOk, ItemOf;
    if 0 <= i <= k <= |s| {
      forall t | i <= t < k
        ensures Member(Denoted(ItemOf(x)), s[t]) <==> Fits(x, s[t])
      {
        FitsIs(x, bare, last, s[t]);
      }
    }
  }

  lemma {:induction false} SpansIs(parts: seq<Part>, back: bool, bare: bool, br: Br, s: seq<int>, i: int, j: int)
    requires IsLine(s) && br.open >= 0 && br.numbra >= 0 && Tidy(parts, back, bare, br.open, br.numbra)
    ensures Accepts(DenotedAll(ItemsOf(parts, back)), s, i, j) <==> Spans(parts, s, i, j) && (back ==> j == |s|)
    decreases |parts|
  {
    hide Denoted, DenotedAll, Member, Fits, PartOk, Tidy, ItemOf, AfterMark, BareAfter, AllFit, Run, IsLine;
    if parts == [] {
      EndIs(back, s, i, j);
    } else {
      var x, rest := parts[0], parts[1..];
      DenotedRest(ItemsOf(parts, back));
      KindIs(x);
      TidyOne(parts, back, bare, br);
      var es := DenotedAll(ItemsOf(parts, back));
      assert es[1..] == DenotedAll(ItemsOf(rest, back));
      forall k
        ensures Accepts(es[1..], s, k, j) <==> Spans(rest, s, k, j) && (back ==> j == |s|)
      {
        SpansIs(rest, back, BareAfter(x), AfterMark(x, br), s, k, j);
      }
      OneSpan(parts, es, back, bare, |parts| == 1 && !back, s, i, j);
    }
  }

  lemma OneSpan(parts: seq<Part>, es: seq<Elem>, back: bool, bare: bool, last: bool, s: seq<int>, i: int, j: int)
    requires IsLine(s) && parts != [] && es != [] && es[0] == Denoted(ItemOf(parts[0])) && PartOk(parts[0], bare, last)
    requires forall k :: Accepts(es[1..], s, k, j) <==> Spans(parts[1..], s, k, j) && (back ==> j == |s|)
    ensures Accepts(es, s, i, j) <==> Spans(parts, s, i, j) && (back ==> j == |s|)
  {
    var x := parts[0];
    KindIs(x);
    hide Denoted, Fits, PartOk, ItemOf, AllFit, Run, Member, Single;
    if !x.Mark? {
      if x.stars > 0 {
        forall k
          ensures Run(es[0], s, i, k) <==> AllFit(x, s, i, k)
        {
          RunIs(x, bare, last, s, i, k);
        }
      } else if 0 <= i < |s| {
        CharIs(s, i);
        FitsIs(x, bare, last, s[i]);
      }
    }
  }

  lemma CharIs(s: seq<int>, i: int)
    requires IsLine(s) && 0 <= i < |s|
    ensures 1 <= s[i] <= 255
  {
  }

  lemma EndIs(back: bool, s: seq<int>, i: int, j: int)
    ensures Accepts(DenotedAll(ItemsOf([], back)), s, i, j) <==> i == j && (back ==> j == |s|)
  {
    if back {
      assert DenotedAll([Plain(Dol)]) == [Dol];
      assert [Dol][1..] == [];
      assert Accepts([], s, i, j) <==> i == j;
    } else {
      assert DenotedAll([]) == [];
    }
  }

  // ---- what becomes of it ----

  lemma {:induction false} CostIs(parts: seq<Part>, back: bool)
    ensures Size(ItemsOf(parts, back)) == Cost(parts) + if back then 1 else 0
  {
    hide ItemOf, SizeOf, Size;
    SizeNone();
    if parts == [] {
      SizeMore([], Plain(Dol));
      CostOne(Plain(Dol));
      assert [] + [Plain(Dol)] == [Plain(Dol)];
    } else {
      CostIs(parts[1..], back);
      SizeFront(ItemOf(parts[0]), ItemsOf(parts[1..], back));
      PartCost(parts[0]);
    }
  }

  lemma CostOne(x: Item)
    ensures SizeOf(x) == match x case Class(_, _, _) => 17 case Plain(e) => if e.Dot? || e.Dol? then 1 else 2
  {
  }

  lemma PartCost(x: Part)
    ensures SizeOf(ItemOf(x)) == match x case Any(_) => 1 case OneOf(_, _, _) => 17 case _ => 2
  {
  }

  lemma {:induction false} SizeFront(x: Item, items: seq<Item>)
    ensures Size([x] + items) == SizeOf(x) + Size(items)
  {
    hide SizeOf, Size;
    if items == [] {
      assert [x] + items == [] + [x];
      SizeMore([], x);
      SizeNone();
    } else {
      var m := |items| - 1;
      SizeFront(x, items[..m]);
      assert [x] + items == [x] + items[..m] + [items[m]];
      assert items == items[..m] + [items[m]];
      SizeMore([x] + items[..m], items[m]);
      SizeMore(items[..m], items[m]);
    }
  }

  lemma {:induction false} StarsPattern(n: nat)
    ensures IsPattern(Stars(n))
  {
    if n > 0 {
      StarsPattern(n - 1);
    }
  }

  lemma PatternTwo(v: seq<int>, w: seq<int>)
    requires IsPattern(v) && IsPattern(w)
    ensures IsPattern(v + w)
  {
  }

  /** What is between the brackets of a class: ASCII characters, and none that is 0 modulo 128. */
  lemma {:induction false} ChoicesAscii(cs: seq<Choice>, first: bool)
    requires ChoicesOk(cs, first)
    ensures IsPattern(ShowChoices(cs)) && forall n :: 0 <= n < |PiecesOf(cs)| ==> PiecesOf(cs)[n].c < 128
  {
    if cs != [] {
      ChoicesAscii(cs[1..], false);
      PatternTwo(ShowChoice(cs[0]), ShowChoices(cs[1..]));
    }
  }

  lemma PartPattern(x: Part, bare: bool, last: bool)
    requires PartOk(x, bare, last)
    ensures IsPattern(ShowPart(x)) && !Covers(ItemOf(x))
  {
    hide IsPattern, Stars, ShowChoices, PiecesOf;
    match x {
      case Lit(c, esc, stars) =>
        StarsPattern(stars);
        Few([c]);
        PatternTwo([c], Stars(stars));
        Few([BACKSLASH]);
        PatternTwo([BACKSLASH], [c] + Stars(stars));
        assert [BACKSLASH] + ([c] + Stars(stars)) == [BACKSLASH] + [c] + Stars(stars);
        assert [] + [c] + Stars(stars) == [c] + Stars(stars);
      case Any(stars) =>
        StarsPattern(stars);
        Few([POINT]);
        PatternTwo([POINT], Stars(stars));
      case OneOf(neg, cs, stars) =>
        ChoicesAscii(cs, true);
        StarsPattern(stars);
        Few([OPEN]);
        Few(if neg then [HAT] else []);
        Few([CLOSE]);
        PatternTwo([OPEN], if neg then [HAT] else []);
        PatternTwo([OPEN] + (if neg then [HAT] else []), ShowChoices(cs));
        PatternTwo([OPEN] + (if neg then [HAT] else []) + ShowChoices(cs), [CLOSE]);
        PatternTwo([OPEN] + (if neg then [HAT] else []) + ShowChoices(cs) + [CLOSE], Stars(stars));
      case Mark(open) =>
        Few([BACKSLASH, if open then LPAREN else RPAREN]);
    }
  }

  lemma Few(w: seq<int>)
    requires |w| <= 2 && (|w| > 0 ==> 1 <= w[0] <= 255) && (|w| > 1 ==> 1 <= w[1] <= 255)
    ensures IsPattern(w)
  {
  }

  lemma {:induction false} PartsPattern(parts: seq<Part>, back: bool, bare: bool, br: Br)
    requires br.open >= 0 && br.numbra >= 0 && Tidy(parts, back, bare, br.open, br.numbra)
    ensures IsPattern(ShowParts(parts, back)) && forall k :: 0 <= k < |ItemsOf(parts, back)| ==> !Covers(ItemsOf(parts, back)[k])
    decreases |parts|
  {
    hide IsPattern, Tidy, PartOk, ShowPart, ItemOf, AfterMark, BareAfter;
    if parts == [] {
      Few(if back then [DOLLAR] else []);
    } else {
      TidyOne(parts, back, bare, br);
      PartPattern(parts[0], bare, |parts| == 1 && !back);
      PartsPattern(parts[1..], back, BareAfter(parts[0]), AfterMark(parts[0], br));
      PatternTwo(ShowPart(parts[0]), ShowParts(parts[1..], back));
    }
  }

  /** Written without a leading hat, an expression is not anchored. */
  lemma AnchoredIs(e: Notation)
    requires Writable(e)
    ensures Anchored(Show(e)) == e.front
  {
    if !e.front && e.parts != [] {
      FirstIs(e.parts[0], |e.parts| == 1 && !e.back);
      assert Show(e) == ShowPart(e.parts[0]) + ShowParts(e.parts[1..], e.back);
    }
  }

  lemma FirstIs(x: Part, last: bool)
    requires PartOk(x, true, last) && (x.Lit? && !x.esc ==> x.c != '^' as int)
    ensures ShowPart(x) != [] && ShowPart(x)[0] != HAT
  {
    hide Stars, ShowChoices;
  }

  lemma ReadShown(e: Notation)
    requires Writable(e)
    ensures Read(Show(e)) == Reading(ItemsOf(e.parts, e.back), Done) && Anchored(Show(e)) == e.front
  {
    AnchoredIs(e);
    hide Items, ItemsOf, ShowParts, Tidy;
    var w, br := ShowParts(e.parts, e.back), Br(0, 0, 0);
    assert Show(e)[if e.front then 1 else 0..] == w;
    PartsRead(Show(e), if e.front then 1 else 0, br, e.parts, e.back, true);
  }

  /** An expression that is written is taken if it fits, and never brings the matcher off a line. */
  lemma TakenIff(e: Notation)
    requires Writable(e)
    ensures IsPattern(Show(e)) && Harmless(Show(e))
    ensures var r := Outcome(Read(Show(e)));
            if Cost(e.parts) + (if e.back then 1 else 0) < 256 then r == Re(DenotedAll(ItemsOf(e.parts, e.back))) else r == Bad
  {
    ReadShown(e);
    CostIs(e.parts, e.back);
    PartsPattern(e.parts, e.back, true, Br(0, 0, 0));
    hide Items, ItemsOf, ShowParts, Tidy, Size, DenotedAll, Covers;
    Few(if e.front then [HAT] else []);
    hide IsPattern;
    PatternTwo(if e.front then [HAT] else [], ShowParts(e.parts, e.back));
  }

  /** What grep finds is what the expression means. */
  lemma FoundIff(e: Notation, s: seq<int>)
    requires Writable(e) && IsLine(s)
    ensures var r := Outcome(Read(Show(e))); r.Re? ==> (Found(Anchored(Show(e)), r.es, s) <==> Selects(e, s))
  {
    ReadShown(e);
    TakenIff(e);
    hide Items, ItemsOf, ShowParts, Tidy, Size, DenotedAll, Accepts, Spans, Show, Read, Outcome, Cost;
    var es := DenotedAll(ItemsOf(e.parts, e.back));
    forall i, j
      ensures Accepts(es, s, i, j) <==> Spans(e.parts, s, i, j) && (e.back ==> j == |s|)
    {
      SpansWritable(e, s, i, j);
    }
  }

  lemma SpansWritable(e: Notation, s: seq<int>, i: int, j: int)
    requires Writable(e) && IsLine(s)
    ensures Accepts(DenotedAll(ItemsOf(e.parts, e.back)), s, i, j) <==> Spans(e.parts, s, i, j) && (e.back ==> j == |s|)
  {
    SpansIs(e.parts, e.back, true, Br(0, 0, 0), s, i, j);
  }

  // ---- some patterns, character by character ----

  /** grep takes p and prints exactly the lines that have the property. */
  ghost predicate Prints(p: seq<int>, s: seq<int>, yes: bool) {
    && IsPattern(p) && Harmless(p) && Outcome(Read(p)).Re?
    && (Found(Anchored(p), Outcome(Read(p)).es, s) <==> yes)
  }

  lemma PrintsSelected(e: Notation, s: seq<int>)
    requires Writable(e) && IsLine(s) && Cost(e.parts) + (if e.back then 1 else 0) < 256
    ensures Prints(Show(e), s, Selects(e, s))
  {
    hide Writable, Show, Harmless, Outcome, Read, Selects;
    TakenIff(e);
    FoundIff(e, s);
  }

  lemma RangeWritten(neg: bool, lo: int, hi: int)
    requires 1 <= lo < 128 && 1 <= hi < 128 && hi != ']' as int && (neg || lo != '^' as int)
    ensures var e := Notation(false, [OneOf(neg, [From(lo, hi)], 0)], false);
            && Writable(e) && Cost(e.parts) == 17
            && Show(e) == ['[' as int] + (if neg then ['^' as int] else []) + [lo, '-' as int, hi, ']' as int]
  {
    var cs := [From(lo, hi)];
    var x := OneOf(neg, cs, 0);
    assert cs[1..] == [] && ShowChoices(cs) == ShowChoice(cs[0]) + ShowChoices([]);
    assert ChoicesOk(cs[1..], false) && PartOk(x, true, true);
    assert [x][1..] == [] && Tidy([x][1..], false, false, 0, 0);
    assert ShowParts([x], false) == ShowPart(x) + ShowParts([], false);
    assert Stars(0) == [];
  }

  /** [lo-hi] selects the ASCII lines with a character from lo to hi, and [^lo-hi] those with another one. */
  lemma RangeLine(neg: bool, lo: int, hi: int, s: seq<int>)
    requires 1 <= lo <= hi < 128 && hi != ']' as int && (neg || lo != '^' as int) && forall k :: 0 <= k < |s| ==> 1 <= s[k] <= 127
    ensures Prints(['[' as int] + (if neg then ['^' as int] else []) + [lo, '-' as int, hi, ']' as int], s,
                   exists k :: 0 <= k < |s| && (lo <= s[k] <= hi) == !neg)
  {
    var cs := [From(lo, hi)];
    var x := OneOf(neg, cs, 0);
    var e := Notation(false, [x], false);
    RangeWritten(neg, lo, hi);
    hide Writable, Show, Cost, Prints, Selects, Picked, Picks;
    PrintsSelected(e, s);
    forall k | 0 <= k < |s|
      ensures Fits(x, s[k]) <==> (lo <= s[k] <= hi) == !neg
    {
      PickedOne(lo, hi, s[k]);
    }
    OneSelects(x, s);
  }

  lemma PickedOne(lo: int, hi: int, c: int)
    requires lo <= hi && 1 <= c <= 127
    ensures c % 128 == c && (Picked([From(lo, hi)], c) <==> lo <= c <= hi)
  {
    assert Picked([From(lo, hi)], c) <==> Picks([From(lo, hi)][0], c);
  }

  lemma OneSelects(x: Part, s: seq<int>)
    requires !x.Mark? && x.stars == 0
    ensures Selects(Notation(false, [x], false), s) <==> exists k :: 0 <= k < |s| && Fits(x, s[k])
  {
    hide Fits;
    forall i, j
      ensures Spans([x], s, i, j) <==> 0 <= i < |s| && Fits(x, s[i]) && j == i + 1
    {
      assert [x][1..] == [];
    }
    if k :| 0 <= k < |s| && Fits(x, s[k]) {
      assert Spans([x], s, k, k + 1);
    }
  }

  function Lits(p: seq<int>): seq<Part> { if p == [] then [] else [Lit(p[0], false, 0)] + Lits(p[1..]) }

  predicate Ordinary(c: int) {
    && 1 <= c <= 255 && c != '\\' as int && c != '[' as int && c != '.' as int
    && c != '*' as int && c != '$' as int && c != '^' as int
  }

  ghost predicate AllOrdinary(p: seq<int>) { forall k :: 0 <= k < |p| ==> Ordinary(p[k]) }

  /** w is in s from i on. */
  ghost predicate OccursAt(w: seq<int>, s: seq<int>, i: int) { 0 <= i && i + |w| <= |s| && s[i..i + |w|] == w }

  lemma LitsMore(p: seq<int>, rest: seq<Part>)
    requires p != []
    ensures var ps := Lits(p) + rest; ps != [] && ps[0] == Lit(p[0], false, 0) && ps[1..] == Lits(p[1..]) + rest
  {
    LitsOne(p);
    hide Lits;
    Regroup(Lit(p[0], false, 0), Lits(p[1..]), rest);
  }

  lemma LitsOne(p: seq<int>)
    requires p != []
    ensures Lits(p) == [Lit(p[0], false, 0)] + Lits(p[1..])
  {
  }

  lemma {:induction false} LitsShown(p: seq<int>, rest: seq<Part>, back: bool)
    ensures ShowParts(Lits(p) + rest, back) == p + ShowParts(rest, back)
  {
    hide ShowPart, ShowParts;
    if p == [] {
      assert Lits(p) + rest == rest;
    } else {
      LitsShown(p[1..], rest, back);
      LitsMore(p, rest);
      CharShown(p[0]);
      ShowMore(Lits(p) + rest, back);
      assert [p[0]] + (p[1..] + ShowParts(rest, back)) == p + ShowParts(rest, back);
    }
  }

  lemma ShowMore(parts: seq<Part>, back: bool)
    requires parts != []
    ensures ShowParts(parts, back) == ShowPart(parts[0]) + ShowParts(parts[1..], back)
  {
  }

  lemma CharShown(c: int)
    ensures ShowPart(Lit(c, false, 0)) == [c]
  {
  }

  lemma {:induction false} LitsCost(p: seq<int>, rest: seq<Part>)
    ensures Cost(Lits(p) + rest) == 2 * |p| + Cost(rest)
  {
    if p == [] {
      assert Lits(p) + rest == rest;
    } else {
      LitsCost(p[1..], rest);
      LitsMore(p, rest);
    }
  }

  lemma {:induction false} LitsTidy(p: seq<int>, rest: seq<Part>, back: bool, bare: bool)
    requires AllOrdinary(p) && Tidy(rest, back, bare, 0, 0) && Tidy(rest, back, false, 0, 0)
    ensures Tidy(Lits(p) + rest, back, bare, 0, 0)
  {
    if p == [] {
      assert Lits(p) + rest == rest;
    } else {
      LitsTidy(p[1..], rest, back, false);
      LitsMore(p, rest);
      assert Ordinary(p[0]);
    }
  }

  lemma {:induction false} LitsSpan(p: seq<int>, rest: seq<Part>, s: seq<int>, i: int, j: int)
    requires 0 <= i
    ensures Spans(Lits(p) + rest, s, i, j) <==> (p == [] || OccursAt(p, s, i)) && Spans(rest, s, i + |p|, j)
  {
    if p == [] {
      assert Lits(p) + rest == rest;
    } else {
      LitsSpan(p[1..], rest, s, i + 1, j);
      assert (Lits(p) + rest)[0] == Lit(p[0], false, 0) && (Lits(p) + rest)[1..] == Lits(p[1..]) + rest;
      OccursOne(p, s, i);
    }
  }

  lemma OccursOne(p: seq<int>, s: seq<int>, i: int)
    requires p != [] && 0 <= i
    ensures OccursAt(p, s, i) <==> i < |s| && s[i] == p[0] && (p[1..] == [] || OccursAt(p[1..], s, i + 1))
  {
    if i + |p| <= |s| {
      assert s[i..i + |p|] == [s[i]] + s[i + 1..i + |p|];
      assert p == [p[0]] + p[1..];
      assert i + 1 + |p[1..]| == i + |p|;
    }
  }

  /** Ordinary characters select the lines in which they occur. */
  lemma WordLine(p: seq<int>, s: seq<int>)
    requires AllOrdinary(p) && |p| <= 127 && IsLine(s)
    ensures Prints(p, s, exists i :: OccursAt(p, s, i))
  {
    var e := Notation(false, Lits(p) + [], false);
    LitsShown(p, [], false);
    LitsCost(p, []);
    LitsTidy(p, [], false, true);
    assert p + [] == p && Show(e) == p;
    NotHat(p, []);
    PrintsSelected(e, s);
    forall i, j | 0 <= i <= |s|
      ensures Spans(e.parts, s, i, j) <==> OccursAt(p, s, i) && j == i + |p|
    {
      LitsSpan(p, [], s, i, j);
      assert p == [] ==> s[i..i] == p;
    }
    hide Spans, Prints;
    if i :| OccursAt(p, s, i) {
      assert Spans(e.parts, s, i, i + |p|);
    }
  }

  lemma NotHat(p: seq<int>, rest: seq<Part>)
    requires AllOrdinary(p) && (rest != [] ==> rest[0].Any?)
    ensures var parts := Lits(p) + rest; parts != [] && parts[0].Lit? && !parts[0].esc ==> parts[0].c != '^' as int
  {
    if p != [] {
      assert Ordinary(p[0]);
    }
  }

  lemma RestWritten(q: seq<int>)
    requires AllOrdinary(q)
    ensures var rest := [Any(0)] + Lits(q);
            && Tidy(rest, false, true, 0, 0) && Tidy(rest, false, false, 0, 0)
            && Cost(rest) == 2 * |q| + 1 && ShowParts(rest, false) == ['.' as int] + q
  {
    var rest := [Any(0)] + Lits(q);
    LitsShown(q, [], false);
    LitsCost(q, []);
    LitsTidy(q, [], false, false);
    assert Lits(q) + [] == Lits(q) && q + [] == q && rest[1..] == Lits(q);
    assert ShowPart(Any(0)) == ['.' as int];
    hide Lits;
  }

  lemma DotWritten(p: seq<int>, q: seq<int>)
    requires AllOrdinary(p) && AllOrdinary(q)
    ensures var e := Notation(false, Lits(p) + ([Any(0)] + Lits(q)), false);
            Writable(e) && Cost(e.parts) == 2 * (|p| + |q|) + 1 && Show(e) == p + ['.' as int] + q
  {
    hide Tidy, ShowParts, Cost, Lits, AllOrdinary;
    var rest := [Any(0)] + Lits(q);
    RestWritten(q);
    LitsShown(p, rest, false);
    LitsCost(p, rest);
    LitsTidy(p, rest, false, true);
    NotHat(p, rest);
    DotJoin(p, q, ShowParts(rest, false));
  }

  lemma DotJoin(p: seq<int>, q: seq<int>, w: seq<int>)
    requires w == ['.' as int] + q
    ensures p + w == p + ['.' as int] + q && [] + (p + w) == p + w
  {
  }

  lemma DotSpans(p: seq<int>, q: seq<int>, s: seq<int>, i: int, j: int)
    requires 0 <= i
    ensures Spans(Lits(p) + ([Any(0)] + Lits(q)), s, i, j) <==>
              (p == [] || OccursAt(p, s, i)) && OccursAt(q, s, i + |p| + 1) && j == i + |p| + 1 + |q|
  {
    var rest := [Any(0)] + Lits(q);
    LitsSpan(p, rest, s, i, j);
    LitsSpan(q, [], s, i + |p| + 1, j);
    assert Lits(q) + [] == Lits(q) && rest[1..] == Lits(q);
    DotSpan(rest, s, i + |p|, j);
    NoneSpan(s, i + |p| + 1 + |q|, j);
    hide Spans, Lits;
    assert q == [] && i + |p| + 1 <= |s| ==> s[i + |p| + 1..i + |p| + 1] == q;
  }

  lemma NoneSpan(s: seq<int>, i: int, j: int)
    ensures Spans([], s, i, j) <==> i == j
  {
  }

  /** A dot between ordinary characters stands for any one character. */
  lemma DotLine(p: seq<int>, q: seq<int>, s: seq<int>)
    requires AllOrdinary(p) && AllOrdinary(q) && |p| + |q| <= 127 && IsLine(s)
    ensures Prints(p + ['.' as int] + q, s, exists i :: OccursAt(p, s, i) && OccursAt(q, s, i + |p| + 1))
  {
    var e := Notation(false, Lits(p) + ([Any(0)] + Lits(q)), false);
    DotWritten(p, q);
    hide Spans, Prints, Writable, Show, Lits, Cost;
    PrintsSelected(e, s);
    forall i, j | 0 <= i <= |s|
      ensures Spans(e.parts, s, i, j) <==> OccursAt(p, s, i) && OccursAt(q, s, i + |p| + 1) && j == i + |p| + 1 + |q|
    {
      DotSpans(p, q, s, i, j);
      assert p == [] ==> s[i..i] == p;
    }
    if i :| OccursAt(p, s, i) && OccursAt(q, s, i + |p| + 1) {
      assert Spans(e.parts, s, i, i + |p| + 1 + |q|);
    }
  }

  lemma DotSpan(rest: seq<Part>, s: seq<int>, i: int, j: int)
    requires rest != [] && rest[0] == Any(0)
    ensures Spans(rest, s, i, j) <==> 0 <= i < |s| && Spans(rest[1..], s, i + 1, j)
  {
  }

  // ---- what is refused ----

  lemma {:induction false} Unclosed(p: seq<int>, i: int, f: int)
    requires 0 <= f <= i && forall k :: i <= k < |p| ==> p[k] != CLOSE && p[k] != DASH
    ensures ClassFrom(p, i, f) == ClassBad
    decreases |p| - i
  {
    if i < |p| {
      Unclosed(p, i + 1, f);
    }
  }

  /**
   * A class that is not closed, a bracket closed that is not open and a
   * reference to one that is not there are refused.
   */
  lemma Refused(p: seq<int>)
    requires p != []
    requires || (p[0] == '[' as int && forall k :: 1 <= k < |p| ==> p[k] != ']' as int && p[k] != '-' as int)
             || (|p| > 1 && p[0] == '\\' as int && (p[1] == ')' as int || '1' as int <= p[1] <= '9' as int))
    ensures Outcome(Read(p)) == Bad
  {
    if p[0] == OPEN {
      var f := if 1 < |p| && p[1] == HAT then 2 else 1;
      Unclosed(p, f, f);
    }
    hide ClassFrom;
    var br := Br(0, 0, 0);
    assert AtomAt(p, 0, br) == Stop(Wrong);
    assert Read(p) == Reading([], Wrong);
    SizeNone();
  }
}
