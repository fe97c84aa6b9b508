/**
 * The line store of usr/src/cmd/ed.c: putline appends lines to a temporary
 * file and getline reads them back, through two buffers of one block. The
 * encryption of the file (option -x) is left out.
 */
module EdStore {

  const BLOCK := 512
  const NL := 10

  // ---- what the store holds ----

  /** The buffers with the blocks that they hold, and the file. */
  datatype View = View(iblock: int, ibuff: seq<int>, ichanged: bool, oblock: int, obuff: seq<int>, disk: map<int, seq<int>>)

  ghost predicate ViewOk(v: View) {
    && |v.ibuff| == |v.obuff| == BLOCK
    && (v.iblock == v.oblock ==> v.iblock == -1)
    && -1 <= v.iblock && -1 <= v.oblock
    && (forall b {:trigger v.disk[b]} :: b in v.disk ==> |v.disk[b]| == BLOCK)
    && (v.iblock >= 0 && !v.ichanged ==> v.iblock in v.disk && v.disk[v.iblock] == v.ibuff)
    && (v.iblock == -1 ==> !v.ichanged)
  }

  /** The bytes of a block: what is in a buffer counts, and not what the file has for it. */
  function Data(v: View, b: int): seq<int> {
    if b < 0 then []
    else if b == v.iblock then v.ibuff
    else if b == v.oblock then v.obuff
    else if b in v.disk then v.disk[b]
    else []
  }

  function Byte(v: View, q: int): int {
    var d := Data(v, q / BLOCK);
    if q % BLOCK < |d| then d[q % BLOCK] else -1
  }

  predicate Buffered(v: View, b: int) { b >= 0 && (b == v.iblock || b == v.oblock) }

  /** What getblock does: block b comes into a buffer. */
  function Fetch(v: View, b: int, write: bool): View {
    if b == v.iblock then v.(ichanged := v.ichanged || write)
    else if b == v.oblock then v
    else if !write then
      var disk := if v.ichanged then v.disk[v.iblock := v.ibuff] else v.disk;
      View(b, if b in disk then disk[b] else v.ibuff, false, v.oblock, v.obuff, disk)
    else
      v.(oblock := b, disk := if v.oblock >= 0 then v.disk[v.oblock := v.obuff] else v.disk)
  }

  /** No block changes by being fetched, but a new one that is to be written. */
  lemma FetchKeeps(v: View, b: int, write: bool)
    requires ViewOk(v) && b >= 0 && (!write ==> Buffered(v, b) || b in v.disk)
    ensures ViewOk(Fetch(v, b, write)) && Buffered(Fetch(v, b, write), b)
    ensures forall c {:trigger Data(v, c)} :: c != b || !write || Buffered(v, b) ==> Data(Fetch(v, b, write), c) == Data(v, c)
  {
  }

  lemma FetchBytes(v: View, b: int, write: bool, q: int)
    requires ViewOk(v) && b >= 0 && (!write ==> Buffered(v, b) || b in v.disk)
    requires q / BLOCK != b || !write || Buffered(v, b)
    ensures Byte(Fetch(v, b, write), q) == Byte(v, q)
  {
    FetchKeeps(v, b, write);
    assert Data(v, q / BLOCK) == Data(v, q / BLOCK);
  }

  /** A byte is put into the buffer of its block. */
  function PutAt(v: View, q: int, c: int): View
    requires |v.ibuff| == |v.obuff| == BLOCK
  {
    if q / BLOCK == v.iblock then v.(ibuff := v.ibuff[q % BLOCK := c]) else v.(obuff := v.obuff[q % BLOCK := c])
  }

  lemma PutBytes(v: View, q: int, c: int)
    requires ViewOk(v) && Buffered(v, q / BLOCK) && (q / BLOCK == v.iblock ==> v.ichanged)
    ensures ViewOk(PutAt(v, q, c))
    ensures forall p {:trigger Byte(v, p)} {:trigger Byte(PutAt(v, q, c), p)} :: Byte(PutAt(v, q, c), p) == if p == q then c else Byte(v, p)
  {
    var v' := PutAt(v, q, c);
    forall p
      ensures Byte(v', p) == if p == q then c else Byte(v, p)
    {
      assert p == p / BLOCK * BLOCK + p % BLOCK && q == q / BLOCK * BLOCK + q % BLOCK;
    }
  }

  // ---- the lines ----

  /** The blocks before the one for output are in the file, and the other buffer is a copy of one of them. */
  ghost predicate Blocks(v: View) {
    && ViewOk(v) && !v.ichanged && (v.iblock == -1 || v.iblock < v.oblock)
    && forall b {:trigger b in v.disk} :: 0 <= b < v.oblock ==> b in v.disk
  }

  /** A line and its NUL are at a token, two bytes to a unit. */
  ghost predicate LineAt(v: View, tok: int, text: seq<int>) {
    && (forall k {:trigger text[k]} :: 0 <= k < |text| ==> text[k] != 0 && Byte(v, 2 * tok + k) == text[k])
    && Byte(v, 2 * tok + |text|) == 0
  }

  /** tline is the end of what was written, which is in the block for output. */
  ghost predicate Ends(v: View, tline: int) {
    && tline >= 2 && tline % 2 == 0
    && if v.oblock == -1 then tline == 2 else v.oblock * BLOCK < 2 * tline <= (v.oblock + 1) * BLOCK
  }

  ghost predicate Inv(v: View, tline: int, lines: map<int, seq<int>>) {
    && Blocks(v) && Ends(v, tline)
    && forall tok {:trigger lines[tok]} {:trigger tok in lines} :: tok in lines ==>
        2 <= tok && tok % 2 == 0 && 2 * tok + |lines[tok]| < 2 * tline && LineAt(v, tok, lines[tok])
  }

  ghost predicate SameBytes(v: View, v': View, lo: int, hi: int) {
    forall q {:trigger Byte(v', q)} :: lo <= q < hi ==> Byte(v', q) == Byte(v, q)
  }

  lemma LineSame(v: View, v': View, tok: int, text: seq<int>, hi: int)
    requires LineAt(v, tok, text) && 2 <= tok && 2 * tok + |text| < hi && SameBytes(v, v', 4, hi)
    ensures LineAt(v', tok, text)
  {
    hide Byte;
  }

  // ---- reading ----

  lemma Readable(v: View, tline: int, q: int)
    requires Blocks(v) && Ends(v, tline) && 4 <= q < 2 * tline
    ensures Buffered(v, q / BLOCK) || q / BLOCK in v.disk
  {
    assert q / BLOCK <= v.oblock;
  }

  /** Reading changes no byte. */
  lemma ReadKeeps(v: View, tline: int, lines: map<int, seq<int>>, b: int)
    requires Inv(v, tline, lines) && b >= 0 && (Buffered(v, b) || b in v.disk) && b <= v.oblock
    ensures Inv(Fetch(v, b, false), tline, lines) && Fetch(v, b, false).oblock == v.oblock
    ensures forall q {:trigger Byte(v, q)} :: Byte(Fetch(v, b, false), q) == Byte(v, q)
  {
    hide Byte, Data, LineAt;
    var v' := Fetch(v, b, false);
    FetchKeeps(v, b, false);
    forall q
      ensures Byte(v', q) == Byte(v, q)
    {
      FetchBytes(v, b, false, q);
    }
    forall tok | tok in lines
      ensures LineAt(v', tok, lines[tok])
    {
      LineSame(v, v', tok, lines[tok], 2 * tline);
    }
  }

  // ---- writing ----

  /** The bytes s are being written from start on, and what was there before is as it was. */
  ghost predicate Writing(v0: View, v: View, start: int, s: seq<int>) {
    && Blocks(v) && 4 <= start && SameBytes(v0, v, 4, start)
    && forall k {:trigger s[k]} :: 0 <= k < |s| ==> Byte(v, start + k) == s[k]
  }

  lemma WriteByte(v0: View, v: View, start: int, s: seq<int>, c: int)
    requires Writing(v0, v, start, s) && v.oblock == (start + |s|) / BLOCK
    ensures Writing(v0, PutAt(v, start + |s|, c), start, s + [c]) && PutAt(v, start + |s|, c).oblock == v.oblock
  {
    hide Byte;
    PutBytes(v, start + |s|, c);
  }

  /** The next block is begun, when the one before is full or there is none. */
  lemma NewBlock(v0: View, v: View, start: int, s: seq<int>)
    requires Writing(v0, v, start, s) && if v.oblock == -1 then start == 4 && s == [] else (v.oblock + 1) * BLOCK == start + |s|
    ensures var v' := Fetch(v, v.oblock + 1, true); Writing(v0, v', start, s) && v'.oblock == v.oblock + 1
  {
    hide Byte, Data;
    var b := v.oblock + 1;
    var v' := Fetch(v, b, true);
    FetchKeeps(v, b, true);
    forall q | 4 <= q < start + |s|
      ensures Byte(v', q) == Byte(v, q)
    {
      FetchBytes(v, b, true, q);
    }
  }

  lemma StartLine(v: View, tline: int, lines: map<int, seq<int>>)
    requires Inv(v, tline, lines)
    ensures var v' := Fetch(v, tline / 256, true);
            Writing(v, v', 2 * tline, []) && v'.oblock == 2 * tline / BLOCK == tline / 256
    ensures ViewOk(v) && tline >= 2 && tline !in lines && tline % 256 / 2 * 4 == 2 * tline % BLOCK
  {
    hide Byte, LineAt, Data, Fetch;
    NextStart(v, tline);
    FetchSame(v, tline / 256);
    if v.oblock != tline / 256 {
      NewBlock(v, v, 2 * tline, []);
    }
  }

  /** A token of 2 * h, in block a and h - 128 * a pairs of bytes, doubled, into it. */
  lemma Units(h: int) returns (a: int, r: int)
    requires h >= 0
    ensures h == 128 * a + r && 0 <= r < 128 && a >= 0
    ensures 2 * h / 256 == a && 2 * h % 256 / 2 == r
    ensures (2 * h + 1) / 256 == a && (2 * h + 1) % 256 / 2 == r
    ensures 4 * h / BLOCK == a && 4 * h % BLOCK == 4 * r
  {
    a, r := h / 128, h % 128;
  }

  lemma NextStart(v: View, tline: int)
    requires Ends(v, tline) && v.oblock >= -1
    ensures 2 * tline / BLOCK == tline / 256 && tline % 256 / 2 * 4 == 2 * tline % BLOCK
    ensures tline / 256 == v.oblock || (tline / 256 == v.oblock + 1 && if v.oblock == -1 then tline == 2 else 2 * tline == (v.oblock + 1) * BLOCK)
  {
    var h := tline / 2;
    var a, r := Units(h);
    assert tline == 2 * h && 2 * tline == 4 * h;
  }

  lemma FetchSame(v: View, b: int)
    requires Blocks(v) && b >= 0 && b >= v.oblock
    ensures b == v.oblock ==> Fetch(v, b, true) == v
  {
  }

  /** A line that has been written is a line of the store. */
  lemma LineWritten(v0: View, v: View, tline: int, lines: map<int, seq<int>>, text: seq<int>)
    requires Inv(v0, tline, lines) && Writing(v0, v, 2 * tline, text + [0]) && forall k :: 0 <= k < |text| ==> text[k] != 0
    requires v.oblock == (2 * tline + |text|) / BLOCK
    ensures Inv(v, tline + (|text| + 4) / 4 * 2, lines[tline := text])
  {
    hide Byte;
    var tline' := tline + (|text| + 4) / 4 * 2;
    var s := text + [0];
    assert forall k :: 0 <= k < |text| ==> s[k] == text[k];
    assert s[|text|] == 0;
    assert LineAt(v, tline, text);
    Bounds(tline, |text|);
    forall tok | tok in lines
      ensures LineAt(v, tok, lines[tok])
    {
      LineSame(v0, v, tok, lines[tok], 2 * tline);
    }
  }

  lemma Bounds(tline: int, n: int)
    requires tline >= 2 && tline % 2 == 0 && n >= 0
    ensures var t := tline + (n + 4) / 4 * 2;
            var b := (2 * tline + n) / BLOCK;
            t % 2 == 0 && 2 * tline + n < 2 * t && b * BLOCK < 2 * t <= (b + 1) * BLOCK
  {
    var h, m, b := tline / 2, (n + 4) / 4, (2 * tline + n) / BLOCK;
    assert tline == 2 * h && n + 1 <= 4 * m <= n + 4;
    assert 512 * b <= 4 * h + n < 512 * b + 512;
    assert h + m <= 128 * b + 128;
  }

  // ---- the program ----

  class Store {
    const ibuff: array<int>
    const obuff: array<int>
    var iblock: int
    var oblock: int
    var ichanged: bool
    var tline: int
    var disk: map<int, seq<int>>

    predicate Buffers()
      reads this
    {
      ibuff.Length == obuff.Length == BLOCK && ibuff != obuff
    }

    function V(): View
      reads this, ibuff, obuff
    {
      View(iblock, ibuff[..], ichanged, oblock, obuff[..], disk)
    }

    /** getblock: the buffer that holds the block of a token, the offset of the token in it, and how many bytes are left. */
    method Getblock(atl: int, write: bool) returns (buf: array<int>, off: int, nleft: int)
      requires Buffers() && ViewOk(V()) && atl >= 0 && (!write ==> Buffered(V(), atl / 256) || atl / 256 in disk)
      modifies this`iblock, this`oblock, this`ichanged, this`disk, ibuff
      ensures V() == Fetch(old(V()), atl / 256, write) && ViewOk(V())
      ensures buf == if iblock == atl / 256 then ibuff else obuff
      ensures Buffered(V(), atl / 256) && (write && iblock == atl / 256 ==> ichanged)
      ensures off == atl % 256 / 2 * 4 && nleft == BLOCK - off
    {
      hide Data;
      FetchKeeps(V(), atl / 256, write);
      var bno := atl / 256;
      off := atl % 256 / 2 * 4;
      nleft := BLOCK - off;
      if bno == iblock {
        ichanged := ichanged || write;
        return ibuff, off, nleft;
      }
      if bno == oblock {
        return obuff, off, nleft;
      }
      if !write {
        if ichanged {
          disk := disk[iblock := ibuff[..]];
        }
        ichanged := false;
        iblock := bno;
        var d := disk[bno];
        forall k | 0 <= k < BLOCK {
          ibuff[k] := d[k];
        }
        assert ibuff[..] == d;
        return ibuff, off, nleft;
      }
      if oblock >= 0 {
        disk := disk[oblock := obuff[..]];
      }
      oblock := bno;
      buf := obuff;
    }

    constructor ()
      ensures Buffers() && Inv(V(), tline, map[]) && fresh(ibuff) && fresh(obuff)
    {
      ibuff, obuff := new int[BLOCK](_ => 0), new int[BLOCK](_ => 0);
      tline, iblock, oblock, ichanged, disk := 2, -1, -1, false, map[];
    }

    /** init: all lines are gone and the file is made anew; the buffers keep what they have. */
    method Init()
      requires Buffers()
      modifies this
      ensures Inv(V(), tline, map[])
    {
      tline := 2;
      disk := map[];
      iblock, oblock, ichanged := -1, -1, false;
    }

    /** One byte goes into the buffer for output. */
    method Poke(bp: array<int>, off: int, c: int, ghost q: int)
      requires Buffers() && bp == obuff && off == q % BLOCK && oblock == q / BLOCK && iblock != oblock
      modifies obuff
      ensures V() == PutAt(old(V()), q, c)
    {
      ghost var v := V();
      bp[off] := c;
      assert V() == v.(obuff := v.obuff[off := c]);
    }

    /** The variables of putline after the bytes s: bp and off are where the next byte goes. */
    ghost predicate Output(v0: View, start: int, s: seq<int>, bp: array<int>, off: int, nl: int, tl: int)
      reads this, ibuff, obuff
    {
      && Writing(v0, V(), start, s) && oblock == (start + |s|) / BLOCK && iblock != oblock
      && bp == obuff && off == (start + |s|) % BLOCK && nl == BLOCK - off && tl == oblock * 256
    }

    /** One turn of the loop of putline. */
    method PutNext(c: int, bp0: array<int>, off0: int, nl0: int, tl0: int, ghost v0: View, ghost start: int, ghost s: seq<int>)
      returns (bp: array<int>, off: int, nl: int, tl: int)
      requires Buffers() && Output(v0, start, s, bp0, off0, nl0, tl0)
      modifies this`iblock, this`oblock, this`ichanged, this`disk, ibuff, obuff
      ensures Output(v0, start, s + [c], bp, off, nl, tl)
    {
      hide Data, Byte, Blocks, Fetch, Writing, ViewOk;
      BufferIs(v0, V(), start, s);
      WriteByte(v0, V(), start, s, c);
      Poke(bp0, off0, c, start + |s|);
      bp, off, nl, tl := bp0, off0 + 1, nl0 - 1, tl0;
      if nl == 0 {
        NewBlock(v0, V(), start, s + [c]);
        BufferIs(v0, V(), start, s + [c]);
        tl := tl + 256;
        bp, off, nl := Getblock(tl, true);
        BufferIs(v0, V(), start, s + [c]);
      }
    }

    /** putline: the line in linebuf, up to a newline or its NUL, is stored under the token tline. */
    method Putline(linebuf: seq<int>, ghost lines: map<int, seq<int>>) returns (tok: int, lp: int)
      requires Buffers() && Inv(V(), tline, lines) && exists k :: 0 <= k < |linebuf| && Ending(linebuf[k])
      modifies this`iblock, this`oblock, this`ichanged, this`disk, this`tline, ibuff, obuff
      ensures tok == old(tline) && 0 <= lp - 1 < |linebuf| && Ending(linebuf[lp - 1])
      ensures forall k :: 0 <= k < lp - 1 ==> !Ending(linebuf[k])
      ensures Inv(V(), tline, lines[tok := linebuf[..lp - 1]]) && tok !in lines
    {
      hide Inv, Data, Byte, Blocks, Fetch, Writing, ViewOk;
      ghost var v0, start := V(), 2 * tline;
      StartLine(v0, tline, lines);
      tok := tline;
      var tl := tline / 256 * 256;
      var bp, off, nl := Getblock(tline, true);
      lp := 0;
      assert linebuf[..0] == [];
      BufferIs(v0, V(), start, []);
      while !Ending(linebuf[lp])
        invariant 0 <= lp < |linebuf| && forall k :: 0 <= k < lp ==> !Ending(linebuf[k])
        invariant exists k :: lp <= k < |linebuf| && Ending(linebuf[k])
        invariant Output(v0, start, linebuf[..lp], bp, off, nl, tl) && tline == old(tline)
        decreases |linebuf| - lp
      {
        bp, off, nl, tl := PutNext(linebuf[lp], bp, off, nl, tl, v0, start, linebuf[..lp]);
        assert linebuf[..lp] + [linebuf[lp]] == linebuf[..lp + 1];
        lp := lp + 1;
      }
      PutEnd(bp, off, nl, tl, v0, start, linebuf[..lp], lines);
      lp := lp + 1;
      tline := tline + (lp + 3) / 2 / 2 * 2;
    }

    /** The NUL of a line. */
    method PutEnd(bp: array<int>, off: int, ghost nl: int, ghost tl: int, ghost v0: View, ghost start: int, ghost s: seq<int>,
                  ghost lines: map<int, seq<int>>)
      requires Buffers() && Output(v0, start, s, bp, off, nl, tl) && Inv(v0, tline, lines) && start == 2 * tline
      requires forall k :: 0 <= k < |s| ==> s[k] != 0
      modifies obuff
      ensures Inv(V(), tline + (|s| + 4) / 4 * 2, lines[tline := s])
    {
      hide Inv, Data, Byte, Blocks, Writing, ViewOk;
      WriteByte(v0, V(), start, s, 0);
      Poke(bp, off, 0, start + |s|);
      LineWritten(v0, V(), tline, lines, s);
    }

    /** The variables of getline after k bytes of a line. */
    ghost predicate Input(lines: map<int, seq<int>>, tok: int, k: int, bp: array<int>, off: int, nl: int, tl: int)
      reads this, ibuff, obuff
    {
      && Inv(V(), tline, lines) && tok in lines && 0 <= k <= |lines[tok]|
      && (bp == ibuff || bp == obuff) && bp == (if iblock == (2 * tok + k) / BLOCK then ibuff else obuff) && Buffered(V(), (2 * tok + k) / BLOCK)
      && off == (2 * tok + k) % BLOCK && nl == BLOCK - off && tl == (2 * tok + k) / BLOCK * 256
      && 0 <= off < bp.Length && bp[off] == if k < |lines[tok]| then lines[tok][k] else 0
    }

    /** One turn of the loop of getline. */
    method GetNext(bp0: array<int>, off0: int, nl0: int, tl0: int, ghost lines: map<int, seq<int>>, ghost tok: int, ghost k: int)
      returns (bp: array<int>, off: int, nl: int, tl: int)
      requires Buffers() && Input(lines, tok, k, bp0, off0, nl0, tl0) && k < |lines[tok]|
      modifies this`iblock, this`oblock, this`ichanged, this`disk, ibuff
      ensures Input(lines, tok, k + 1, bp, off, nl, tl)
    {
      hide Inv, Data, Byte, Blocks, Fetch, ViewOk, LineAt;
      bp, off, nl, tl := bp0, off0 + 1, nl0 - 1, tl0;
      ReadNext(V(), tline, lines, tok, k + 1);
      if nl == 0 {
        tl := tl + 256;
        ReadKeeps(V(), tline, lines, (2 * tok + k + 1) / BLOCK);
        bp, off, nl := Getblock(tl, false);
        ReadNext(V(), tline, lines, tok, k + 1);
      }
    }

    method GetFirst(tl0: int, ghost lines: map<int, seq<int>>, ghost tok: int) returns (bp: array<int>, off: int, nl: int, tl: int)
      requires Buffers() && Inv(V(), tline, lines) && (tl0 in lines || (tl0 % 2 == 1 && tl0 - 1 in lines)) && tok == tl0 - tl0 % 2
      modifies this`iblock, this`oblock, this`ichanged, this`disk, ibuff
      ensures Input(lines, tok, 0, bp, off, nl, tl) && forall k :: 0 <= k < |lines[tok]| ==> lines[tok][k] != 0
    {
      hide Inv, Data, Byte, Blocks, Fetch, ViewOk, LineAt;
      TokenFacts(V(), tline, lines, tl0);
      ReadKeeps(V(), tline, lines, 2 * tok / BLOCK);
      bp, off, nl := Getblock(tl0, false);
      tl := tl0 / 256 * 256;
      ReadNext(V(), tline, lines, tok, 0);
    }

    /** getline: the line of a token, whether or not it is marked. */
    method Getline(tl0: int, ghost lines: map<int, seq<int>>) returns (linebuf: seq<int>)
      requires Buffers() && Inv(V(), tline, lines) && (tl0 in lines || (tl0 % 2 == 1 && tl0 - 1 in lines))
      modifies this`iblock, this`oblock, this`ichanged, this`disk, ibuff
      ensures Inv(V(), tline, lines) && linebuf == lines[tl0 - tl0 % 2]
    {
      hide Inv, Data, Byte, Blocks, Fetch, ViewOk, LineAt, Buffered;
      linebuf := [];
      ghost var tok := tl0 - tl0 % 2;
      var bp, off, nl, tl := GetFirst(tl0, lines, tok);
      ghost var text := lines[tok];
      while bp[off] != 0
        invariant |linebuf| <= |text| && linebuf == text[..|linebuf|] && Input(lines, tok, |linebuf|, bp, off, nl, tl)
        decreases |text| - |linebuf|
      {
        var c := bp[off];
        bp, off, nl, tl := GetNext(bp, off, nl, tl, lines, tok, |linebuf|);
        linebuf := linebuf + [c];
      }
    }
  }

  lemma TokenFacts(v: View, tline: int, lines: map<int, seq<int>>, tl0: int)
    requires Inv(v, tline, lines) && (tl0 in lines || (tl0 % 2 == 1 && tl0 - 1 in lines))
    ensures var tok := tl0 - tl0 % 2;
            && tok in lines && ViewOk(v) && tl0 >= 2 && tl0 / 256 == 2 * tok / BLOCK && tl0 % 256 / 2 * 4 == 2 * tok % BLOCK
            && (Buffered(v, tl0 / 256) || tl0 / 256 in v.disk) && 0 <= tl0 / 256 <= v.oblock
            && forall k :: 0 <= k < |lines[tok]| ==> lines[tok][k] != 0
  {
    hide Byte;
    var tok := if tl0 in lines then tl0 else tl0 - 1;
    assert tok % 2 == 0 && LineAt(v, tok, lines[tok]);
    assert tok == tl0 - tl0 % 2;
    Readable(v, tline, 2 * tok);
    var h := tok / 2;
    var a, r := Units(h);
    assert tok == 2 * h && 2 * tok == 4 * h;
    assert 2 * tok / BLOCK == tl0 / 256;
  }

  /** The byte k of a line, in the buffer of its block or not yet there. */
  lemma ReadNext(v: View, tline: int, lines: map<int, seq<int>>, tok: int, k: int)
    requires Inv(v, tline, lines) && tok in lines && 0 <= k <= |lines[tok]|
    ensures var b := (2 * tok + k) / BLOCK;
            && ViewOk(v) && 0 <= b <= v.oblock && (Buffered(v, b) || b in v.disk)
            && (b == v.iblock ==> v.ibuff[(2 * tok + k) % BLOCK] == if k < |lines[tok]| then lines[tok][k] else 0)
            && (b == v.oblock ==> v.obuff[(2 * tok + k) % BLOCK] == if k < |lines[tok]| then lines[tok][k] else 0)
  {
    assert LineAt(v, tok, lines[tok]);
    var q := 2 * tok + k;
    Readable(v, tline, q);
    assert Byte(v, q) == if k < |lines[tok]| then lines[tok][k] else 0;
  }

  lemma BufferIs(v0: View, v: View, start: int, s: seq<int>)
    requires Writing(v0, v, start, s)
    ensures ViewOk(v) && start >= 4 && (v.oblock >= 0 ==> v.iblock != v.oblock)
  {
  }

  predicate Ending(c: int) { c == 0 || c == NL }
}
