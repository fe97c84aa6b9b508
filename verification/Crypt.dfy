/**
 * usr/src/cmd/crypt.c: the tables that setup builds from a key, and the
 * rotor that turns one way to encrypt and to decrypt. The tables are bytes
 * taken modulo 256, which is how every use of them takes them.
 */
module Crypt {
  import opened Sets

  const ROTORSZ: int := 256

  // ---- the key ----

  const WORD: int := 0x1_0000_0000

  /** The seed of the next round, from the next character of the key, in 32 bits. */
  function NextSeed(seed: int, b: int): (s: int)
    ensures 0 <= s < WORD
  {
    (5 * seed + b) % WORD
  }

  /** The random number of a round: the remainder of the seed by 65521, which has the sign of the seed and is taken as unsigned. */
  function Random(seed: int): (r: int)
    requires 0 <= seed < WORD
    ensures 0 <= r < WORD
  {
    if seed < WORD / 2 then seed % 65521
    else var m := (WORD - seed) % 65521; if m == 0 then 0 else WORD - m
  }

  // ---- what setup promises of its tables ----

  ghost predicate Bytes(t: seq<int>) { |t| == ROTORSZ && forall i :: 0 <= i < ROTORSZ ==> 0 <= t[i] < ROTORSZ }

  ghost predicate Inverse(t: seq<int>, u: seq<int>) {
    && Bytes(t) && Bytes(u)
    && (forall i :: 0 <= i < ROTORSZ ==> u[t[i]] == i)
    && (forall i :: 0 <= i < ROTORSZ ==> t[u[i]] == i)
  }

  /** The reflector pairs the bytes off. */
  ghost predicate Pairing(t: seq<int>) {
    Bytes(t) && forall i :: 0 <= i < ROTORSZ ==> t[i] != i && t[t[i]] == i
  }

  /** Entry j is paired with another. */
  ghost predicate PairAt(t: seq<int>, paired: set<int>, j: int)
    requires Bytes(t)
  {
    0 <= j < ROTORSZ && t[j] in paired && t[j] != j && t[t[j]] == j
  }

  /** The entries in paired are paired off among themselves; those not above k that are paired are paired above k. */
  ghost predicate Partly(t: seq<int>, paired: set<int>, k: int) {
    && Bytes(t) && -1 <= k < ROTORSZ
    && (forall j {:trigger PairAt(t, paired, j)} :: j in paired ==> PairAt(t, paired, j))
    && (forall j :: j in paired ==> 0 <= j < ROTORSZ)
    && (forall j :: 0 <= j < ROTORSZ && j !in paired ==> t[j] == 0)
    && (forall j :: k < j < ROTORSZ ==> j in paired)
    && (forall j :: j in paired && j <= k ==> t[j] > k)
    && |paired| % 2 == 0
  }

  /** An even number of entries are not in paired, so k is not the only one. */
  lemma OtherFree(paired: set<int>, k: int) returns (u: int)
    requires (forall j :: j in paired ==> 0 <= j < ROTORSZ) && |paired| % 2 == 0 && 0 <= k < ROTORSZ && k !in paired
    ensures 0 <= u < ROTORSZ && u !in paired && u != k
  {
    hide Upto;
    var all := Upto(ROTORSZ);
    var free := all - paired;
    assert paired <= all && free + paired == all && free !! paired;
    assert |free| == |all| - |paired|;
    var rest := free - {k};
    assert k in free && |rest| == |free| - 1;
    assert rest != {};
    u :| u in rest;
  }

  /** The unpaired entries are even in number, so if k is one of them there is another, and it is below k. */
  lemma Another(t: seq<int>, paired: set<int>, k: int) returns (u: int)
    requires Partly(t, paired, k) && 0 <= k && t[k] == 0
    ensures k !in paired && 0 <= u < k && t[u] == 0 && u !in paired
  {
    u := OtherFree(paired, k);
  }

  lemma TwoMore(paired: set<int>, k: int, ic: int)
    requires k !in paired && ic !in paired && k != ic
    ensures |paired + {k, ic}| == |paired| + 2
  {
    assert paired + {k, ic} == (paired + {k}) + {ic};
  }

  /** Pairing off k with a free entry below it. */
  lemma PairOff(t: seq<int>, paired: set<int>, k: int, ic: int)
    requires Partly(t, paired, k) && 0 <= ic < k && t[k] == 0 && t[ic] == 0
    ensures k !in paired && ic !in paired
    ensures Partly(t[k := ic][ic := k], paired + {k, ic}, k - 1)
  {
    assert k !in paired && ic !in paired;
    var t', p' := t[k := ic][ic := k], paired + {k, ic};
    TwoMore(paired, k, ic);
    assert Bytes(t');
    forall j | j in p'
      ensures PairAt(t', p', j)
    {
      if j in paired {
        assert PairAt(t, paired, j);
      }
    }
  }

  /** An entry already paired is passed over. */
  lemma PassOver(t: seq<int>, paired: set<int>, k: int)
    requires Partly(t, paired, k) && 0 <= k && t[k] != 0
    ensures Partly(t, paired, k - 1)
  {
    assert k in paired;
    assert forall j :: j in paired && j <= k - 1 ==> t[j] > k - 1;
  }

  /** Steps from ic around the k entries below k to u. */
  ghost function Distance(ic: int, u: int, k: int): int { if ic <= u then u - ic else u - ic + k }

  /** The probe of setup for a free entry below k: it ends because one is free. */
  method Probe(t3: array<int>, k: int, start: int, ghost u: int) returns (ic: int)
    requires t3.Length == ROTORSZ && 0 < k < ROTORSZ && 0 <= start < k && 0 <= u < k && t3[u] == 0
    ensures 0 <= ic < k && t3[ic] == 0
  {
    ic := start;
    while t3[ic] != 0
      invariant 0 <= ic < k
      decreases Distance(ic, u, k)
    {
      Around(ic, k);
      ic := (ic + 1) % k;
    }
  }

  lemma Around(ic: int, k: int)
    requires 0 <= ic < k
    ensures (ic + 1) % k == if ic + 1 == k then 0 else ic + 1
  {
    if ic + 1 < k {
      Small(ic + 1, k);
    }
  }

  lemma Small(x: int, k: int)
    requires 0 <= x < k
    ensures x % k == x
  {
  }

  lemma SwapInverse(t: seq<int>, u: seq<int>, i: int, j: int)
    requires Inverse(t, u) && 0 <= i < ROTORSZ && 0 <= j < ROTORSZ
    ensures Inverse(t[i := t[j]][j := t[i]], u[t[i] := j][t[j] := i])
  {
    var t', u' := t[i := t[j]][j := t[i]], u[t[i] := j][t[j] := i];
    forall x | 0 <= x < ROTORSZ
      ensures u'[t'[x]] == x && t'[u'[x]] == x
    {
      assert u[t[x]] == x && t[u[x]] == x && u[t[i]] == i && u[t[j]] == j;
    }
  }

  /** setup's exchange of two entries of t1. */
  method Exchange(t1: array<int>, k: int, ic: int, ghost inv: seq<int>) returns (ghost inv': seq<int>)
    requires t1.Length == ROTORSZ && Inverse(t1[..], inv) && 0 <= k < ROTORSZ && 0 <= ic < ROTORSZ
    modifies t1
    ensures Inverse(t1[..], inv')
  {
    hide Inverse;
    InverseFacts(t1[..], inv);
    SwapInverse(t1[..], inv, k, ic);
    inv' := inv[t1[k] := ic][t1[ic] := k];
    ghost var s := t1[..];
    var temp := t1[k];
    t1[k] := t1[ic];
    t1[ic] := temp;
    assert t1[..] == s[k := s[ic]][ic := s[k]];
  }

  /** setup's pairing off of entry k of t3. */
  method PairEntry(t3: array<int>, k: int, random: int, ghost paired: set<int>) returns (ghost paired': set<int>)
    requires t3.Length == ROTORSZ && Partly(t3[..], paired, k) && 0 <= k && 0 <= random
    modifies t3
    ensures Partly(t3[..], paired', k - 1)
  {
    hide Partly;
    PartlyRange(t3[..], paired, k);
    if t3[k] != 0 {
      PassOver(t3[..], paired, k);
      return paired;
    }
    ghost var u := Another(t3[..], paired, k);
    var start := (random % 256) % k;
    var ic := Probe(t3, k, start, u);
    PairOff(t3[..], paired, k, ic);
    ghost var w := t3[..];
    t3[k] := ic;
    t3[ic] := k;
    assert t3[..] == w[k := ic][ic := k];
    paired' := paired + {k, ic};
  }

  lemma PartlyRange(t: seq<int>, paired: set<int>, k: int)
    requires Partly(t, paired, k)
    ensures k < ROTORSZ
  {
  }

  /** setup, from the 13 characters that makekey returned. */
  method Setup(buf: seq<int>) returns (t1: array<int>, t2: array<int>, t3: array<int>)
    requires |buf| == 13
    ensures fresh(t1) && fresh(t2) && fresh(t3)
    ensures t1.Length == t2.Length == t3.Length == ROTORSZ
    ensures Inverse(t1[..], t2[..]) && Pairing(t3[..])
  {
    hide Inverse, Partly, Pairing, Random, NextSeed;
    var seed := 123;
    for i := 0 to 13
      invariant 0 <= seed < WORD
    {
      seed := (seed * buf[i] + i) % WORD;
    }
    t1, t3 := new int[ROTORSZ](i => i), new int[ROTORSZ](i => 0);
    ghost var inv, paired := seq(ROTORSZ, i => i), {};
    StartTables(t1[..], inv, t3[..]);
    for i := 0 to ROTORSZ
      invariant 0 <= seed < WORD
      invariant Inverse(t1[..], inv) && Partly(t3[..], paired, ROTORSZ - 1 - i)
    {
      seed := NextSeed(seed, buf[i % 13]);
      var random := Random(seed);
      var k := ROTORSZ - 1 - i;
      var ic := (random % 256) % (k + 1);
      random := random / 256;
      inv := Exchange(t1, k, ic, inv);
      paired := PairEntry(t3, k, random, paired);
    }
    AllPaired(t3[..], paired);
    InverseFacts(t1[..], inv);
    ghost var s1, s3 := t1[..], t3[..];
    t2 := new int[ROTORSZ];
    for i := 0 to ROTORSZ
      modifies t2
      invariant forall j :: 0 <= j < i ==> t2[t1[j]] == j
    {
      t2[t1[i]] := i;
    }
    assert t1[..] == s1 && t3[..] == s3;
    InverseTable(t1[..], inv, t2[..]);
  }

  lemma StartTables(t1: seq<int>, inv: seq<int>, t3: seq<int>)
    requires |t1| == |inv| == |t3| == ROTORSZ
    requires forall i :: 0 <= i < ROTORSZ ==> t1[i] == i && inv[i] == i && t3[i] == 0
    ensures Inverse(t1, inv) && Partly(t3, {}, ROTORSZ - 1)
  {
  }

  lemma InverseFacts(t: seq<int>, u: seq<int>)
    requires Inverse(t, u)
    ensures Bytes(t) && |u| == ROTORSZ && forall i, j :: 0 <= i < j < ROTORSZ ==> t[i] != t[j]
  {
    forall i, j | 0 <= i < j < ROTORSZ
      ensures t[i] != t[j]
    {
      assert u[t[i]] == i && u[t[j]] == j;
    }
  }

  lemma AllPaired(t: seq<int>, paired: set<int>)
    requires Partly(t, paired, -1)
    ensures Pairing(t)
  {
    forall i | 0 <= i < ROTORSZ
      ensures t[i] != i && t[t[i]] == i
    {
      assert PairAt(t, paired, i);
    }
  }

  lemma InverseTable(t: seq<int>, inv: seq<int>, u: seq<int>)
    requires Inverse(t, inv) && |u| == ROTORSZ && forall i :: 0 <= i < ROTORSZ ==> 0 <= t[i] < ROTORSZ && u[t[i]] == i
    ensures Inverse(t, u)
  {
    forall x | 0 <= x < ROTORSZ
      ensures u[x] == inv[x]
    {
      assert t[inv[x]] == x;
    }
  }

  // ---- the stream ----

  function Plus(x: int, n: int): (r: int) ensures 0 <= r < 256 { (x + n) % 256 }

  function Minus(x: int, n: int): (r: int) ensures 0 <= r < 256 { (x - n) % 256 }

  /** One byte through the machine with the rotor at n1, n2. */
  function Cipher(t1: seq<int>, t2: seq<int>, t3: seq<int>, n1: int, n2: int, c: int): (r: int)
    requires Bytes(t1) && Bytes(t2) && Bytes(t3)
    ensures 0 <= r < ROTORSZ
  {
    Minus(t2[Minus(t3[Plus(t1[Plus(c, n1)], n2)], n2)], n1)
  }

  lemma Undo(x: int, n: int)
    requires 0 <= x < 256
    ensures Plus(Minus(x, n), n) == x && Minus(Plus(x, n), n) == x
  {
    Residue(x, (x - n) / 256);
    Residue(x, -((x + n) / 256));
  }

  lemma Residue(x: int, q: int)
    requires 0 <= x < 256
    ensures (x - 256 * q) % 256 == x && (x + 256 * q) % 256 == x
  {
  }

  /** The machine undoes itself at the same setting of the rotor. */
  lemma CipherTwice(t1: seq<int>, t2: seq<int>, t3: seq<int>, n1: int, n2: int, c: int)
    requires Inverse(t1, t2) && Pairing(t3) && 0 <= c < ROTORSZ
    ensures Cipher(t1, t2, t3, n1, n2, Cipher(t1, t2, t3, n1, n2, c)) == c
  {
    hide Plus, Minus;
    var a := Plus(c, n1);
    var b := Plus(t1[a], n2);
    var d := t3[b];
    var e := Minus(d, n2);
    var f := t2[e];
    Undo(f, n1);
    assert t1[f] == e;
    Undo(d, n2);
    assert t3[d] == b;
    Undo(t1[a], n2);
    assert t2[t1[a]] == a;
    Undo(c, n1);
  }

  /**
   * The way in through the first wheel, the reflector at its setting, and the
   * way out through the same wheel meet; and no byte stands for itself.
   */
  lemma RotorEquation(t1: seq<int>, t2: seq<int>, t3: seq<int>, n1: int, n2: int, c: int)
    requires Inverse(t1, t2) && Pairing(t3) && 0 <= c < ROTORSZ
    ensures var out := Cipher(t1, t2, t3, n1, n2, c);
            && out != c
            && t1[(out + n1) % 256] == (t3[(t1[(c + n1) % 256] + n2) % 256] - n2) % 256
  {
    RotorMeets(t1, t2, t3, n1, n2, c);
    hide Cipher;
    assert forall x, n :: Plus(x, n) == (x + n) % 256 && Minus(x, n) == (x - n) % 256;
  }

  lemma RotorMeets(t1: seq<int>, t2: seq<int>, t3: seq<int>, n1: int, n2: int, c: int)
    requires Inverse(t1, t2) && Pairing(t3) && 0 <= c < ROTORSZ
    ensures var out := Cipher(t1, t2, t3, n1, n2, c);
            out != c && t1[Plus(out, n1)] == Minus(t3[Plus(t1[Plus(c, n1)], n2)], n2)
  {
    hide Plus, Minus;
    var a := Plus(c, n1);
    var b := Plus(t1[a], n2);
    var d := t3[b];
    var e := Minus(d, n2);
    Undo(t2[e], n1);
    assert t1[t2[e]] == e;
    Undo(d, n2);
    assert d != b;
  }

  /** Byte j of a stream goes through with the rotor advanced j steps. */
  ghost predicate Ciphered(t1: seq<int>, t2: seq<int>, t3: seq<int>, input: seq<int>, output: seq<int>)
    requires Bytes(t1) && Bytes(t2) && Bytes(t3)
  {
    && |output| == |input|
    && forall j :: 0 <= j < |input| ==> output[j] == Cipher(t1, t2, t3, j % 256, j / 256 % 256, input[j])
  }

  /** The loop of main. */
  method Stream(t1: array<int>, t2: array<int>, t3: array<int>, input: seq<int>) returns (output: seq<int>)
    requires Bytes(t1[..]) && Bytes(t2[..]) && Bytes(t3[..])
    ensures Ciphered(t1[..], t2[..], t3[..], input, output)
  {
    hide Bytes, Cipher;
    var n1, n2 := 0, 0;
    output := [];
    for j := 0 to |input|
      invariant n1 == j % 256 && n2 == j / 256 % 256
      invariant |output| == j
      invariant forall k :: 0 <= k < j ==> output[k] == Cipher(t1[..], t2[..], t3[..], k % 256, k / 256 % 256, input[k])
    {
      output := output + [Cipher(t1[..], t2[..], t3[..], n1, n2, input[j])];
      n1 := n1 + 1;
      if n1 == ROTORSZ {
        n1 := 0;
        n2 := n2 + 1;
        if n2 == ROTORSZ {
          n2 := 0;
        }
      }
      Advance(j);
    }
  }

  lemma Advance(j: int)
    requires 0 <= j
    ensures (j + 1) % 256 == if j % 256 == 255 then 0 else j % 256 + 1
    ensures (j + 1) / 256 == if j % 256 == 255 then j / 256 + 1 else j / 256
    ensures (j / 256 + 1) % 256 == if j / 256 % 256 == 255 then 0 else j / 256 % 256 + 1
  {
  }

  /** For every key and every text, crypt of crypt is the text. */
  method Twice(buf: seq<int>, text: seq<int>) returns (hidden: seq<int>, clear: seq<int>)
    requires |buf| == 13 && forall j :: 0 <= j < |text| ==> 0 <= text[j] < 256
    ensures clear == text && |hidden| == |text| && forall j :: 0 <= j < |text| ==> hidden[j] != text[j]
  {
    hide Ciphered, Cipher;
    var t1, t2, t3 := Setup(buf);
    hidden := Stream(t1, t2, t3, text);
    clear := Stream(t1, t2, t3, hidden);
    StreamTwice(t1[..], t2[..], t3[..], text, hidden, clear);
  }

  lemma StreamTwice(t1: seq<int>, t2: seq<int>, t3: seq<int>, text: seq<int>, hidden: seq<int>, clear: seq<int>)
    requires Inverse(t1, t2) && Pairing(t3) && forall j :: 0 <= j < |text| ==> 0 <= text[j] < 256
    requires Ciphered(t1, t2, t3, text, hidden) && Ciphered(t1, t2, t3, hidden, clear)
    ensures clear == text && |hidden| == |text| && forall j :: 0 <= j < |text| ==> hidden[j] != text[j]
  {
    hide Cipher;
    forall j | 0 <= j < |text|
      ensures clear[j] == text[j] && hidden[j] != text[j]
    {
      RotorEquation(t1, t2, t3, j % 256, j / 256 % 256, text[j]);
      CipherTwice(t1, t2, t3, j % 256, j / 256 % 256, text[j]);
    }
  }
}
