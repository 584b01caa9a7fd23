/** Counting bits and finding one, a word at a time (bitops.c). */
module Bitops {
  import opened Bytes
  import opened Lanes

  // ---------------------------------------------------------------- bits of a string

  /** One when bit k of the byte, counted from the least significant, is set. */
  function BitOf(b: bv8, k: nat): (n: nat)
    requires k < 8
    ensures n <= 1
  {
    if b & OneBit(k) != 0 then 1 else 0
  }

  /** The number of bits set in a byte, one by one. */
  function Pop(b: bv8): (n: nat)
    ensures n <= 8
  {
    BitOf(b, 0) + BitOf(b, 1) + BitOf(b, 2) + BitOf(b, 3) + BitOf(b, 4) + BitOf(b, 5) + BitOf(b, 6) + BitOf(b, 7)
  }

  /** The number of bits set in each byte. */
  function Pops(s: seq<bv8>): (p: seq<nat>)
    ensures |p| == |s| && forall i :: 0 <= i < |s| ==> p[i] == Pop(s[i]) <= 8
  {
    if s == [] then [] else [Pop(s[0])] + Pops(s[1..])
  }

  // ---------------------------------------------------------------- lanes

  /** The three steps on one word of four bytes. */
  function Halves(x: bv32): bv32 { x - ((x >> 1) & 0x55555555) }

  function Quarters(x: bv32): bv32 { (x & 0x33333333) + ((x >> 2) & 0x33333333) }

  function Eighths(x: bv32): bv32 { (x + (x >> 4)) & 0x0F0F0F0F }

  /** The number of bits in the low byte. */
  function Ones8(x: bv32): bv32 {
    (x & 1) + ((x >> 1) & 1) + ((x >> 2) & 1) + ((x >> 3) & 1) + ((x >> 4) & 1) + ((x >> 5) & 1) + ((x >> 6) & 1)
      + ((x >> 7) & 1)
  }

  function Pack(a: bv32, b: bv32, c: bv32, d: bv32): bv32 { a | (b << 8) | (c << 16) | (d << 24) }

  /** Each lane ends with the number of its bits; none runs into the next. */
  lemma LanesCountWord(x: bv32)
    ensures Eighths(Quarters(Halves(x))) ==
      Pack(Ones8(x & 0xFF), Ones8((x >> 8) & 0xFF), Ones8((x >> 16) & 0xFF), Ones8((x >> 24) & 0xFF))
  {
  }

  predicate Few(x: bv32) { x <= 8 }

  lemma PackValue(a: bv32, b: bv32, c: bv32, d: bv32)
    requires Few(a) && Few(b) && Few(c) && Few(d)
    ensures Pack(a, b, c, d) as nat == a as nat + 0x100 * (b as nat) + 0x1_0000 * (c as nat) + 0x100_0000 * (d as nat)
  {
  }

  /** The word that four bytes make; their order does not matter to the count. */
  function Word(a: bv8, b: bv8, c: bv8, d: bv8): bv32 {
    (a as bv32) | ((b as bv32) << 8) | ((c as bv32) << 16) | ((d as bv32) << 24)
  }

  lemma BytesOfWord(a: bv8, b: bv8, c: bv8, d: bv8)
    ensures var x := Word(a, b, c, d);
      x & 0xFF == a as bv32 && (x >> 8) & 0xFF == b as bv32 &&
      (x >> 16) & 0xFF == c as bv32 && (x >> 24) & 0xFF == d as bv32
  {
  }

  function Ones(b: bv8): bv32 { Ones8(b as bv32) }

  lemma OnesBound(b: bv8)
    ensures Few(Ones(b))
  {
  }

  lemma OnesIsPop(b: bv8)
    ensures Ones(b) as nat == Pop(b)
  {
  }

  lemma LanesOfWord(a: bv8, b: bv8, c: bv8, d: bv8)
    ensures Eighths(Quarters(Halves(Word(a, b, c, d)))) == Pack(Ones(a), Ones(b), Ones(c), Ones(d))
  {
    hide Eighths, Quarters, Halves, Ones8, Pack, Word;
    BytesOfWord(a, b, c, d);
    LanesCountWord(Word(a, b, c, d));
  }

  function Load(s: seq<bv8>, i: nat): bv32
    requires i + 4 <= |s|
  {
    Word(s[i], s[i + 1], s[i + 2], s[i + 3])
  }

  /** The last of the three steps, as a number. */
  function Lanes4(x: bv32): nat { Eighths(x) as nat }

  /** What is made of the word at i. */
  function Counted(s: seq<bv8>, i: nat): nat
    requires i + 4 <= |s|
  {
    Lanes4(Quarters(Halves(Load(s, i))))
  }

  lemma WordValue(a: bv8, b: bv8, c: bv8, d: bv8)
    ensures Eighths(Quarters(Halves(Word(a, b, c, d)))) as nat == Packed(Pop(a), Pop(b), Pop(c), Pop(d))
  {
    hide Eighths, Quarters, Halves, Pop, Ones, Pack, Word, Few;
    LanesOfWord(a, b, c, d);
    OnesBound(a);
    OnesBound(b);
    OnesBound(c);
    OnesBound(d);
    PackValue(Ones(a), Ones(b), Ones(c), Ones(d));
    OnesIsPop(a);
    OnesIsPop(b);
    OnesIsPop(c);
    OnesIsPop(d);
  }

  /** One word: its lanes count its bytes. */
  lemma WordCounts(s: seq<bv8>, i: nat)
    requires i + 4 <= |s|
    ensures Counted(s, i) == Packed(Pop(s[i]), Pop(s[i + 1]), Pop(s[i + 2]), Pop(s[i + 3]))
  {
    hide Eighths, Quarters, Halves, Pop, Word, Packed;
    WordValue(s[i], s[i + 1], s[i + 2], s[i + 3]);
  }

  // ---------------------------------------------------------------- counting

  lemma PartAt(s: seq<bv8>, p: nat, k: nat)
    requires p + 28 <= |s| && k < 28
    ensures Pops(s)[p..p + 28][k] == Pop(s[p + k])
  {
    hide Pop;
  }

  /** The word at place k of 28 bytes from p on. */
  lemma WordOfPart(s: seq<bv8>, p: nat, k: nat)
    requires p + 28 <= |s| && k + 4 <= 28
    ensures Counted(s, p + k) == WordAt(Pops(s)[p..p + 28], k)
  {
    hide Counted, Pop, Pops, Packed;
    WordCounts(s, p + k);
    PartAt(s, p, k);
    PartAt(s, p, k + 1);
    PartAt(s, p, k + 2);
    PartAt(s, p, k + 3);
  }

  /** The 28 bytes at p, seven words at once. */
  method PopcountSeven(s: seq<bv8>, p: nat) returns (bits: nat)
    requires p + 28 <= |s|
    ensures bits == Sum(Pops(s)[p..p + 28])
  {
    hide Lanes4, Quarters, Halves, Load, Pops, Sum, U32, WordAt;
    var aux1, aux2, aux3, aux4 := Load(s, p), Load(s, p + 4), Load(s, p + 8), Load(s, p + 12);
    var aux5, aux6, aux7 := Load(s, p + 16), Load(s, p + 20), Load(s, p + 24);
    aux1 := Quarters(Halves(aux1));
    aux2 := Quarters(Halves(aux2));
    aux3 := Quarters(Halves(aux3));
    aux4 := Quarters(Halves(aux4));
    aux5 := Quarters(Halves(aux5));
    aux6 := Quarters(Halves(aux6));
    aux7 := Quarters(Halves(aux7));
    WordOfPart(s, p, 0);
    WordOfPart(s, p, 4);
    WordOfPart(s, p, 8);
    WordOfPart(s, p, 12);
    WordOfPart(s, p, 16);
    WordOfPart(s, p, 20);
    WordOfPart(s, p, 24);
    SevenWords(Pops(s)[p..p + 28]);
    var sum := U32(Lanes4(aux1) + Lanes4(aux2) + Lanes4(aux3) + Lanes4(aux4) +
                   Lanes4(aux5) + Lanes4(aux6) + Lanes4(aux7));
    bits := U32(sum * 0x0101_0101) / 0x100_0000;
  }

  lemma OneMore(p: seq<nat>, i: nat)
    requires i < |p|
    ensures Sum(p[..i + 1]) == Sum(p[..i]) + p[i]
  {
    assert p[..i + 1] == p[..i] + [p[i]];
    SumConcat(p[..i], [p[i]]);
    assert [p[i]][1..] == [];
  }

  lemma PartMore(p: seq<nat>, i: nat, n: nat)
    requires i + n <= |p|
    ensures Sum(p[..i + n]) == Sum(p[..i]) + Sum(p[i..i + n])
  {
    assert p[..i + n] == p[..i] + p[i..i + n];
    SumConcat(p[..i], p[i..i + n]);
  }

  /** `redisPopcount`, of a string that starts `align` bytes after a word boundary. */
  method Popcount(s: seq<bv8>, align: nat) returns (bits: nat)
    ensures bits == Sum(Pops(s))
  {
    hide Pop, Sum, Pops;
    ghost var pops := Pops(s);
    bits := 0;
    var p: nat, count: nat := 0, |s|;
    NothingToSum(pops);
    while (align + p) % 4 != 0 && count > 0
      invariant p <= |s| && count == |s| - p && bits == Sum(pops[..p])
      decreases count
    {
      OneMore(pops, p);
      bits, p, count := bits + Pop(s[p]), p + 1, count - 1;
    }
    while count >= 28
      invariant p <= |s| && count == |s| - p && bits == Sum(pops[..p])
    {
      var more := PopcountSeven(s, p);
      PartMore(pops, p, 28);
      bits, p, count := bits + more, p + 28, count - 28;
    }
    while count > 0
      invariant p <= |s| && count == |s| - p && bits == Sum(pops[..p])
    {
      OneMore(pops, p);
      bits, p, count := bits + Pop(s[p]), p + 1, count - 1;
    }
    assert pops[..|s|] == pops;
  }

  lemma NothingToSum(p: seq<nat>)
    ensures Sum(p[..0]) == 0
  {
  }
}
