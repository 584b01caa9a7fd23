/** Finding the first bit of a string that is set, or clear, a word at a time (bitops.c). */
module Bitpos {
  import opened Basics
  import opened Bytes
  import opened Words

  /** The bits of a byte, from the most significant. */
  function ByteBits(b: Byte): (r: seq<bool>)
    ensures |r| == 8
  {
    Reverse(FromNat(b, 8))
  }

  /** Bit i of a string, read from left to right; past the end it is clear. */
  predicate BitAt(s: seq<Byte>, i: nat) { i / 8 < |s| && ByteBits(s[i / 8])[i % 8] }

  /** The place values of the bits. */
  const PLACES: seq<nat> := [128, 64, 32, 16, 8, 4, 2, 1]

  /** The first bit of a byte is the one worth 128, the last the one worth 1. */
  lemma BitsByPlace(b: Byte, k: nat)
    requires k < 8
    ensures ByteBits(b)[k] == (b / PLACES[k] % 2 == 1)
  {
    BitOfNat(b, 8, 7 - k);
    assert Pow2(0) == 1 && Pow2(1) == 2 && Pow2(2) == 4 && Pow2(3) == 8;
    assert Pow2(4) == 2 * Pow2(3) && Pow2(5) == 2 * Pow2(4) && Pow2(6) == 2 * Pow2(5) && Pow2(7) == 2 * Pow2(6);
  }

  lemma {:induction false} BitOfNat(x: nat, n: nat, k: nat)
    requires k < n
    ensures FromNat(x, n)[k] == (x / Pow2(k) % 2 == 1)
  {
    if k > 0 {
      BitOfNat(x / 2, n - 1, k - 1);
      HalvesAgain(x, Pow2(k - 1));
    }
  }

  lemma HalvesAgain(x: nat, p: nat)
    requires p > 0
    ensures x / 2 / p == x / (2 * p)
  {
    var q, r := x / 2 / p, x / 2 % p;
    assert x / 2 == p * q + r;
    ModUnique(x, 2 * p, q, 2 * r + x % 2);
  }

  /** Every bit of the byte is this one. */
  predicate AllBits(b: Byte, bit: bool) { forall k :: 0 <= k < 8 ==> ByteBits(b)[k] == bit }

  const UCHAR_MAX: Byte := 255

  lemma {:induction false} ZeroWord(n: nat)
    ensures FromNat(0, n) == Zeros(n)
  {
    if n > 0 {
      ZeroWord(n - 1);
      assert Zeros(n) == [false] + Zeros(n - 1);
    }
  }

  lemma {:induction false} OnesWord(n: nat)
    ensures FromNat(Pow2(n) - 1, n) == Ones(n)
  {
    if n > 0 {
      OnesWord(n - 1);
      assert (Pow2(n) - 1) % 2 == 1 && (Pow2(n) - 1) / 2 == Pow2(n - 1) - 1;
      assert Ones(n) == [true] + Ones(n - 1);
    }
  }

  lemma Pow2Of8()
    ensures Pow2(8) == 256
  {
    assert Pow2(4) == 16;
  }

  lemma FullByte()
    ensures AllBits(0, false) && AllBits(UCHAR_MAX, true)
  {
    Pow2Of8();
    ZeroWord(8);
    OnesWord(8);
  }

  /** The byte that a search for `bit` skips. */
  function Skip(bit: bool): Byte { if bit then 0 else UCHAR_MAX }

  /** A byte without the bit is skipped. */
  lemma WithoutBit(b: Byte, bit: bool)
    requires AllBits(b, !bit)
    ensures b == Skip(bit)
  {
    FullByte();
    var v := Skip(bit);
    assert AllBits(v, !bit);
    assert FromNat(b, 8) == FromNat(v, 8) by {
      forall k | 0 <= k < 8 ensures FromNat(b, 8)[k] == FromNat(v, 8)[k] {
        assert ByteBits(b)[7 - k] == ByteBits(v)[7 - k];
      }
    }
    hide ByteBits, AllBits;
    FromNatVal(b, 8);
    FromNatVal(v, 8);
    Pow2Of8();
  }

  /** Bit k of the string from byte p on. */
  predicate Rest(s: seq<Byte>, p: nat, k: nat) { BitAt(s, 8 * p + k) }

  lemma RestAt(s: seq<Byte>, p: nat, m: nat, r: nat)
    requires r < 8
    ensures Rest(s, p, 8 * m + r) == (p + m < |s| && ByteBits(s[p + m])[r])
  {
    hide ByteBits;
    assert (8 * p + (8 * m + r)) / 8 == p + m && (8 * p + (8 * m + r)) % 8 == r;
  }

  /** The bytes that a search for `bit` skips. */
  lemma SkipsByte(s: seq<Byte>, c: nat, bit: bool)
    requires c < |s| && s[c] == Skip(bit)
    ensures forall r: nat :: r < 8 ==> Rest(s, c, r) != bit
  {
    FullByte();
    forall r: nat | r < 8 ensures Rest(s, c, r) != bit {
      RestAt(s, c, 0, r);
    }
  }

  // ---------------------------------------------------------------- loading a word

  /** `word |= c` of a word whose low byte is clear. */
  function WithByte(word: Word, b: Byte): (w: Word)
    requires |word| == WIDTH
    ensures |w| == WIDTH
  {
    Or(word, FromNat(b, WIDTH))
  }

  lemma {:induction false} WideByte(x: nat, n: nat, k: nat)
    requires n >= k && x < Pow2(k)
    ensures FromNat(x, n) == FromNat(x, k) + Zeros(n - k)
  {
    if k == 0 {
      ZeroWord(n);
    } else {
      WideByte(x / 2, n - 1, k - 1);
    }
  }

  lemma ShiftedIn(word: Word, b: Byte, i: nat)
    requires |word| == WIDTH && i < WIDTH
    ensures WithByte(Shl(word, 8), b)[i] == if i < 8 then FromNat(b, 8)[i] else word[i - 8]
  {
    Pow2Of8();
    WideByte(b, WIDTH, 8);
  }

  /** After j bytes the low 8 j bits hold the string from p on, and the others are clear. */
  predicate Loaded(word: Word, s: seq<Byte>, p: nat, j: nat) {
    && |word| == WIDTH && j <= 8
    && (forall i :: 0 <= i < 8 * j ==> word[i] == Rest(s, p, 8 * j - 1 - i))
    && (forall i :: 8 * j <= i < WIDTH ==> !word[i])
  }

  lemma LoadStep(word: Word, s: seq<Byte>, p: nat, j: nat, next: Word)
    requires Loaded(word, s, p, j) && j < 8
    requires next == if p + j < |s| then WithByte(Shl(word, 8), s[p + j]) else Shl(word, 8)
    ensures Loaded(next, s, p, j + 1)
  {
    hide Rest, WithByte;
    forall i | 0 <= i < WIDTH
      ensures next[i] == if i < 8 then Rest(s, p, 8 * j + (7 - i)) else word[i - 8]
    {
      if i < 8 {
        RestAt(s, p, j, 7 - i);
      }
      if p + j < |s| {
        ShiftedIn(word, s[p + j], i);
      }
    }
  }

  method LoadWord(s: seq<Byte>, p: nat) returns (word: Word)
    requires p <= |s|
    ensures Loaded(word, s, p, 8)
  {
    word := Zeros(WIDTH);
    var c, count := p, |s| - p;
    var j := 0;
    while j < 8
      invariant j <= 8 && Loaded(word, s, p, j)
      invariant c + count == |s| && c == if p + j < |s| then p + j else |s|
    {
      hide Shl, WithByte, Rest;
      ghost var before := word;
      word := Shl(word, 8);
      if count > 0 {
        word := WithByte(word, s[c]);
        c, count := c + 1, count - 1;
      }
      LoadStep(before, s, p, j, word);
      j := j + 1;
    }
  }

  // ---------------------------------------------------------------- scanning a word

  lemma TopBit()
    ensures Not(Shr(Ones(WIDTH), 1)) == Single(WIDTH - 1)
  {
  }

  lemma NextBit(k: nat)
    requires k < WIDTH
    ensures Shr(Single(k), 1) == if k == 0 then Zeros(WIDTH) else Single(k - 1)
  {
  }

  lemma TestsBit(word: Word, k: nat)
    requires |word| == WIDTH && k < WIDTH
    ensures And(Single(k), word) != Zeros(WIDTH) <==> word[k]
    ensures Single(k) != Zeros(WIDTH)
  {
    assert Single(k)[k];
    if word[k] {
      assert And(Single(k), word)[k];
    } else {
      assert And(Single(k), word) == Zeros(WIDTH);
    }
  }

  /** Eight bytes that a search for `bit` skips. */
  function SkipWord(bit: bool): (w: seq<Byte>)
    ensures |w| == 8 && forall i :: 0 <= i < 8 ==> w[i] == Skip(bit)
  {
    seq(8, _ => Skip(bit))
  }

  /** No bit before i is this one. */
  ghost predicate NoneBefore(s: seq<Byte>, i: int, bit: bool) { forall k: nat :: k < i ==> BitAt(s, k) != bit }

  lemma NoneInByte(s: seq<Byte>, c: nat, bit: bool)
    requires c < |s| && s[c] == Skip(bit) && NoneBefore(s, 8 * c, bit)
    ensures NoneBefore(s, 8 * (c + 1), bit)
  {
    SkipsByte(s, c, bit);
    forall k: nat | 8 * c <= k < 8 * (c + 1) ensures BitAt(s, k) != bit {
      assert Rest(s, c, k - 8 * c) != bit;
    }
  }

  lemma {:induction false} NoneInBytes(s: seq<Byte>, c: nat, n: nat, bit: bool)
    requires c + n <= |s| && NoneBefore(s, 8 * c, bit) && forall i :: c <= i < c + n ==> s[i] == Skip(bit)
    ensures NoneBefore(s, 8 * (c + n), bit)
  {
    hide NoneBefore;
    if n > 0 {
      NoneInBytes(s, c, n - 1, bit);
      NoneInByte(s, c + n - 1, bit);
    }
  }

  /** The word at c is not one that is skipped, or it runs past the end. */
  predicate Stops(s: seq<Byte>, c: nat, bit: bool) { c <= |s| && (c + 8 <= |s| ==> s[c..c + 8] != SkipWord(bit)) }

  /** A byte that is not skipped has the bit somewhere. */
  lemma HasBit(b: Byte, bit: bool)
    requires b != Skip(bit)
    ensures exists r :: 0 <= r < 8 && ByteBits(b)[r] == bit
  {
    if forall r :: 0 <= r < 8 ==> ByteBits(b)[r] != bit {
      WithoutBit(b, bit);
    }
  }

  /** The word that is scanned holds the bit, unless it is the end of a string without it. */
  lemma WordHasBit(s: seq<Byte>, c: nat, bit: bool, word: Word)
    requires Stops(s, c, bit) && Loaded(word, s, c, 8)
    ensures (exists i :: 0 <= i < WIDTH && word[i] == bit) || (bit && |s| - c < 8)
  {
    if |s| - c >= 8 {
      var k :| 0 <= k < 8 && s[c..c + 8][k] != SkipWord(bit)[k];
      HasBit(s[c + k], bit);
      var r :| 0 <= r < 8 && ByteBits(s[c + k])[r] == bit;
      RestAt(s, c, k, r);
      assert word[63 - (8 * k + r)] == Rest(s, c, 8 * k + r);
    } else if !bit {
      RestAt(s, c, 7, 7);
      assert word[0] == Rest(s, c, 63);
    }
  }

  /** A clear word at the end of a string has no set bit. */
  lemma NoneLeft(s: seq<Byte>, c: nat, word: Word)
    requires c <= |s| && |s| - c < 8 && Loaded(word, s, c, 8) && word == Zeros(WIDTH) && NoneBefore(s, 8 * c, true)
    ensures NoneBefore(s, 8 * |s|, true)
  {
    hide BitAt, Rest;
    forall k: nat | 8 * c <= k < 8 * |s| ensures !BitAt(s, k) {
      RestIs(s, c, k);
      assert word[63 - (k - 8 * c)] == Rest(s, c, k - 8 * c);
    }
  }

  lemma RestIs(s: seq<Byte>, c: nat, k: nat)
    requires 8 * c <= k
    ensures Rest(s, c, k - 8 * c) == BitAt(s, k)
  {
    assert 8 * c + (k - 8 * c) == k;
  }

  /** `redisBitpos`, of a string that starts `align` bytes after a word boundary: the first bit that is this one, where
      clear bits follow the end; -1 only when a set bit is asked for and there is none. */
  method Bitpos(s: seq<Byte>, bit: bool, align: nat) returns (pos: int)
    ensures pos == -1 <==> bit && NoneBefore(s, 8 * |s|, true)
    ensures pos != -1 ==> 0 <= pos <= 8 * |s| && BitAt(s, pos) == bit && NoneBefore(s, pos, bit)
  {
    var c := 0;
    pos := 0;
    while (align + c) % 8 != 0 && c < |s|
      invariant c <= |s| && pos == 8 * c && NoneBefore(s, pos, bit)
      decreases |s| - c
    {
      if s[c] != Skip(bit) {
        break;
      }
      NoneInByte(s, c, bit);
      c, pos := c + 1, pos + 8;
    }
    hide NoneBefore, BitAt, Single;
    while |s| - c >= 8
      invariant c <= |s| && pos == 8 * c && NoneBefore(s, pos, bit)
    {
      if s[c..c + 8] != SkipWord(bit) {
        break;
      }
      assert forall i :: c <= i < c + 8 ==> s[i] == s[c..c + 8][i - c];
      NoneInBytes(s, c, 8, bit);
      c, pos := c + 8, pos + 64;
    }
    assert Stops(s, c, bit);
    var word := LoadWord(s, c);
    WordHasBit(s, c, bit, word);
    if bit && word == Zeros(WIDTH) {
      assert forall i :: 0 <= i < WIDTH ==> !word[i];
      NoneLeft(s, c, word);
      return -1;
    }
    ZerosOnly(word);
    pos := ScanWord(s, c, bit, word);
    Found(s, pos, bit);
  }

  lemma ZerosOnly(word: Word)
    requires |word| == WIDTH
    ensures word != Zeros(WIDTH) ==> exists i :: 0 <= i < WIDTH && word[i]
  {
    if forall i :: 0 <= i < WIDTH ==> !word[i] {
      assert word == Zeros(WIDTH);
    }
  }

  lemma NoneHere(s: seq<Byte>, pos: nat, bit: bool)
    requires NoneBefore(s, pos, bit) && BitAt(s, pos) != bit
    ensures NoneBefore(s, pos + 1, bit)
  {
  }

  /** What the test of a single bit says of the string. */
  lemma ScansBit(word: Word, s: seq<Byte>, c: nat, k: nat)
    requires Loaded(word, s, c, 8) && 0 < k <= WIDTH
    ensures |word| == WIDTH && Single(k - 1) != Zeros(WIDTH)
    ensures (And(Single(k - 1), word) != Zeros(WIDTH)) == word[k - 1] == BitAt(s, 8 * c + (WIDTH - k))
  {
    hide *;
    LoadedBit(word, s, c, k - 1);
    TestsBit(word, k - 1);
  }

  lemma LoadedBit(word: Word, s: seq<Byte>, c: nat, i: nat)
    requires Loaded(word, s, c, 8) && i < WIDTH
    ensures |word| == WIDTH && word[i] == BitAt(s, 8 * c + (WIDTH - 1 - i))
  {
    hide BitAt;
    assert word[i] == Rest(s, c, 8 * 8 - 1 - i);
  }

  /** The bit is somewhere in the low k bits of the word. */
  ghost predicate Below(word: Word, k: nat, bit: bool) {
    k <= |word| && exists i :: 0 <= i < k && word[i] == bit
  }

  lemma BelowNext(word: Word, k: nat, bit: bool)
    requires Below(word, k, bit)
    ensures k > 0 && (word[k - 1] != bit ==> Below(word, k - 1, bit))
  {
  }

  /** The last loop of `redisBitpos`, from the most significant bit down; it does not run to the panic after it. */
  method ScanWord(s: seq<Byte>, c: nat, bit: bool, word: Word) returns (pos: nat)
    requires Loaded(word, s, c, 8) && NoneBefore(s, 8 * c, bit) && Below(word, WIDTH, bit)
    ensures BitAt(s, pos) == bit && NoneBefore(s, pos, bit)
  {
    hide Loaded, NoneBefore, BitAt, Single, Below, And, Zeros, Shr, Not, Ones;
    pos := 8 * c;
    var one := Not(Shr(Ones(WIDTH), 1));
    TopBit();
    ghost var k := WIDTH;
    while one != Zeros(WIDTH)
      invariant 0 <= k <= WIDTH && one == (if k == 0 then Zeros(WIDTH) else Single(k - 1)) && pos == 8 * c + (WIDTH - k)
      invariant NoneBefore(s, pos, bit) && Below(word, k, bit)
      decreases k
    {
      ScansBit(word, s, c, k);
      BelowNext(word, k, bit);
      if (And(one, word) != Zeros(WIDTH)) == bit {
        return;
      }
      NoneHere(s, pos, bit);
      NextBit(k - 1);
      pos, one, k := pos + 1, Shr(one, 1), k - 1;
    }
    BelowNext(word, k, bit);
    ScansBit(word, s, c, k);
    assert false;
  }

  /** A set bit that is found lies in the string, and the first clear one no further than its end. */
  lemma Found(s: seq<Byte>, pos: nat, bit: bool)
    requires BitAt(s, pos) == bit && NoneBefore(s, pos, bit)
    ensures pos <= 8 * |s| && (bit ==> !NoneBefore(s, 8 * |s|, true))
  {
    assert !BitAt(s, 8 * |s|);
    assert bit ==> pos < 8 * |s|;
  }
}
