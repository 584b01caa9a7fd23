/** The dense HyperLogLog encoding: 6-bit registers packed into bytes, least significant bit first. */
module HllDense {
  import opened Bytes
  import opened Words

  const HLL_BITS: nat := 6
  const HLL_REGISTER_MAX: nat := 63

  /** The 12288 bytes of the registers and the terminator every sds string has. */
  const DENSE_BYTES: nat := 12289

  /** A byte as an `unsigned long`. */
  function Wide(b: Byte): (w: Word)
    ensures |w| == WIDTH
  {
    FromNat(b, 8) + Zeros(WIDTH - 8)
  }

  /** The assignment of an `unsigned long` to a byte. */
  function Narrow(w: Word): Byte
    requires |w| == WIDTH
  {
    ValBound(w[..8]);
    assert Pow2(8) == 256 by { EightBits(); }
    Val(w[..8])
  }

  lemma EightBits()
    ensures Pow2(8) == 256 && Pow2(6) == 64
  {
    assert Pow2(2) == 2 * Pow2(1) && Pow2(1) == 2 * Pow2(0);
    Pow2Adds(2, 2);
    Pow2Adds(4, 4);
    Pow2Adds(4, 2);
  }

  // ---------------------------------------------------------------- the macros

  /** HLL_DENSE_GET_REGISTER */
  function DenseGet(p: seq<Byte>, regnum: nat): nat
    requires regnum * HLL_BITS / 8 + 1 < |p|
  {
    var byte := regnum * HLL_BITS / 8;
    var fb := regnum * HLL_BITS % 8;
    var fb8 := 8 - fb;
    Val(And(Or(Shr(Wide(p[byte]), fb), Shl(Wide(p[byte + 1]), fb8)), Mask(WIDTH, HLL_BITS)))
  }

  /** `(b & ~(63 << fb)) | (v << fb)` */
  function LowByte(b: Byte, v: Byte, fb: nat): (w: Word)
    ensures |w| == WIDTH
  {
    Or(And(Wide(b), Not(Shl(Mask(WIDTH, HLL_BITS), fb))), Shl(Wide(v), fb))
  }

  /** `(b & ~(63 >> fb8)) | (v >> fb8)` */
  function HighByte(b: Byte, v: Byte, fb8: nat): (w: Word)
    ensures |w| == WIDTH
  {
    Or(And(Wide(b), Not(Shr(Mask(WIDTH, HLL_BITS), fb8))), Shr(Wide(v), fb8))
  }

  /** HLL_DENSE_SET_REGISTER */
  function DenseSet(p: seq<Byte>, regnum: nat, val: Byte): (q: seq<Byte>)
    requires regnum * HLL_BITS / 8 + 1 < |p|
    ensures |q| == |p|
  {
    var byte := regnum * HLL_BITS / 8;
    var fb := regnum * HLL_BITS % 8;
    var fb8 := 8 - fb;
    p[byte := Narrow(LowByte(p[byte], val, fb))][byte + 1 := Narrow(HighByte(p[byte + 1], val, fb8))]
  }

  // ---------------------------------------------------------------- the bit string

  /** All the bits of the bytes, in order. */
  function Flat(p: seq<Byte>): Word {
    if p == [] then [] else FromNat(p[0], 8) + Flat(p[1..])
  }

  lemma {:induction false} FlatBit(p: seq<Byte>, k: nat, j: nat)
    requires k < |p| && j < 8
    ensures |Flat(p)| == 8 * |p|
    ensures Flat(p)[8 * k + j] == FromNat(p[k], 8)[j] == Wide(p[k])[j]
  {
    FlatLength(p);
    if k > 0 {
      FlatBit(p[1..], k - 1, j);
    }
  }

  lemma {:induction false} FlatLength(p: seq<Byte>)
    ensures |Flat(p)| == 8 * |p|
  {
    if p != [] {
      FlatLength(p[1..]);
    }
  }

  /** Register `i`: bits `6i` to `6i + 5`. */
  function Register(p: seq<Byte>, i: nat): nat
    requires 6 * i + 6 <= 8 * |p|
  {
    FlatLength(p);
    Val(Flat(p)[6 * i..6 * i + 6])
  }

  lemma RegisterBound(p: seq<Byte>, i: nat)
    requires 6 * i + 6 <= 8 * |p|
    ensures Register(p, i) <= HLL_REGISTER_MAX
  {
    FlatLength(p);
    EightBits();
    ValBound(Flat(p)[6 * i..6 * i + 6]);
  }

  /** `((b0 >> fb) | (b1 << (8 - fb))) & 63` on two neighbouring bytes reads six consecutive bits. */
  lemma FieldBits(p: seq<Byte>, k: nat, fb: nat)
    requires k + 1 < |p| && 0 <= fb < 8
    ensures |Flat(p)| == 8 * |p|
    ensures And(Or(Shr(Wide(p[k]), fb), Shl(Wide(p[k + 1]), 8 - fb)), Mask(WIDTH, 6)) ==
            Flat(p)[8 * k + fb..8 * k + fb + 6] + Zeros(WIDTH - 6)
  {
    FlatLength(p);
    var b0, b1 := Wide(p[k]), Wide(p[k + 1]);
    var w := And(Or(Shr(b0, fb), Shl(b1, 8 - fb)), Mask(WIDTH, 6));
    forall j | 0 <= j < 6
      ensures w[j] == Flat(p)[8 * k + fb + j]
    {
      if fb + j < 8 {
        FlatBit(p, k, fb + j);
      } else {
        FlatBit(p, k + 1, fb + j - 8);
      }
    }
  }

  lemma ValOfField(f: Word)
    requires |f| == 6
    ensures Val(f + Zeros(WIDTH - 6)) == Val(f)
  {
    ValSplit(f, Zeros(WIDTH - 6));
    ZerosVal(WIDTH - 6);
  }

  lemma GetReadsRegister(p: seq<Byte>, i: nat)
    requires i * HLL_BITS / 8 + 1 < |p|
    ensures 6 * i + 6 <= 8 * |p|
    ensures DenseGet(p, i) == Register(p, i)
  {
    FieldBits(p, i * HLL_BITS / 8, i * HLL_BITS % 8);
    FlatLength(p);
    ValOfField(Flat(p)[6 * i..6 * i + 6]);
  }

  // ---------------------------------------------------------------- setting a register

  lemma {:induction false} FromNatPrefix(x: nat, n: nat, m: nat)
    requires n <= m
    ensures FromNat(x, m)[..n] == FromNat(x, n)
  {
    if n > 0 {
      FromNatPrefix(x / 2, n - 1, m - 1);
      assert FromNat(x, m)[..n] == [x % 2 == 1] + FromNat(x / 2, m - 1)[..n - 1];
    }
  }

  lemma {:induction false} NatOfVal(w: Word)
    ensures FromNat(Val(w), |w|) == w
  {
    if w != [] {
      NatOfVal(w[1..]);
      assert w == [w[0]] + w[1..];
    }
  }

  lemma NarrowBits(w: Word, j: nat)
    requires |w| == WIDTH && j < 8
    ensures FromNat(Narrow(w), 8)[j] == w[j]
  {
    NatOfVal(w[..8]);
  }

  lemma LowByteAt(b: Byte, v: Byte, fb: nat, j: nat)
    requires fb < 8 && j < 8
    ensures LowByte(b, v, fb)[j] ==
              ((Wide(b)[j] && !(fb <= j && j - fb < 6)) || (fb <= j && Wide(v)[j - fb]))
  {
  }

  lemma HighByteAt(b: Byte, v: Byte, fb8: nat, j: nat)
    requires 0 < fb8 <= 8 && j < 8
    ensures HighByte(b, v, fb8)[j] == ((Wide(b)[j] && !(j + fb8 < 6)) || Wide(v)[j + fb8])
  {
  }

  /** The bits of a register value. */
  lemma ValueBit(v: Byte, j: nat)
    requires v <= HLL_REGISTER_MAX && j < WIDTH
    ensures Wide(v)[j] == (j < 6 && FromNat(v, 6)[j])
  {
    HighBitsClear(v);
    FromNatPrefix(v, 6, 8);
    if j < 6 {
      assert Wide(v)[j] == FromNat(v, 8)[..6][j];
    }
  }

  /** A bit of the low byte written by the set macro. */
  lemma LowByteBit(b: Byte, v: Byte, fb: nat, j: nat)
    requires fb < 8 && j < 8 && v <= HLL_REGISTER_MAX
    ensures LowByte(b, v, fb)[j] == if fb <= j < fb + 6 then FromNat(v, 6)[j - fb] else Wide(b)[j]
  {
    LowByteAt(b, v, fb, j);
    if fb <= j {
      ValueBit(v, j - fb);
    }
  }

  /** A bit of the high byte written by the set macro. */
  lemma HighByteBit(b: Byte, v: Byte, fb: nat, j: nat)
    requires fb < 8 && j < 8 && v <= HLL_REGISTER_MAX
    ensures HighByte(b, v, 8 - fb)[j] == if j + 8 < fb + 6 then FromNat(v, 6)[j + 8 - fb] else Wide(b)[j]
  {
    HighByteAt(b, v, 8 - fb, j);
    ValueBit(v, j + 8 - fb);
  }

  lemma HighBitsClear(v: Byte)
    requires v <= HLL_REGISTER_MAX
    ensures !Wide(v)[6] && !Wide(v)[7]
  {
    EightBits();
    HalvedAway(v, 6);
    FromNatShift(v, 6, 8);
    WideBit(v, 6);
    WideBit(v, 7);
    hide *;
  }

  lemma WideBit(b: Byte, j: nat)
    requires j < 8
    ensures Wide(b)[j] == FromNat(b, 8)[j]
  {
  }

  lemma {:induction false} HalvedAway(x: nat, k: nat)
    requires x < Pow2(k)
    ensures Halved(x, k) == 0
  {
    if k > 0 {
      HalvedAway(x / 2, k - 1);
    }
  }

  lemma FromNatShift(x: nat, k: nat, n: nat)
    requires k <= n
    ensures k < n ==> FromNat(x, n)[k] == (Halved(x, k) % 2 == 1)
    ensures k + 1 < n ==> FromNat(x, n)[k + 1] == (Halved(x, k) / 2 % 2 == 1)
  {
    if k > 0 {
      FromNatShift(x / 2, k - 1, n - 1);
      assert FromNat(x, n)[1..] == FromNat(x / 2, n - 1);
    } else if n > 1 {
      assert FromNat(x, n)[1..] == FromNat(x / 2, n - 1);
    }
  }

  function Halved(x: nat, k: nat): nat {
    if k == 0 then x else Halved(x / 2, k - 1)
  }

  /** Setting register `i` rewrites exactly its six bits. */
  lemma SetFlatBit(p: seq<Byte>, i: nat, v: Byte, n: nat)
    requires i * HLL_BITS / 8 + 1 < |p| && v <= HLL_REGISTER_MAX && n < 8 * |p|
    ensures |Flat(p)| == 8 * |p| && |Flat(DenseSet(p, i, v))| == 8 * |p|
    ensures Flat(DenseSet(p, i, v))[n] == if 6 * i <= n < 6 * i + 6 then FromNat(v, 6)[n - 6 * i] else Flat(p)[n]
  {
    SetBit(p, i, v, n / 8, n % 8);
  }

  lemma SetByte(p: seq<Byte>, i: nat, v: Byte, k: nat)
    requires i * HLL_BITS / 8 + 1 < |p| && k < |p|
    ensures var byte := i * HLL_BITS / 8; var fb := i * HLL_BITS % 8;
            DenseSet(p, i, v)[k] == if k == byte then Narrow(LowByte(p[k], v, fb))
                                    else if k == byte + 1 then Narrow(HighByte(p[k], v, 8 - fb))
                                    else p[k]
  {
  }

  /** Where bit `j` of byte `k` falls with respect to register `i`. */
  lemma WhichBit(i: nat, k: nat, j: nat)
    requires j < 8
    ensures var byte := i * HLL_BITS / 8; var fb := i * HLL_BITS % 8; var n := 8 * k + j;
            && (6 * i <= n < 6 * i + 6 <==> (k == byte && fb <= j < fb + 6) || (k == byte + 1 && j + 8 < fb + 6))
            && (k == byte ==> n - 6 * i == j - fb)
            && (k == byte + 1 ==> n - 6 * i == j + 8 - fb)
  {
  }

  /** Bit `j` of byte `k` after the set. */
  lemma SetByteBit(p: seq<Byte>, i: nat, v: Byte, k: nat, j: nat)
    requires i * HLL_BITS / 8 + 1 < |p| && v <= HLL_REGISTER_MAX && k < |p| && j < 8
    ensures var n := 8 * k + j;
            Wide(DenseSet(p, i, v)[k])[j] == if 6 * i <= n < 6 * i + 6 then FromNat(v, 6)[n - 6 * i] else Wide(p[k])[j]
  {
    var byte, fb := i * HLL_BITS / 8, i * HLL_BITS % 8;
    WhichBit(i, k, j);
    SetByte(p, i, v, k);
    if k == byte {
      LowByteBit(p[k], v, fb, j);
      NarrowBits(LowByte(p[k], v, fb), j);
    } else if k == byte + 1 {
      HighByteBit(p[k], v, fb, j);
      NarrowBits(HighByte(p[k], v, 8 - fb), j);
    }
  }

  lemma SetBit(p: seq<Byte>, i: nat, v: Byte, k: nat, j: nat)
    requires i * HLL_BITS / 8 + 1 < |p| && v <= HLL_REGISTER_MAX && k < |p| && j < 8
    ensures |Flat(p)| == 8 * |p| && |Flat(DenseSet(p, i, v))| == 8 * |p|
    ensures var n := 8 * k + j;
            Flat(DenseSet(p, i, v))[n] == if 6 * i <= n < 6 * i + 6 then FromNat(v, 6)[n - 6 * i] else Flat(p)[n]
  {
    FlatBit(p, k, j);
    FlatBit(DenseSet(p, i, v), k, j);
    SetByteBit(p, i, v, k, j);
  }

  /** A get after a set: the new value at that register, the old value at every other. */
  lemma GetAfterSet(p: seq<Byte>, i: nat, v: Byte, j: nat)
    requires i * HLL_BITS / 8 + 1 < |p| && v <= HLL_REGISTER_MAX && 6 * j + 6 <= 8 * |p|
    ensures Register(DenseSet(p, i, v), j) == if j == i then v else Register(p, j)
  {
    var f, g := Flat(p), Flat(DenseSet(p, i, v));
    FlatLength(p);
    FlatLength(DenseSet(p, i, v));
    var n := 6 * j;
    var x := if j == i then FromNat(v, 6) else f[n..n + 6];
    forall t | 0 <= t < 6
      ensures g[n + t] == x[t]
    {
      SetFlatBit(p, i, v, n + t);
    }
    SameField(g, n, x);
    if j == i {
      EightBits();
      FromNatVal(v, 6);
    }
  }

  lemma SameField(g: Word, n: nat, x: Word)
    requires |x| == 6 && n + 6 <= |g|
    requires forall t :: 0 <= t < 6 ==> g[n + t] == x[t]
    ensures g[n..n + 6] == x
  {
  }
}
