/** HyperLogLog objects: two encodings of the same registers. */
module Hll {
  import opened Bytes
  import opened Words
  import opened HllSparse
  import opened HllDense

  const HLL_P: nat := 14

  type Hash = w: Word | |w| == WIDTH witness Zeros(WIDTH)

  // ---------------------------------------------------------------- hllPatLen

  /** The register a 64-bit hash selects. */
  function RegisterOf(h: Hash): (i: nat)
  {
    Val(h[..HLL_P])
  }

  lemma RegisterOfMasked(h: Hash)
    ensures Val(And(h, Mask(WIDTH, HLL_P))) == RegisterOf(h) < HLL_REGISTERS
  {
    AndMask(h, HLL_P);
    EightBits();
    Pow2Adds(8, 6);
  }

  /** The length of the pattern 0...01 read from bit `j` on, the top bit counting as set. */
  function PatternFrom(h: Hash, j: nat): (n: nat)
    requires j < WIDTH
    ensures 1 <= n <= WIDTH - j
    decreases WIDTH - j
  {
    if j == WIDTH - 1 || h[j] then 1 else 1 + PatternFrom(h, j + 1)
  }

  /** What the pattern from bit j on means: the bits before its last are clear, and its last is set unless it is the
      top bit. */
  lemma {:induction false} PatternMeaning(h: Hash, j: nat)
    requires j < WIDTH
    ensures var n := PatternFrom(h, j);
            (forall l :: j <= l < j + n - 1 ==> !h[l]) && (j + n == WIDTH || h[j + n - 1])
    decreases WIDTH - j
  {
    if j != WIDTH - 1 && !h[j] {
      PatternMeaning(h, j + 1);
    }
  }

  /** The pattern of an element starts at bit 14, after the bits of its register: bits 14 to 12 + n are clear, and bit
      13 + n is set, or is the sentinel. */
  function PatternLength(h: Hash): (n: nat)
    ensures 1 <= n <= 50
    ensures forall l :: 14 <= l < 13 + n ==> !h[l]
    ensures n == 50 || h[13 + n]
  {
    PatternMeaning(h, HLL_P);
    PatternFrom(h, HLL_P)
  }

  lemma TestBit(h: Hash, j: nat)
    requires j < WIDTH
    ensures And(h, Single(j)) == Zeros(WIDTH) <==> !h[j]
  {
    assert And(h, Single(j))[j] == h[j];
    assert !Zeros(WIDTH)[j];
  }

  /** `hllPatLen` on the hash of the element. */
  method PatLen(hash0: Hash) returns (count: nat, regp: nat)
    ensures count == PatternLength(hash0) && regp == RegisterOf(hash0)
    ensures regp == Val(hash0[..14])
    ensures 1 <= count <= 50 && (forall l :: 14 <= l < 13 + count ==> !hash0[l])
    ensures count == 50 || hash0[13 + count]
  {
    regp := Val(And(hash0, Mask(WIDTH, HLL_P)));
    RegisterOfMasked(hash0);
    var hash := Or(hash0, Single(WIDTH - 1));
    var bit := Single(HLL_P);
    ghost var j := HLL_P;
    count := 1;
    TestBit(hash, j);
    while And(hash, bit) == Zeros(WIDTH)
      invariant HLL_P <= j < WIDTH && bit == Single(j)
      invariant count + PatternFrom(hash0, j) == 1 + PatternLength(hash0)
      invariant And(hash, bit) == Zeros(WIDTH) <==> !hash[j]
      decreases WIDTH - j
    {
      count := count + 1;
      assert Shl(Single(j), 1) == Single(j + 1);
      bit := Shl(bit, 1);
      j := j + 1;
      TestBit(hash, j);
    }
  }

  // ---------------------------------------------------------------- registers

  type Registers = r: seq<nat> | |r| == HLL_REGISTERS witness Run(0, HLL_REGISTERS)

  ghost predicate DenseValid(p: seq<Byte>) {
    |p| == DENSE_BYTES
  }

  ghost function DenseRegisters(p: seq<Byte>): Registers
    requires DenseValid(p)
  {
    seq(HLL_REGISTERS, i requires 0 <= i < HLL_REGISTERS => Register(p, i))
  }

  lemma SetRegister(p: seq<Byte>, i: nat, v: Byte)
    requires DenseValid(p) && i < HLL_REGISTERS && v <= HLL_REGISTER_MAX
    ensures DenseValid(DenseSet(p, i, v))
    ensures DenseRegisters(DenseSet(p, i, v)) == DenseRegisters(p)[i := v]
  {
    var q := DenseSet(p, i, v);
    forall j | 0 <= j < HLL_REGISTERS
      ensures DenseRegisters(q)[j] == DenseRegisters(p)[i := v][j]
    {
      GetAfterSet(p, i, v, j);
    }
  }

  /** `hllDenseAdd` */
  method DenseAdd(p: seq<Byte>, index: nat, count: nat) returns (q: seq<Byte>, changed: bool)
    requires DenseValid(p) && index < HLL_REGISTERS && count <= HLL_REGISTER_MAX
    ensures DenseValid(q)
    ensures changed <==> count > DenseRegisters(p)[index]
    ensures DenseRegisters(q) == if changed then DenseRegisters(p)[index := count] else DenseRegisters(p)
  {
    GetReadsRegister(p, index);
    var oldcount := DenseGet(p, index);
    if count > oldcount {
      SetRegister(p, index, count);
      return DenseSet(p, index, count), true;
    }
    return p, false;
  }

  function ZeroBytes(n: nat): (p: seq<Byte>)
    ensures |p| == n
  {
    seq(n, _ => 0)
  }

  lemma {:induction false} ZeroFlat(n: nat)
    ensures Flat(ZeroBytes(n)) == Zeros(8 * n)
  {
    if n > 0 {
      ZeroFlat(n - 1);
      assert ZeroBytes(n)[1..] == ZeroBytes(n - 1);
      Pow2Mono(0, 8);
      FromNatVal(0, 8);
      ZerosVal(8);
      ValInjective(FromNat(0, 8), Zeros(8));
      assert Zeros(8) + Zeros(8 * (n - 1)) == Zeros(8 * n);
    }
  }

  lemma ZeroRegisters()
    ensures DenseRegisters(ZeroBytes(DENSE_BYTES)) == Run(0, HLL_REGISTERS)
  {
    var p := ZeroBytes(DENSE_BYTES);
    ZeroFlat(DENSE_BYTES);
    forall i | 0 <= i < HLL_REGISTERS
      ensures DenseRegisters(p)[i] == 0
    {
      assert Flat(p)[6 * i..6 * i + 6] == Zeros(6);
      ZerosVal(6);
    }
  }

  /** The registers up to `idx` are those of `a`, the others are zero. */
  ghost predicate Filled(p: seq<Byte>, a: seq<nat>)
    requires DenseValid(p)
  {
    |a| <= HLL_REGISTERS && DenseRegisters(p) == a + Run(0, HLL_REGISTERS - |a|)
  }

  lemma FillZeros(p: seq<Byte>, a: seq<nat>, n: nat)
    requires DenseValid(p) && Filled(p, a) && |a| + n <= HLL_REGISTERS
    ensures Filled(p, a + Run(0, n))
  {
  }

  lemma FillOne(p: seq<Byte>, a: seq<nat>, v: Byte)
    requires DenseValid(p) && Filled(p, a) && |a| < HLL_REGISTERS && v <= HLL_REGISTER_MAX
    ensures DenseValid(DenseSet(p, |a|, v)) && Filled(DenseSet(p, |a|, v), a + [v])
  {
    SetRegister(p, |a|, v);
  }

  /** One VAL opcode of `hllSparseToDense`. */
  method SetRun(p0: seq<Byte>, idx0: nat, regval: Byte, runlen: nat, ghost a: seq<nat>) returns (p: seq<Byte>)
    requires DenseValid(p0) && Filled(p0, a) && idx0 == |a| && idx0 + runlen <= HLL_REGISTERS
    requires regval <= HLL_REGISTER_MAX
    ensures DenseValid(p) && Filled(p, a + Run(regval, runlen))
  {
    p := p0;
    var idx, left := idx0, runlen;
    ghost var b: seq<nat> := a;
    while left > 0
      invariant idx == |b| && idx + left == idx0 + runlen
      invariant b == a + Run(regval, |b| - |a|)
      invariant DenseValid(p) && Filled(p, b)
    {
      FillOne(p, b, regval);
      p := DenseSet(p, idx, regval);
      b := b + [regval];
      idx, left := idx + 1, left - 1;
    }
    assert b == a + Run(regval, runlen);
  }

  /** `hllSparseToDense` on a valid sparse string: the registers are the same. */
  method SparseToDense(s: seq<Byte>) returns (dense: seq<Byte>)
    requires Valid(s)
    ensures DenseValid(dense) && DenseRegisters(dense) == Decode(s)
  {
    dense := ZeroBytes(DENSE_BYTES);
    var p: nat, idx := 0, 0;
    ZeroRegisters();
    WalkStarts(s);
    while p < |s|
      invariant Boundary(s, p) && DenseValid(dense) && Filled(dense, Decode(s[..p]))
      invariant idx == |Decode(s[..p])|
      decreases |s| - p
    {
      StepAt(s, p);
      if IsZero(s[p]) {
        FillZeros(dense, Decode(s[..p]), ZeroLen(s[p]));
        idx := idx + ZeroLen(s[p]);
        p := p + 1;
      } else if IsXzero(s[p]) {
        FillZeros(dense, Decode(s[..p]), XzeroLen(s[p], s[p + 1]));
        idx := idx + XzeroLen(s[p], s[p + 1]);
        p := p + 2;
      } else {
        dense := SetRun(dense, idx, ValValue(s[p]), ValLen(s[p]), Decode(s[..p]));
        idx := idx + ValLen(s[p]);
        p := p + 1;
      }
    }
  }

  // ---------------------------------------------------------------- hllMerge

  function PointwiseMax(a: seq<nat>, b: seq<nat>): (c: seq<nat>)
    requires |a| == |b|
    ensures |c| == |a|
  {
    seq(|a|, i requires 0 <= i < |a| => if a[i] < b[i] then b[i] else a[i])
  }

  /** The first i registers are merged, the others still as they were. */
  ghost predicate MergedTo(max: seq<nat>, max0: seq<nat>, r: seq<nat>, i: nat)
    requires |max0| == |r|
  {
    && |max| == |max0| && i <= |max|
    && (forall k :: 0 <= k < i ==> max[k] == PointwiseMax(max0, r)[k])
    && (forall k :: i <= k < |max| ==> max[k] == max0[k])
  }

  lemma MergeNext(max: seq<nat>, max0: seq<nat>, r: seq<nat>, i: nat)
    requires |max0| == |r| && MergedTo(max, max0, r, i) && i < |r|
    ensures MergedTo(if r[i] > max[i] then max[i := r[i]] else max, max0, r, i + 1)
  {
  }

  lemma AllMerged(max: seq<nat>, max0: seq<nat>, r: seq<nat>)
    requires |max0| == |r|
    ensures MergedTo(max0, max0, r, 0)
    ensures MergedTo(max, max0, r, |r|) ==> max == PointwiseMax(max0, r)
  {
  }

  lemma DenseGetIs(p: seq<Byte>, i: nat)
    requires DenseValid(p) && i < HLL_REGISTERS
    ensures DenseGet(p, i) == DenseRegisters(p)[i]
  {
    GetReadsRegister(p, i);
  }

  /** The dense branch of `hllMerge`. */
  method MergeDense(max0: Registers, p: seq<Byte>) returns (max: seq<nat>)
    requires DenseValid(p)
    ensures max == PointwiseMax(max0, DenseRegisters(p))
  {
    hide DenseRegisters, PointwiseMax, MergedTo;
    max := max0;
    var i := 0;
    ghost var r := DenseRegisters(p);
    AllMerged(max, max0, r);
    while i < HLL_REGISTERS
      invariant i <= HLL_REGISTERS && |max| == HLL_REGISTERS
      invariant MergedTo(max, max0, r, i)
    {
      DenseGetIs(p, i);
      MergeNext(max, max0, r, i);
      var val := DenseGet(p, i);
      if val > max[i] {
        max := max[i := val];
      }
      i := i + 1;
    }
    AllMerged(max, max0, r);
  }

  /** What the sparse branch has done after the registers in `a`. */
  ghost predicate Merged(max: seq<nat>, max0: Registers, a: seq<nat>) {
    && |max| == HLL_REGISTERS && |a| <= HLL_REGISTERS
    && max == PointwiseMax(max0, a + Run(0, HLL_REGISTERS - |a|))
  }

  lemma MergeZeros(max: seq<nat>, max0: Registers, a: seq<nat>, n: nat)
    requires Merged(max, max0, a) && |a| + n <= HLL_REGISTERS
    ensures Merged(max, max0, a + Run(0, n))
  {
    assert a + Run(0, n) + Run(0, HLL_REGISTERS - |a| - n) == a + Run(0, HLL_REGISTERS - |a|);
  }

  method MergeRun(max1: seq<nat>, i0: nat, regval: nat, runlen: nat, ghost max0: Registers, ghost a: seq<nat>)
      returns (max: seq<nat>)
    requires Merged(max1, max0, a) && i0 == |a| && i0 + runlen <= HLL_REGISTERS
    ensures Merged(max, max0, a + Run(regval, runlen))
  {
    max := max1;
    var i, left := i0, runlen;
    ghost var b: seq<nat> := a;
    while left > 0
      invariant i == |b| && i + left == i0 + runlen
      invariant b == a + Run(regval, |b| - |a|)
      invariant Merged(max, max0, b)
    {
      MergeOne(max, max0, b, regval);
      if regval > max[i] {
        max := max[i := regval];
      }
      b := b + [regval];
      i, left := i + 1, left - 1;
    }
    assert b == a + Run(regval, runlen);
  }

  lemma MergeOne(max: seq<nat>, max0: Registers, a: seq<nat>, v: nat)
    requires Merged(max, max0, a) && |a| < HLL_REGISTERS
    ensures Merged(if v > max[|a|] then max[|a| := v] else max, max0, a + [v])
  {
    var z := a + Run(0, HLL_REGISTERS - |a|);
    var z' := a + [v] + Run(0, HLL_REGISTERS - |a| - 1);
    assert z' == z[|a| := v];
  }

  lemma MergeStarts(max0: Registers)
    ensures Merged(max0, max0, [])
  {
    assert [] + Run(0, HLL_REGISTERS) == Run(0, HLL_REGISTERS);
  }

  lemma MergeEnds(max: seq<nat>, max0: Registers, a: seq<nat>)
    requires Merged(max, max0, a) && |a| == HLL_REGISTERS
    ensures max == PointwiseMax(max0, a)
  {
    assert a + Run(0, 0) == a;
  }

  /** The sparse branch of `hllMerge`, on a valid sparse string. */
  method MergeSparse(max0: Registers, s: seq<Byte>) returns (max: seq<nat>)
    requires Valid(s)
    ensures max == PointwiseMax(max0, Decode(s))
  {
    max := max0;
    MergeStarts(max0);
    var p: nat, i := 0, 0;
    WalkStarts(s);
    while p < |s|
      invariant Boundary(s, p) && Merged(max, max0, Decode(s[..p])) && i == |Decode(s[..p])|
      decreases |s| - p
    {
      StepAt(s, p);
      if IsZero(s[p]) {
        MergeZeros(max, max0, Decode(s[..p]), ZeroLen(s[p]));
        i := i + ZeroLen(s[p]);
        p := p + 1;
      } else if IsXzero(s[p]) {
        MergeZeros(max, max0, Decode(s[..p]), XzeroLen(s[p], s[p + 1]));
        i := i + XzeroLen(s[p], s[p + 1]);
        p := p + 2;
      } else {
        max := MergeRun(max, i, ValValue(s[p]), ValLen(s[p]), max0, Decode(s[..p]));
        i := i + ValLen(s[p]);
        p := p + 1;
      }
    }
    MergeEnds(max, max0, Decode(s));
  }
}
