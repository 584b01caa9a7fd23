/** The sums under `hllCount`: the unrolled dense loop, the generic dense loop and the sparse loop all compute
    the same two functions of the registers. Sums are exact reals here. */
module HllSum {
  import opened Bytes
  import opened Words
  import opened HllSparse
  import opened HllDense
  import opened Hll

  /** The table of 2^-reg; only PE[0] == 1 matters below. */
  type Table = t: seq<real> | |t| == 64 && t[0] == 1.0 witness seq(64, _ => 1.0)

  function At(pe: Table, v: nat): real {
    if v < 64 then pe[v] else 0.0
  }

  function RegSum(pe: Table, r: seq<nat>): real {
    if r == [] then 0.0 else At(pe, r[0]) + RegSum(pe, r[1..])
  }

  function ZeroCount(r: seq<nat>): nat {
    if r == [] then 0 else (if r[0] == 0 then 1 else 0) + ZeroCount(r[1..])
  }

  lemma {:induction false} SumConcat(pe: Table, a: seq<nat>, b: seq<nat>)
    ensures RegSum(pe, a + b) == RegSum(pe, a) + RegSum(pe, b)
    ensures ZeroCount(a + b) == ZeroCount(a) + ZeroCount(b)
  {
    if a == [] {
      assert a + b == b;
    } else {
      assert (a + b)[1..] == a[1..] + b;
      SumConcat(pe, a[1..], b);
    }
  }

  lemma {:induction false} SumRun(pe: Table, v: nat, n: nat)
    ensures RegSum(pe, Run(v, n)) == At(pe, v) * n as real
    ensures ZeroCount(Run(v, n)) == if v == 0 then n else 0
  {
    if n > 0 {
      assert Run(v, n)[1..] == Run(v, n - 1);
      SumRun(pe, v, n - 1);
      assert n as real == (n - 1) as real + 1.0;
    }
  }

  /** Each register has its part in the sums: the sum of registers that are all 0 is their number, and one register
      that changes changes it by the difference of the two powers. */
  lemma SumChanges(pe: Table, r: seq<nat>, i: nat, v: nat)
    requires i < |r|
    ensures RegSum(pe, Run(0, |r|)) == |r| as real && ZeroCount(Run(0, |r|)) == |r|
    ensures RegSum(pe, r[i := v]) == RegSum(pe, r) - At(pe, r[i]) + At(pe, v)
    ensures ZeroCount(r[i := v]) == ZeroCount(r) - (if r[i] == 0 then 1 else 0) + (if v == 0 then 1 else 0)
  {
    SumRun(pe, 0, |r|);
    var a, b := r[..i], r[i + 1..];
    assert r == a + ([r[i]] + b) && r[i := v] == a + ([v] + b);
    assert ([r[i]] + b)[1..] == b && ([v] + b)[1..] == b;
    SumConcat(pe, a, [r[i]] + b);
    SumConcat(pe, a, [v] + b);
  }

  // ---------------------------------------------------------------- three bytes, four registers

  /** `b0 & 63`, `(b0 >> 6 | b1 << 2) & 63`, `(b1 >> 4 | b2 << 4) & 63`, `(b2 >> 2) & 63` */
  function Quad(b0: Byte, b1: Byte, b2: Byte): (nat, nat, nat, nat) {
    var m := Mask(WIDTH, HLL_BITS);
    (Val(And(Wide(b0), m)),
     Val(And(Or(Shr(Wide(b0), 6), Shl(Wide(b1), 2)), m)),
     Val(And(Or(Shr(Wide(b1), 4), Shl(Wide(b2), 4)), m)),
     Val(And(Shr(Wide(b2), 2), m)))
  }

  lemma FieldIsRegister(p: seq<Byte>, k: nat, fb: nat, i: nat)
    requires k + 1 < |p| && fb < 8 && 8 * k + fb == 6 * i
    ensures 6 * i + 6 <= 8 * |p|
    ensures Val(And(Or(Shr(Wide(p[k]), fb), Shl(Wide(p[k + 1]), 8 - fb)), Mask(WIDTH, 6))) == Register(p, i)
  {
    FieldBits(p, k, fb);
    FlatLength(p);
    ValOfField(Flat(p)[6 * i..6 * i + 6]);
  }

  /** When the field ends inside the byte the next byte does not matter. */
  lemma InsideByte(b: Byte, c: Byte, fb: nat)
    requires fb <= 2
    ensures And(Shr(Wide(b), fb), Mask(WIDTH, 6)) == And(Or(Shr(Wide(b), fb), Shl(Wide(c), 8 - fb)), Mask(WIDTH, 6))
  {
  }

  lemma OuterFields(p: seq<Byte>, q: nat)
    requires 3 * q + 3 < |p|
    ensures 24 * q + 24 <= 8 * |p|
    ensures Val(And(Wide(p[3 * q]), Mask(WIDTH, 6))) == Register(p, 4 * q)
    ensures Val(And(Shr(Wide(p[3 * q + 2]), 2), Mask(WIDTH, 6))) == Register(p, 4 * q + 3)
  {
    FieldIsRegister(p, 3 * q, 0, 4 * q);
    FieldIsRegister(p, 3 * q + 2, 2, 4 * q + 3);
    InsideByte(p[3 * q], p[3 * q + 1], 0);
    InsideByte(p[3 * q + 2], p[3 * q + 3], 2);
    assert Shr(Wide(p[3 * q]), 0) == Wide(p[3 * q]);
  }

  lemma QuadIsRegisters(p: seq<Byte>, q: nat)
    requires 3 * q + 3 < |p|
    ensures 24 * q + 24 <= 8 * |p|
    ensures Quad(p[3 * q], p[3 * q + 1], p[3 * q + 2]) ==
              (Register(p, 4 * q), Register(p, 4 * q + 1), Register(p, 4 * q + 2), Register(p, 4 * q + 3))
  {
    OuterFields(p, q);
    FieldIsRegister(p, 3 * q, 6, 4 * q + 1);
    FieldIsRegister(p, 3 * q + 1, 4, 4 * q + 2);
  }

  lemma SumQuad(pe: Table, p: seq<Byte>, q: nat)
    requires DenseValid(p) && q < HLL_REGISTERS / 4
    ensures var (r0, r1, r2, r3) := Quad(p[3 * q], p[3 * q + 1], p[3 * q + 2]);
            r0 < 64 && r1 < 64 && r2 < 64 && r3 < 64 &&
            RegSum(pe, DenseRegisters(p)[..4 * q + 4]) ==
              RegSum(pe, DenseRegisters(p)[..4 * q]) + ((pe[r0] + pe[r1]) + (pe[r2] + pe[r3])) &&
            ZeroCount(DenseRegisters(p)[..4 * q + 4]) ==
              ZeroCount(DenseRegisters(p)[..4 * q]) +
              ((if r0 == 0 then 1 else 0) + (if r1 == 0 then 1 else 0) +
               (if r2 == 0 then 1 else 0) + (if r3 == 0 then 1 else 0))
  {
    var r := DenseRegisters(p);
    QuadIsRegisters(p, q);
    SumOne(pe, p, 4 * q);
    SumOne(pe, p, 4 * q + 1);
    SumOne(pe, p, 4 * q + 2);
    SumOne(pe, p, 4 * q + 3);
  }

  lemma SumOne(pe: Table, p: seq<Byte>, i: nat)
    requires DenseValid(p) && i < HLL_REGISTERS
    ensures Register(p, i) < 64
    ensures RegSum(pe, DenseRegisters(p)[..i + 1]) == RegSum(pe, DenseRegisters(p)[..i]) + pe[Register(p, i)]
    ensures ZeroCount(DenseRegisters(p)[..i + 1]) ==
              ZeroCount(DenseRegisters(p)[..i]) + if Register(p, i) == 0 then 1 else 0
  {
    RegisterBound(p, i);
    var r := DenseRegisters(p);
    assert r[..i + 1] == r[..i] + [Register(p, i)];
    SumConcat(pe, r[..i], [Register(p, i)]);
    assert [Register(p, i)][1..] == [];
  }

  // ---------------------------------------------------------------- the loops

  /** The unrolled loop of `hllDenseSum`: 12 bytes, 16 registers a turn. */
  method DenseSum(p: seq<Byte>, pe: Table) returns (e: real, ez: nat)
    requires DenseValid(p)
    ensures e == RegSum(pe, DenseRegisters(p)) && ez == ZeroCount(DenseRegisters(p))
  {
    e, ez := 0.0, 0;
    var j := 0;
    while j < 1024
      invariant j <= 1024
      invariant e == RegSum(pe, DenseRegisters(p)[..16 * j]) && ez == ZeroCount(DenseRegisters(p)[..16 * j])
    {
      var s0, z0 := QuadSum(p, pe, 4 * j);
      var s1, z1 := QuadSum(p, pe, 4 * j + 1);
      var s2, z2 := QuadSum(p, pe, 4 * j + 2);
      var s3, z3 := QuadSum(p, pe, 4 * j + 3);
      e := e + (s0 + s1 + s2 + s3);
      ez := ez + z0 + z1 + z2 + z3;
      j := j + 1;
    }
    assert DenseRegisters(p)[..HLL_REGISTERS] == DenseRegisters(p);
  }

  /** A quarter of the unrolled body. */
  method QuadSum(p: seq<Byte>, pe: Table, q: nat) returns (s: real, z: nat)
    requires DenseValid(p) && q < HLL_REGISTERS / 4
    ensures RegSum(pe, DenseRegisters(p)[..4 * (q + 1)]) == RegSum(pe, DenseRegisters(p)[..4 * q]) + s
    ensures ZeroCount(DenseRegisters(p)[..4 * (q + 1)]) == ZeroCount(DenseRegisters(p)[..4 * q]) + z
  {
    SumQuad(pe, p, q);
    var (r0, r1, r2, r3) := Quad(p[3 * q], p[3 * q + 1], p[3 * q + 2]);
    z := (if r0 == 0 then 1 else 0) + (if r1 == 0 then 1 else 0) +
         (if r2 == 0 then 1 else 0) + (if r3 == 0 then 1 else 0);
    s := (pe[r0] + pe[r1]) + (pe[r2] + pe[r3]);
  }

  /** The generic loop of `hllDenseSum`: zeros are counted and added at the end. */
  method DenseSumGeneric(p: seq<Byte>, pe: Table) returns (e: real, ez: nat)
    requires DenseValid(p)
    ensures e == RegSum(pe, DenseRegisters(p)) && ez == ZeroCount(DenseRegisters(p))
  {
    e, ez := 0.0, 0;
    var j := 0;
    while j < HLL_REGISTERS
      invariant j <= HLL_REGISTERS
      invariant ez == ZeroCount(DenseRegisters(p)[..j])
      invariant e + ez as real == RegSum(pe, DenseRegisters(p)[..j])
    {
      GetReadsRegister(p, j);
      SumOne(pe, p, j);
      var reg := DenseGet(p, j);
      if reg == 0 {
        ez := ez + 1;
      } else {
        e := e + pe[reg];
      }
      j := j + 1;
    }
    e := e + ez as real;
    assert DenseRegisters(p)[..HLL_REGISTERS] == DenseRegisters(p);
  }

  /** `PE[v] * n` */
  function Term(pe: Table, v: nat, n: nat): real
    requires v < 64
  {
    pe[v] * n as real
  }

  lemma Scaled(pe: Table, v: nat, n: nat)
    requires v < 64
    ensures At(pe, v) * n as real == if v == 0 then n as real else Term(pe, v, n)
  {
  }

  /** The sums of `b`, which are those of `a` and of `n` more registers of value `v`. */
  predicate SumsOnto(pe: Table, a: seq<nat>, b: seq<nat>, v: nat, n: nat) {
    && v < 64
    && ZeroCount(b) == ZeroCount(a) + (if v == 0 then n else 0)
    && RegSum(pe, b) == RegSum(pe, a) + (if v == 0 then n as real else Term(pe, v, n))
  }

  lemma SumOnto(pe: Table, a: seq<nat>, b: seq<nat>, v: nat, n: nat)
    requires b == a + Run(v, n) && v < 64
    ensures SumsOnto(pe, a, b, v, n)
  {
    SumConcat(pe, a, Run(v, n));
    SumRun(pe, v, n);
    Scaled(pe, v, n);
  }

  lemma SumStep(pe: Table, s: seq<Byte>, p: nat)
    requires Valid(s) && Boundary(s, p) && p < |s|
    ensures p + OpLen(s, p) <= |s| && Boundary(s, p + OpLen(s, p))
    ensures SumsOnto(pe, Decode(s[..p]), Decode(s[..p + OpLen(s, p)]), OpValue(s, p), OpSpan(s, p))
  {
    StepAt(s, p);
    hide *;
    SumOnto(pe, Decode(s[..p]), Decode(s[..p + OpLen(s, p)]), OpValue(s, p), OpSpan(s, p));
  }

  /** `hllSparseSum` on a valid sparse string. */
  method SparseSum(s: seq<Byte>, pe: Table) returns (e: real, ez: nat)
    requires Valid(s)
    ensures e == RegSum(pe, Decode(s)) && ez == ZeroCount(Decode(s))
  {
    e, ez := 0.0, 0;
    var p: nat := 0;
    WalkStarts(s);
    assert RegSum(pe, []) == 0.0 && ZeroCount([]) == 0;
    hide Boundary, RegSum, ZeroCount, Term;
    while p < |s|
      invariant Boundary(s, p)
      invariant ez == ZeroCount(Decode(s[..p])) && e + ez as real == RegSum(pe, Decode(s[..p]))
      decreases |s| - p
    {
      SumStep(pe, s, p);
      if IsZero(s[p]) {
        ez := ez + ZeroLen(s[p]);
        p := p + 1;
      } else if IsXzero(s[p]) {
        ez := ez + XzeroLen(s[p], s[p + 1]);
        p := p + 2;
      } else {
        e := e + Term(pe, ValValue(s[p]), ValLen(s[p]));
        p := p + 1;
      }
    }
    e := e + ez as real;
  }
}
