/** Machine words as bit sequences, least significant bit first.

    An `unsigned long` is a `Word` of `WIDTH` bits and the C operators `&`, `|`, `^`, `~`, `<<`, `>>`
    and `+ 1` are the functions below. A word has two readings: `Val` is its numeric value and `Pos`
    is the value of the reversed word, the order in which a reverse-binary cursor moves. */
module Words {
  import opened Basics

  type Word = seq<bool>

  const WIDTH: nat := 64

  function Pow2(n: nat): (r: nat)
    ensures r > 0
  {
    if n == 0 then 1 else 2 * Pow2(n - 1)
  }

  function Zeros(n: nat): (w: Word)
    ensures |w| == n
  {
    seq(n, _ => false)
  }

  function Ones(n: nat): (w: Word)
    ensures |w| == n
  {
    seq(n, _ => true)
  }

  /** The mask `2^k - 1` in a word of `n` bits. */
  function Mask(n: nat, k: nat): (w: Word)
    requires k <= n
    ensures |w| == n
  {
    seq(n, i => i < k)
  }

  /** The word with only bit k set. */
  function Single(k: nat): (w: Word)
    ensures |w| == WIDTH
  {
    seq(WIDTH, i => i == k)
  }

  function And(a: Word, b: Word): (w: Word)
    requires |a| == |b|
    ensures |w| == |a|
  {
    seq(|a|, i requires 0 <= i < |a| => a[i] && b[i])
  }

  function Or(a: Word, b: Word): (w: Word)
    requires |a| == |b|
    ensures |w| == |a|
  {
    seq(|a|, i requires 0 <= i < |a| => a[i] || b[i])
  }

  function Xor(a: Word, b: Word): (w: Word)
    requires |a| == |b|
    ensures |w| == |a|
  {
    seq(|a|, i requires 0 <= i < |a| => a[i] != b[i])
  }

  function Not(a: Word): (w: Word)
    ensures |w| == |a|
  {
    seq(|a|, i requires 0 <= i < |a| => !a[i])
  }

  /** `a << s` */
  function Shl(a: Word, s: nat): (w: Word)
    ensures |w| == |a|
  {
    seq(|a|, i requires 0 <= i < |a| => s <= i && a[i - s])
  }

  /** `a >> s` */
  function Shr(a: Word, s: nat): (w: Word)
    ensures |w| == |a|
  {
    seq(|a|, i requires 0 <= i < |a| => i + s < |a| && a[i + s])
  }

  /** `a + 1`, wrapping around. */
  function Inc(a: Word): (w: Word)
    ensures |w| == |a|
  {
    if a == [] then []
    else if a[0] then [false] + Inc(a[1..])
    else [true] + a[1..]
  }

  /** The numeric value. */
  function Val(w: Word): nat {
    if w == [] then 0 else (if w[0] then 1 else 0) + 2 * Val(w[1..])
  }

  /** The numeric value of the word read backwards. */
  function Pos(w: Word): nat {
    if w == [] then 0 else (if w[0] then Pow2(|w| - 1) else 0) + Pos(w[1..])
  }

  function Reverse(w: Word): (r: Word)
    ensures |r| == |w|
  {
    seq(|w|, i requires 0 <= i < |w| => w[|w| - 1 - i])
  }

  /** The word of `n` bits holding `x mod 2^n`. */
  function FromNat(x: nat, n: nat): (w: Word)
    ensures |w| == n
  {
    if n == 0 then [] else [x % 2 == 1] + FromNat(x / 2, n - 1)
  }

  // ---------------------------------------------------------------- values

  lemma {:induction false} Pow2Adds(a: nat, b: nat)
    ensures Pow2(a + b) == Pow2(a) * Pow2(b)
  {
    if a > 0 {
      Pow2Adds(a - 1, b);
      ProductAssociates(2, Pow2(a - 1), Pow2(b));
    }
  }

  lemma {:induction false} Pow2Mono(a: nat, b: nat)
    requires a <= b
    ensures Pow2(a) <= Pow2(b)
  {
    if a < b {
      Pow2Mono(a, b - 1);
    }
  }

  lemma {:induction false} ValSplit(a: Word, b: Word)
    ensures Val(a + b) == Val(a) + Pow2(|a|) * Val(b)
  {
    if a == [] {
      assert a + b == b;
    } else {
      assert (a + b)[1..] == a[1..] + b;
      ValSplit(a[1..], b);
      ProductAssociates(2, Pow2(|a| - 1), Val(b));
    }
  }

  lemma {:induction false} PosSplit(a: Word, b: Word)
    ensures Pos(a + b) == Pos(a) * Pow2(|b|) + Pos(b)
  {
    if a == [] {
      assert a + b == b;
    } else {
      assert (a + b)[1..] == a[1..] + b;
      PosSplit(a[1..], b);
      Pow2Adds(|a| - 1, |b|);
      Distribute(if a[0] then Pow2(|a| - 1) else 0, Pos(a[1..]), Pow2(|b|));
    }
  }

  lemma {:induction false} ValBound(w: Word)
    ensures Val(w) < Pow2(|w|)
  {
    if w != [] {
      ValBound(w[1..]);
    }
  }

  lemma {:induction false} PosBound(w: Word)
    ensures Pos(w) < Pow2(|w|)
  {
    if w != [] {
      PosBound(w[1..]);
    }
  }

  lemma {:induction false} ValInjective(a: Word, b: Word)
    requires |a| == |b| && Val(a) == Val(b)
    ensures a == b
  {
    if a != [] {
      assert a[0] == b[0];
      ValInjective(a[1..], b[1..]);
      assert a == [a[0]] + a[1..] && b == [b[0]] + b[1..];
    }
  }

  lemma {:induction false} PosInjective(a: Word, b: Word)
    requires |a| == |b| && Pos(a) == Pos(b)
    ensures a == b
  {
    if a != [] {
      PosBound(a[1..]);
      PosBound(b[1..]);
      PosInjective(a[1..], b[1..]);
      assert a == [a[0]] + a[1..] && b == [b[0]] + b[1..];
    }
  }

  lemma {:induction false} ZerosVal(n: nat)
    ensures Val(Zeros(n)) == 0 && Pos(Zeros(n)) == 0
  {
    if n > 0 {
      assert Zeros(n)[1..] == Zeros(n - 1);
      ZerosVal(n - 1);
    }
  }

  lemma {:induction false} OnesVal(n: nat)
    ensures Val(Ones(n)) == Pow2(n) - 1 && Pos(Ones(n)) == Pow2(n) - 1
  {
    if n > 0 {
      assert Ones(n)[1..] == Ones(n - 1);
      OnesVal(n - 1);
    }
  }

  lemma {:induction false} IncVal(w: Word)
    ensures Val(Inc(w)) == if Val(w) + 1 == Pow2(|w|) then 0 else Val(w) + 1
  {
    if w != [] {
      IncVal(w[1..]);
      ValBound(w[1..]);
    }
  }

  lemma {:induction false} PosIsValReversed(w: Word)
    ensures Pos(w) == Val(Reverse(w))
  {
    if w != [] {
      PosIsValReversed(w[1..]);
      assert Reverse(w) == Reverse(w[1..]) + [w[0]];
      ValSplit(Reverse(w[1..]), [w[0]]);
      assert Val([w[0]]) == if w[0] then 1 else 0;
    }
  }

  lemma ReverseTwice(w: Word)
    ensures Reverse(Reverse(w)) == w
  {
  }

  lemma {:induction false} FromNatVal(x: nat, n: nat)
    requires x < Pow2(n)
    ensures Val(FromNat(x, n)) == x
  {
    if n > 0 {
      FromNatVal(x / 2, n - 1);
    }
  }

  /** The order of block numbers is the order of the numbers they make. */
  lemma BlockLess(p: nat, a: nat, ra: nat, b: nat, rb: nat)
    requires ra < p && a < b
    ensures a * p + ra < b * p + rb
  {
    Gap(p, a, b);
  }

  lemma ReverseConcat(a: Word, b: Word)
    ensures Reverse(a + b) == Reverse(b) + Reverse(a)
  {
  }

  // ---------------------------------------------------------------- masks

  lemma MaskSplit(n: nat, k: nat)
    requires k <= n
    ensures Mask(n, k) == Ones(k) + Zeros(n - k)
  {
  }

  /** `w & (2^k - 1)` keeps the low `k` bits, so its value is below `2^k`. */
  lemma AndMask(w: Word, k: nat)
    requires k <= |w|
    ensures And(w, Mask(|w|, k)) == w[..k] + Zeros(|w| - k)
    ensures Val(And(w, Mask(|w|, k))) == Val(w[..k]) < Pow2(k)
  {
    assert And(w, Mask(|w|, k)) == w[..k] + Zeros(|w| - k);
    ValSplit(w[..k], Zeros(|w| - k));
    ZerosVal(|w| - k);
    ValBound(w[..k]);
  }

  /** `2^k - 1` really is the mask of the low `k` bits. */
  lemma MaskIsPow2Minus1(n: nat, k: nat)
    requires k <= n
    ensures FromNat(Pow2(k) - 1, n) == Mask(n, k)
  {
    Pow2Mono(k, n);
    FromNatVal(Pow2(k) - 1, n);
    MaskSplit(n, k);
    ValSplit(Ones(k), Zeros(n - k));
    OnesVal(k);
    ZerosVal(n - k);
    ValInjective(FromNat(Pow2(k) - 1, n), Mask(n, k));
  }

  lemma {:induction false} IncOnes(k: nat, w: Word)
    ensures Inc(Ones(k) + w) == Zeros(k) + Inc(w)
  {
    if k == 0 {
      assert Ones(0) + w == w && Zeros(0) + Inc(w) == Inc(w);
    } else {
      assert (Ones(k) + w)[1..] == Ones(k - 1) + w;
      calc {
        Inc(Ones(k) + w);
        [false] + Inc(Ones(k - 1) + w);
        { IncOnes(k - 1, w); }
        [false] + (Zeros(k - 1) + Inc(w));
        Zeros(k) + Inc(w);
      }
    }
  }

  lemma {:induction false} IncPrefix(a: Word, b: Word)
    ensures Inc(a + b)[..|a|] == Inc(a)
  {
    if a != [] {
      assert (a + b)[1..] == a[1..] + b;
      IncPrefix(a[1..], b);
      if a[0] {
        assert Inc(a + b)[..|a|] == [false] + Inc(a[1..] + b)[..|a| - 1];
      }
    }
  }

  // ---------------------------------------------------------------- rev

  /** Whether bit `i` lies in an even block of `s` bits. */
  predicate InEvenBlock(i: int, s: nat)
    requires s > 0
  {
    i % (2 * s) < s
  }

  /** Where bit `i` comes from once the blocks of `s` bits are in reverse order. */
  function Origin(i: nat, s: nat): int
    requires s > 0
  {
    WIDTH - s - i + 2 * (i % s)
  }

  ghost predicate BlocksReversed(v: Word, v0: Word, s: nat)
    requires |v| == |v0| == WIDTH && s > 0
  {
    forall i {:trigger v[i]} :: 0 <= i < WIDTH ==> 0 <= Origin(i, s) < WIDTH && v[i] == v0[Origin(i, s)]
  }

  ghost predicate EvenBlocks(mask: Word, s: nat)
    requires |mask| == WIDTH && s > 0
  {
    forall i {:trigger mask[i]} :: 0 <= i < WIDTH ==> mask[i] == InEvenBlock(i, s)
  }

  lemma ModSub(i: int, s: int, m: int)
    requires 0 <= s <= m && m > 0
    ensures (i - s) % m == if i % m >= s then i % m - s else i % m - s + m
  {
    var q, r := i / m, i % m;
    assert i == m * q + r;
    if r >= s {
      ModUnique(i - s, m, q, r - s);
    } else {
      assert m * (q - 1) == m * q - m;
      ModUnique(i - s, m, q - 1, r - s + m);
    }
  }

  lemma ModHalf(i: int, s: int)
    requires s > 0
    ensures i % s == if i % (2 * s) < s then i % (2 * s) else i % (2 * s) - s
  {
    var q, r := i / (2 * s), i % (2 * s);
    assert i == (2 * s) * q + r;
    assert (2 * s) * q == s * (2 * q);
    if r < s {
      ModUnique(i, s, 2 * q, r);
    } else {
      assert s * (2 * q) + s == s * (2 * q + 1);
      ModUnique(i, s, 2 * q + 1, r - s);
    }
  }

  lemma HalfMask(i: nat, s: nat)
    requires s > 0
    ensures InEvenBlock(i, s) <==> (InEvenBlock(i, 2 * s) != (s <= i && InEvenBlock(i - s, 2 * s)))
  {
    ModHalf(i, 2 * s);
    ModSub(i, s, 4 * s);
    if i < s {
      ModUnique(i, 4 * s, 0, i);
    }
  }

  lemma HalfOrigin(i: nat, s: nat)
    requires i < WIDTH && s in {1, 2, 4, 8, 16, 32}
    ensures InEvenBlock(i, s) ==> i + s < WIDTH && Origin(i, s) == Origin(i + s, 2 * s)
    ensures !InEvenBlock(i, s) ==> i >= s && Origin(i, s) == Origin(i - s, 2 * s)
  {
    ModHalf(i, s);
    ModSub(i, s, 2 * s);
    ModSub(i + s, s, 2 * s);
    if i >= WIDTH - s {
      LastBlock(i, s);
    }
    if i < s {
      ModUnique(i, 2 * s, 0, i);
    }
  }

  lemma LastBlock(i: nat, s: nat)
    requires WIDTH - s <= i < WIDTH && s in {1, 2, 4, 8, 16, 32}
    ensures !InEvenBlock(i, s)
  {
    var q := WIDTH / (2 * s) - 1;
    assert WIDTH == 2 * s * (q + 1);
    assert 2 * s * (q + 1) == 2 * s * q + 2 * s;
    ModUnique(i, 2 * s, q, i - (WIDTH - 2 * s));
  }

  lemma HalveMask(mask: Word, s: nat)
    requires |mask| == WIDTH && s in {1, 2, 4, 8, 16, 32} && EvenBlocks(mask, 2 * s)
    ensures EvenBlocks(Xor(mask, Shl(mask, s)), s)
  {
    var m := Xor(mask, Shl(mask, s));
    forall i | 0 <= i < WIDTH
      ensures m[i] == InEvenBlock(i, s)
    {
      HalfMask(i, s);
      assert m[i] == (mask[i] != (s <= i && mask[i - s]));
    }
  }

  /** `((v >> s) & mask) | ((v << s) & ~mask)` */
  function SwapBlocks(v: Word, s: nat, mask: Word): (w: Word)
    requires |v| == |mask|
    ensures |w| == |v|
  {
    Or(And(Shr(v, s), mask), And(Shl(v, s), Not(mask)))
  }

  lemma SwapHalves(v: Word, v0: Word, mask: Word, s: nat)
    requires |v| == |v0| == |mask| == WIDTH && s in {1, 2, 4, 8, 16, 32}
    requires BlocksReversed(v, v0, 2 * s) && EvenBlocks(mask, s)
    ensures BlocksReversed(SwapBlocks(v, s, mask), v0, s)
  {
    var w := SwapBlocks(v, s, mask);
    forall i | 0 <= i < WIDTH
      ensures 0 <= Origin(i, s) < WIDTH && w[i] == v0[Origin(i, s)]
    {
      HalfOrigin(i, s);
      var j := if InEvenBlock(i, s) then i + s else i - s;
      SwapAt(v, s, mask, i);
      assert w[i] == v[j];
    }
  }

  lemma SwapAt(v: Word, s: nat, mask: Word, i: nat)
    requires |v| == |mask| && i < |v|
    requires if mask[i] then i + s < |v| else s <= i
    ensures SwapBlocks(v, s, mask)[i] == v[if mask[i] then i + s else i - s]
  {
  }

  lemma Halve(s: nat)
    requires s in {1, 2, 4, 8, 16, 32}
    ensures s == 1 ==> s / 2 == 0
    ensures s > 1 ==> s / 2 in {1, 2, 4, 8, 16, 32} && 2 * (s / 2) == s
  {
  }

  lemma BlocksOfOne(v: Word, v0: Word)
    requires |v| == |v0| == WIDTH && BlocksReversed(v, v0, 1)
    ensures v == Reverse(v0)
  {
    forall i | 0 <= i < WIDTH
      ensures v[i] == Reverse(v0)[i]
    {
      assert i % 1 == 0;
      assert Origin(i, 1) == WIDTH - 1 - i;
    }
  }

  lemma OneBlock(v: Word)
    requires |v| == WIDTH
    ensures BlocksReversed(v, v, 64) && EvenBlocks(Ones(WIDTH), 64)
  {
    forall i | 0 <= i < WIDTH
      ensures Origin(i, 64) == i && InEvenBlock(i, 64)
    {
      ModUnique(i, 64, 0, i);
      ModUnique(i, 128, 0, i);
    }
  }

  /** `rev`: swaps ever smaller blocks, and so reverses the bits. */
  method Rev(v0: Word) returns (v: Word)
    requires |v0| == WIDTH
    ensures v == Reverse(v0)
  {
    v := v0;
    var s: nat := WIDTH;
    var mask := Ones(WIDTH);
    OneBlock(v0);
    s := s / 2;
    while s > 0
      invariant |v| == |mask| == WIDTH
      invariant s > 0 ==> s in {1, 2, 4, 8, 16, 32} && BlocksReversed(v, v0, 2 * s) && EvenBlocks(mask, 2 * s)
      invariant s == 0 ==> BlocksReversed(v, v0, 1)
      decreases s
    {
      HalveMask(mask, s);
      mask := Xor(mask, Shl(mask, s));
      SwapHalves(v, v0, mask, s);
      v := SwapBlocks(v, s, mask);
      Halve(s);
      s := s / 2;
    }
    BlocksOfOne(v, v0);
  }
}
