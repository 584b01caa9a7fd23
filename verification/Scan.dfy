/** The reverse-binary cursor of `dictScan`, on words alone.

    `Pos` orders the cursors: a call with cursor `v` and a smaller table of `2^k` buckets answers for the
    hashes at the positions from `v` up to the cursor it returns. */
module Scan {
  import opened Words

  // ---------------------------------------------------------------- the cursor

  /** `v |= ~m0; v = rev(v); v++; v = rev(v);` */
  function NextCursor(v: Word, k: nat): (w: Word)
    requires k <= |v|
    ensures |w| == |v|
  {
    Reverse(Inc(Reverse(Or(v, Not(Mask(|v|, k))))))
  }

  /** The returned cursor moves the low `k` bits one step in reverse order and clears the others. */
  lemma NextCursorPos(v: Word, k: nat)
    requires k <= |v|
    ensures NextCursor(v, k) == Zeros(|v|) <==> Pos(v[..k]) + 1 == Pow2(k)
    ensures NextCursor(v, k) != Zeros(|v|) ==> Pos(NextCursor(v, k)) == (Pos(v[..k]) + 1) * Pow2(|v| - k)
    ensures NextCursor(v, k)[k..] == Zeros(|v| - k)
  {
    var low := Reverse(Inc(Reverse(v[..k])));
    NextCursorShape(v, k);
    PosOfIncReversed(v[..k]);
    PosSplit(low, Zeros(|v| - k));
    ZerosVal(|v| - k);
    LowZero(low, |v| - k);
  }

  lemma NextCursorShape(v: Word, k: nat)
    requires k <= |v|
    ensures NextCursor(v, k) == Reverse(Inc(Reverse(v[..k]))) + Zeros(|v| - k)
  {
    var n := |v| - k;
    var x := Inc(Reverse(v[..k]));
    FillHighBits(v, k);
    ReverseConcat(v[..k], Ones(n));
    assert Reverse(Ones(n)) == Ones(n);
    IncOnes(n, Reverse(v[..k]));
    ReverseConcat(Zeros(n), x);
    assert Reverse(Zeros(n)) == Zeros(n);
  }

  lemma FillHighBits(v: Word, k: nat)
    requires k <= |v|
    ensures Or(v, Not(Mask(|v|, k))) == v[..k] + Ones(|v| - k)
  {
  }

  lemma LowZero(low: Word, n: nat)
    ensures low + Zeros(n) == Zeros(|low| + n) <==> Pos(low) == 0
  {
    ZerosVal(|low|);
    if Pos(low) == 0 {
      PosInjective(low, Zeros(|low|));
    }
    assert (low + Zeros(n))[..|low|] == low && Zeros(|low| + n)[..|low|] == Zeros(|low|);
  }

  lemma PosOfIncReversed(x: Word)
    ensures Pos(Reverse(Inc(Reverse(x)))) == if Pos(x) + 1 == Pow2(|x|) then 0 else Pos(x) + 1
  {
    var y := Inc(Reverse(x));
    PosIsValReversed(Reverse(y));
    ReverseTwice(y);
    PosIsValReversed(x);
    IncVal(Reverse(x));
  }

  /** The positions a call with cursor `v` answers for. */
  ghost predicate InStep(v: Word, k: nat, h: Word)
    requires k <= |v| == |h|
  {
    Pos(v) <= Pos(h) && (NextCursor(v, k) == Zeros(|v|) || Pos(h) < Pos(NextCursor(v, k)))
  }

  /** Those hashes all share the low `k` bits of the cursor. */
  lemma StepSharesLowBits(v: Word, k: nat, h: Word)
    requires k <= |v| == |h| && InStep(v, k, h)
    ensures h[..k] == v[..k]
  {
    InStepMeans(v, k, h);
    hide *;
    PosParts(v, k);
    PosParts(h, k);
    NextCursorPos(v, k);
    PosBound(h[..k]);
    PosBound(v[..k]);
    PosOrder(v, h, k);
    NextBlock(Pow2(|v| - k), Pos(v[..k]), Pos(h[..k]), Pos(h[k..]));
    PosInjective(h[..k], v[..k]);
  }

  lemma InStepMeans(v: Word, k: nat, h: Word)
    requires k <= |v| == |h| && InStep(v, k, h)
    ensures Pos(v) <= Pos(h) && (NextCursor(v, k) == Zeros(|v|) || Pos(h) < Pos(NextCursor(v, k)))
  {
  }

  /** Sharing the low `k` bits puts a hash before the returned cursor. */
  lemma LowBitsBeforeNext(v: Word, k: nat, h: Word)
    requires k <= |v| == |h| && h[..k] == v[..k]
    ensures NextCursor(v, k) == Zeros(|v|) || Pos(h) < Pos(NextCursor(v, k))
  {
    PosParts(h, k);
    NextCursorPos(v, k);
    NextBlock(Pow2(|v| - k), Pos(v[..k]), Pos(h[..k]), Pos(h[k..]));
  }

  lemma NextBlock(p: nat, a: nat, b: nat, rb: nat)
    requires rb < p
    ensures b * p + rb < (a + 1) * p <==> b <= a
  {
    if b <= a {
      BlockLess(p, b, rb, a + 1, 0);
    } else {
      if a + 1 < b {
        BlockLess(p, a + 1, 0, b, rb);
      }
    }
  }

  lemma PosParts(w: Word, k: nat)
    requires k <= |w|
    ensures Pos(w) == Pos(w[..k]) * Pow2(|w| - k) + Pos(w[k..])
    ensures Pos(w[k..]) < Pow2(|w| - k)
  {
    hide *;
    assert w == w[..k] + w[k..];
    PosSplit(w[..k], w[k..]);
    PosBound(w[k..]);
  }

  // ---------------------------------------------------------------- expansions into the larger table

  /** `(((v | m0) + 1) & ~m0) | (v & m0)` */
  function NextExpansion(v: Word, k0: nat): (w: Word)
    requires k0 <= |v|
    ensures |w| == |v|
  {
    var m0 := Mask(|v|, k0);
    Or(And(Inc(Or(v, m0)), Not(m0)), And(v, m0))
  }

  lemma NextExpansionIncrementsHighBits(v: Word, k0: nat)
    requires k0 <= |v|
    ensures NextExpansion(v, k0) == v[..k0] + Inc(v[k0..])
  {
    var m0 := Mask(|v|, k0);
    assert Or(v, m0) == Ones(k0) + v[k0..];
    IncOnes(k0, v[k0..]);
  }

  /** `v & (m0 ^ m1)` */
  function HighBits(v: Word, k0: nat, k1: nat): Word
    requires k0 <= k1 <= |v|
  {
    And(v, Xor(Mask(|v|, k0), Mask(|v|, k1)))
  }

  lemma HighBitsZero(v: Word, k0: nat, k1: nat)
    requires k0 <= k1 <= |v|
    ensures HighBits(v, k0, k1) == Zeros(|v|) <==> v[k0..k1] == Zeros(k1 - k0)
    ensures v[k0..k1] == Zeros(k1 - k0) <==> Val(v[k0..k1]) == 0
  {
    var x := HighBits(v, k0, k1);
    assert forall i :: 0 <= i < |v| ==> x[i] == (k0 <= i < k1 && v[i]);
    if x == Zeros(|v|) {
      forall i | 0 <= i < k1 - k0
        ensures v[k0..k1][i] == Zeros(k1 - k0)[i]
      {
        assert x[k0 + i] == Zeros(|v|)[k0 + i];
      }
    } else if v[k0..k1] == Zeros(k1 - k0) {
      forall i | 0 <= i < |v|
        ensures x[i] == Zeros(|v|)[i]
      {
        if k0 <= i < k1 {
          assert v[i] == v[k0..k1][i - k0];
        }
      }
    }
    ZerosVal(k1 - k0);
    if Val(v[k0..k1]) == 0 {
      ValInjective(v[k0..k1], Zeros(k1 - k0));
    }
  }

  lemma NextExpansionHighBits(v: Word, k0: nat, k1: nat)
    requires k0 <= k1 <= |v|
    ensures NextExpansion(v, k0)[..k0] == v[..k0]
    ensures NextExpansion(v, k0)[k0..k1] == Inc(v[k0..k1])
  {
    NextExpansionIncrementsHighBits(v, k0);
    assert v[k0..] == v[k0..k1] + v[k1..];
    IncPrefix(v[k0..k1], v[k1..]);
    assert NextExpansion(v, k0)[k0..k1] == Inc(v[k0..])[..k1 - k0];
  }

  /** The buckets of the larger table that one call visits, in order: the `do ... while` loop. */
  function Expansions(v: Word, k0: nat, k1: nat): (s: seq<nat>)
    requires k0 <= k1 <= |v|
    decreases Pow2(k1 - k0) - Val(v[k0..k1])
  {
    var w := NextExpansion(v, k0);
    ExpansionsProgress(v, k0, k1);
    [Val(And(v, Mask(|v|, k1)))] + if HighBits(w, k0, k1) != Zeros(|v|) then Expansions(w, k0, k1) else []
  }

  lemma ExpansionsProgress(v: Word, k0: nat, k1: nat)
    requires k0 <= k1 <= |v|
    ensures var w := NextExpansion(v, k0);
            HighBits(w, k0, k1) != Zeros(|v|) ==>
              Val(w[k0..k1]) == Val(v[k0..k1]) + 1 && Val(w[k0..k1]) < Pow2(k1 - k0)
    ensures var w := NextExpansion(v, k0);
            HighBits(w, k0, k1) == Zeros(|v|) ==> Val(v[k0..k1]) + 1 == Pow2(k1 - k0)
    ensures Val(v[k0..k1]) < Pow2(k1 - k0)
  {
    var w := NextExpansion(v, k0);
    NextExpansionHighBits(v, k0, k1);
    IncVal(v[k0..k1]);
    HighBitsZero(w, k0, k1);
    ValBound(v[k0..k1]);
    ValBound(w[k0..k1]);
  }

  /** The loop visits the expansions of the low bits whose high part is at least the cursor's own, and no
      others. */
  lemma {:induction false} ExpansionsExact(v: Word, k0: nat, k1: nat, h: Word)
    requires k0 <= k1 <= |v| == |h|
    ensures Val(h[..k1]) in Expansions(v, k0, k1) <==>
              h[..k0] == v[..k0] && Val(h[k0..k1]) >= Val(v[k0..k1])
    decreases Pow2(k1 - k0) - Val(v[k0..k1])
  {
    var w := NextExpansion(v, k0);
    ExpansionsProgress(v, k0, k1);
    NextExpansionHighBits(v, k0, k1);
    AndMask(v, k1);
    SameIndex(h, v, k0, k1);
    if HighBits(w, k0, k1) != Zeros(|v|) {
      ExpansionsExact(w, k0, k1, h);
    } else {
      ValBound(h[k0..k1]);
    }
  }

  lemma SameIndex(a: Word, b: Word, k0: nat, k1: nat)
    requires k0 <= k1 <= |a| == |b|
    ensures Val(a[..k1]) == Val(b[..k1]) <==> a[..k0] == b[..k0] && Val(a[k0..k1]) == Val(b[k0..k1])
  {
    assert a[..k1] == a[..k0] + a[k0..k1];
    assert b[..k1] == b[..k0] + b[k0..k1];
    if Val(a[..k1]) == Val(b[..k1]) {
      ValInjective(a[..k1], b[..k1]);
      assert a[..k0] == a[..k1][..k0] && b[..k0] == b[..k1][..k0];
      assert a[k0..k1] == a[..k1][k0..] && b[k0..k1] == b[..k1][k0..];
    } else if a[..k0] == b[..k0] && Val(a[k0..k1]) == Val(b[k0..k1]) {
      ValInjective(a[k0..k1], b[k0..k1]);
    }
  }

  // ---------------------------------------------------------------- when one call misses nothing

  /** Ones below, zeros above. */
  predicate Contiguous(e: Word) {
    e == [] || (if e[0] then Contiguous(e[1..]) else e[1..] == Zeros(|e| - 1))
  }

  /** `x & (x + 1) == 0` with `x = (v & m1) | m0`: what a caller can check before a call. */
  predicate ExpansionGuard(v: Word, k0: nat, k1: nat)
    requires k0 <= k1 <= |v|
  {
    var x := Or(And(v, Mask(|v|, k1)), Mask(|v|, k0));
    And(x, Inc(x)) == Zeros(|v|)
  }

  lemma {:induction false} ContiguousIsMask(x: Word)
    ensures And(x, Inc(x)) == Zeros(|x|) <==> Contiguous(x)
  {
    if x != [] {
      var t := x[1..];
      if x[0] {
        ContiguousIsMask(t);
        assert And(x, Inc(x)) == [false] + And(t, Inc(t));
        assert Zeros(|x|) == [false] + Zeros(|t|);
        assert And(x, Inc(x))[1..] == And(t, Inc(t)) && Zeros(|x|)[1..] == Zeros(|t|);
      } else {
        assert And(x, Inc(x)) == [false] + t;
        assert Zeros(|x|) == [false] + Zeros(|t|);
        assert And(x, Inc(x))[1..] == t && Zeros(|x|)[1..] == Zeros(|t|);
      }
    }
  }

  lemma {:induction false} ContiguousPadded(k: nat, e: Word, n: nat)
    ensures Contiguous(Ones(k) + e + Zeros(n)) <==> Contiguous(e)
    decreases k, |e|
  {
    var x := Ones(k) + e + Zeros(n);
    if k > 0 {
      assert x[1..] == Ones(k - 1) + e + Zeros(n);
      ContiguousPadded(k - 1, e, n);
    } else if e != [] {
      assert x[1..] == Ones(0) + e[1..] + Zeros(n);
      ContiguousPadded(0, e[1..], n);
      assert x[1..][..|e| - 1] == e[1..];
      assert Zeros(|x| - 1)[..|e| - 1] == Zeros(|e| - 1);
      if e[1..] == Zeros(|e| - 1) {
        assert x[1..] == Zeros(|x| - 1);
      }
    } else if n > 0 {
      assert x[1..] == Zeros(n - 1);
    }
  }

  lemma GuardIsContiguous(v: Word, k0: nat, k1: nat)
    requires k0 <= k1 <= |v|
    ensures ExpansionGuard(v, k0, k1) <==> Contiguous(v[k0..k1])
  {
    var x := Or(And(v, Mask(|v|, k1)), Mask(|v|, k0));
    assert x == Ones(k0) + v[k0..k1] + Zeros(|v| - k1);
    ContiguousIsMask(x);
    ContiguousPadded(k0, v[k0..k1], |v| - k1);
  }

  /** For a contiguous `e`, being no earlier in reverse order means being no smaller in value. */
  lemma {:induction false} ContiguousOrder(e: Word, f: Word)
    requires |e| == |f| && Contiguous(e) && Pos(e) <= Pos(f)
    ensures Val(e) <= Val(f)
  {
    if e != [] {
      PosBound(e[1..]);
      PosBound(f[1..]);
      if e[0] {
        ContiguousOrder(e[1..], f[1..]);
      } else {
        ZerosVal(|e| - 1);
      }
    }
  }

  /** For any other `e` some word is later in reverse order and yet smaller in value. */
  lemma {:induction false} GapWitness(e: Word) returns (f: Word)
    requires !Contiguous(e)
    ensures |f| == |e| && Pos(e) < Pos(f) && Val(f) < Val(e)
  {
    if e[0] {
      var g := GapWitness(e[1..]);
      f := [true] + g;
      assert f[1..] == g;
    } else {
      f := [true] + Zeros(|e| - 1);
      assert f[1..] == Zeros(|e| - 1);
      ZerosVal(|e| - 1);
      PosBound(e[1..]);
      if Val(e[1..]) == 0 {
        ValInjective(e[1..], Zeros(|e| - 1));
      }
    }
  }

  /** The first `k` bits decide the reverse order first. */
  lemma PosOrder(v: Word, h: Word, k: nat)
    requires k <= |v| == |h|
    ensures Pos(v) <= Pos(h) ==> Pos(v[..k]) <= Pos(h[..k])
    ensures Pos(v[..k]) < Pos(h[..k]) ==> Pos(v) < Pos(h)
    ensures v[..k] == h[..k] ==> (Pos(v) <= Pos(h) <==> Pos(v[k..]) <= Pos(h[k..]))
  {
    PosParts(v, k);
    PosParts(h, k);
    if Pos(v[..k]) < Pos(h[..k]) {
      BlockLess(Pow2(|v| - k), Pos(v[..k]), Pos(v[k..]), Pos(h[..k]), Pos(h[k..]));
    } else if Pos(h[..k]) < Pos(v[..k]) {
      BlockLess(Pow2(|v| - k), Pos(h[..k]), Pos(h[k..]), Pos(v[..k]), Pos(v[k..]));
    }
  }

  lemma MiddleOrder(v: Word, h: Word, k0: nat, k1: nat)
    requires k0 <= k1 <= |v| == |h| && h[..k0] == v[..k0]
    ensures Pos(v) <= Pos(h) ==> Pos(v[k0..k1]) <= Pos(h[k0..k1])
    ensures Pos(v[k0..k1]) < Pos(h[k0..k1]) ==> Pos(v) < Pos(h)
  {
    PosOrder(v, h, k0);
    PosOrder(h, v, k0);
    assert v[k0..][..k1 - k0] == v[k0..k1] && h[k0..][..k1 - k0] == h[k0..k1];
    PosOrder(v[k0..], h[k0..], k1 - k0);
  }

  lemma ExpansionsCover(v: Word, k0: nat, k1: nat, h: Word)
    requires k0 <= k1 <= |v| == |h|
    requires ExpansionGuard(v, k0, k1) && InStep(v, k0, h)
    ensures Val(h[..k1]) in Expansions(v, k0, k1)
  {
    GuardIsContiguous(v, k0, k1);
    StepSharesLowBits(v, k0, h);
    MiddleOrder(v, h, k0, k1);
    ContiguousOrder(v[k0..k1], h[k0..k1]);
    ExpansionsExact(v, k0, k1, h);
  }

  lemma ExpansionsMiss(v: Word, k0: nat, k1: nat) returns (h: Word)
    requires k0 <= k1 <= |v|
    requires !ExpansionGuard(v, k0, k1)
    ensures |h| == |v| && InStep(v, k0, h) && Val(h[..k1]) !in Expansions(v, k0, k1)
  {
    GuardIsContiguous(v, k0, k1);
    var f := GapWitness(v[k0..k1]);
    h := v[..k0] + f + v[k1..];
    assert h[..k0] == v[..k0] && h[k0..k1] == f;
    MiddleOrder(v, h, k0, k1);
    LowBitsBeforeNext(v, k0, h);
    ExpansionsExact(v, k0, k1, h);
  }

  /** A call during a rehash visits the larger-table bucket of every hash it answers for if and only if
      the guard holds. */
  lemma GuardIsExact(v: Word, k0: nat, k1: nat)
    requires k0 <= k1 <= |v|
    ensures ExpansionGuard(v, k0, k1) <==>
              forall h: Word :: |h| == |v| && InStep(v, k0, h) ==> Val(h[..k1]) in Expansions(v, k0, k1)
  {
    if ExpansionGuard(v, k0, k1) {
      forall h: Word | |h| == |v| && InStep(v, k0, h)
        ensures Val(h[..k1]) in Expansions(v, k0, k1)
      {
        ExpansionsCover(v, k0, k1, h);
      }
    } else {
      var h := ExpansionsMiss(v, k0, k1);
    }
  }

  /** Two sizes that differ by a factor of at most two always pass the guard; so does a cursor that fits the
      smaller table, which is what every call leaves behind. */
  lemma GuardHolds(v: Word, k0: nat, k1: nat)
    requires k0 <= k1 <= |v|
    requires k1 <= k0 + 1 || v[k0..k1] == Zeros(k1 - k0)
    ensures ExpansionGuard(v, k0, k1)
  {
    GuardIsContiguous(v, k0, k1);
    if k1 == k0 + 1 {
      assert v[k0..k1][1..] == [];
    } else if k1 > k0 {
      assert v[k0..k1][1..] == Zeros(k1 - k0 - 1);
    }
  }

  // ---------------------------------------------------------------- an unchanging table

  /** The cursor after `n` calls on a table of `2^k` buckets that does not change. */
  function CursorAfter(k: nat, n: nat): (v: Word)
    requires k <= WIDTH
    ensures |v| == WIDTH
  {
    if n == 0 then Zeros(WIDTH) else NextCursor(CursorAfter(k, n - 1), k)
  }

  lemma {:induction false} CursorCounts(k: nat, n: nat)
    requires k <= WIDTH && n < Pow2(k)
    ensures Pos(CursorAfter(k, n)[..k]) == n
  {
    hide *;
    if n == 0 {
      FirstCursor(k);
      ZerosVal(k);
    } else {
      CursorCounts(k, n - 1);
      NextLowBits(CursorAfter(k, n - 1), k);
      LaterCursor(k, n);
    }
  }

  lemma FirstCursor(k: nat)
    requires k <= WIDTH
    ensures CursorAfter(k, 0)[..k] == Zeros(k)
  {
  }

  lemma LaterCursor(k: nat, n: nat)
    requires k <= WIDTH && n > 0
    ensures CursorAfter(k, n) == NextCursor(CursorAfter(k, n - 1), k)
  {
  }

  lemma NextLowBits(u: Word, k: nat)
    requires k <= |u|
    ensures Pos(NextCursor(u, k)[..k]) == if Pos(u[..k]) + 1 == Pow2(k) then 0 else Pos(u[..k]) + 1
  {
    hide *;
    NextCursorShape(u, k);
    assert |Reverse(Inc(Reverse(u[..k])))| == k;
    assert NextCursor(u, k)[..k] == Reverse(Inc(Reverse(u[..k])));
    PosOfIncReversed(u[..k]);
  }

  /** No earlier call ends the iteration. */
  lemma CursorNonZero(k: nat, n: nat)
    requires k <= WIDTH && 0 < n < Pow2(k)
    ensures CursorAfter(k, n) != Zeros(WIDTH)
  {
    CursorCounts(k, n);
    ZerosVal(k);
    assert Zeros(WIDTH)[..k] == Zeros(k);
  }

  /** The iteration takes exactly as many calls as there are buckets. */
  lemma CursorReturns(k: nat)
    requires k <= WIDTH
    ensures CursorAfter(k, Pow2(k)) == Zeros(WIDTH)
    ensures forall n: nat {:trigger CursorAfter(k, n)} :: 0 < n < Pow2(k) ==> CursorAfter(k, n) != Zeros(WIDTH)
  {
    forall n: nat {:trigger CursorAfter(k, n)} | 0 < n < Pow2(k)
      ensures CursorAfter(k, n) != Zeros(WIDTH)
    {
      CursorNonZero(k, n);
    }
    CursorCounts(k, Pow2(k) - 1);
    NextCursorPos(CursorAfter(k, Pow2(k) - 1), k);
  }

  /** No bucket is visited twice. */
  lemma CursorsDistinct(k: nat, i: nat, j: nat)
    requires k <= WIDTH && i < j < Pow2(k)
    ensures Val(CursorAfter(k, i)[..k]) != Val(CursorAfter(k, j)[..k])
  {
    CursorCounts(k, i);
    CursorCounts(k, j);
    if Val(CursorAfter(k, i)[..k]) == Val(CursorAfter(k, j)[..k]) {
      ValInjective(CursorAfter(k, i)[..k], CursorAfter(k, j)[..k]);
    }
  }

  /** Every bucket is visited. */
  lemma CursorVisits(k: nat, b: nat) returns (i: nat)
    requires k <= WIDTH && b < Pow2(k)
    ensures i < Pow2(k) && Val(CursorAfter(k, i)[..k]) == b
  {
    var x := FromNat(b, k);
    FromNatVal(b, k);
    PosBound(x);
    i := Pos(x);
    CursorCounts(k, i);
    PosInjective(CursorAfter(k, i)[..k], x);
  }

  // ---------------------------------------------------------------- a call that misses a bucket

  /** From 16 buckets to 4 with cursor 1000: bucket 0100 of the larger table is neither behind the cursor nor
      visited. */
  lemma ShrinkByFourMisses(v: Word, h: Word)
    requires v == [false, false, false, true] + Zeros(WIDTH - 4)
    requires h == [false, false, true, false] + Zeros(WIDTH - 4)
    ensures Val(v) == 8 && Val(h) == 4
    ensures !ExpansionGuard(v, 2, 4) && InStep(v, 2, h) && Val(h[..4]) !in Expansions(v, 2, 4)
  {
    GuardIsContiguous(v, 2, 4);
    assert v[2..4] == [false, true] && h[2..4] == [true, false];
    TwoBits(false, true);
    TwoBits(true, false);
    TwoBits(false, false);
    MiddleOrder(v, h, 2, 4);
    LowBitsBeforeNext(v, 2, h);
    ExpansionsExact(v, 2, 4, h);
    FourBits(false, true, WIDTH - 4);
    FourBits(true, false, WIDTH - 4);
  }

  lemma FourBits(a: bool, b: bool, n: nat)
    ensures Val([false, false, a, b] + Zeros(n)) == (if a then 4 else 0) + (if b then 8 else 0)
  {
    FourIs();
    hide *;
    assert [false, false, a, b] == [false, false] + [a, b];
    ValSplit([false, false, a, b], Zeros(n));
    ValSplit([false, false], [a, b]);
    TwoBits(false, false);
    TwoBits(a, b);
    ZerosVal(n);
  }

  lemma FourIs()
    ensures Pow2(2) == 4
  {
  }

  lemma TwoBits(a: bool, b: bool)
    ensures Val([a, b]) == (if a then 1 else 0) + (if b then 2 else 0)
    ensures Pos([a, b]) == (if a then 2 else 0) + (if b then 1 else 0)
    ensures Contiguous([a, b]) <==> a || !b
    ensures Pow2(2) == 4
  {
    assert [a, b][1..] == [b] && [b][1..] == [];
    assert Val([b]) == (if b then 1 else 0) && Pos([b]) == (if b then 1 else 0);
    assert Zeros(1) == [false] && Zeros(0) == [];
    assert Contiguous([b]);
    assert Pow2(2) == 2 * Pow2(1) && Pow2(1) == 2 * Pow2(0);
  }
}
