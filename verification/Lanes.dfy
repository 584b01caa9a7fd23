/** Sums of small numbers in the four lanes of a `uint32_t`. */
module Lanes {

  /** The value of a sum or product of `uint32_t`. */
  function U32(x: nat): nat { x % 0x1_0000_0000 }

  function Packed(a: nat, b: nat, c: nat, d: nat): nat { a + 0x100 * b + 0x1_0000 * c + 0x100_0000 * d }

  function Sum(p: seq<nat>): nat { if p == [] then 0 else p[0] + Sum(p[1..]) }

  lemma {:induction false} SumConcat(p: seq<nat>, q: seq<nat>)
    ensures Sum(p + q) == Sum(p) + Sum(q)
  {
    if p == [] {
      assert p + q == q;
    } else {
      assert (p + q)[1..] == p[1..] + q;
      SumConcat(p[1..], q);
    }
  }

  lemma SumFour(a: nat, b: nat, c: nat, d: nat)
    ensures Sum([a, b, c, d]) == a + b + c + d
  {
    assert [a, b, c, d][1..] == [b, c, d] && [b, c, d][1..] == [c, d] && [c, d][1..] == [d] && [d][1..] == [];
    assert Sum([d]) == d + Sum([]);
    assert Sum([c, d]) == c + Sum([d]) && Sum([b, c, d]) == b + Sum([c, d]);
  }

  /** Every fourth number, from k on. */
  function LaneSum(p: seq<nat>, n: nat, k: nat): (r: nat)
    requires 4 * n <= |p| && k < 4
  {
    if n == 0 then 0 else LaneSum(p, n - 1, k) + p[4 * (n - 1) + k]
  }

  lemma {:induction false} LanesSum(p: seq<nat>, n: nat)
    requires 4 * n <= |p|
    ensures LaneSum(p, n, 0) + LaneSum(p, n, 1) + LaneSum(p, n, 2) + LaneSum(p, n, 3) == Sum(p[..4 * n])
  {
    if n > 0 {
      var j := 4 * (n - 1);
      LanesSum(p, n - 1);
      assert p[..4 * n] == p[..j] + [p[j], p[j + 1], p[j + 2], p[j + 3]];
      SumConcat(p[..j], [p[j], p[j + 1], p[j + 2], p[j + 3]]);
      SumFour(p[j], p[j + 1], p[j + 2], p[j + 3]);
    }
  }

  lemma {:induction false} LaneBound(p: seq<nat>, n: nat, k: nat)
    requires 4 * n <= |p| && k < 4 && forall i :: 0 <= i < |p| ==> p[i] <= 8
    ensures LaneSum(p, n, k) <= 8 * n
  {
    if n > 0 {
      LaneBound(p, n - 1, k);
    }
  }

  function WordAt(p: seq<nat>, j: nat): nat
    requires j + 4 <= |p|
  {
    Packed(p[j], p[j + 1], p[j + 2], p[j + 3])
  }

  function WordSum(p: seq<nat>, n: nat): nat
    requires 4 * n <= |p|
  {
    if n == 0 then 0 else WordSum(p, n - 1) + WordAt(p, 4 * (n - 1))
  }

  lemma {:induction false} WordSumIs(p: seq<nat>, n: nat)
    requires 4 * n <= |p|
    ensures WordSum(p, n) == Packed(LaneSum(p, n, 0), LaneSum(p, n, 1), LaneSum(p, n, 2), LaneSum(p, n, 3))
  {
    if n > 0 {
      WordSumIs(p, n - 1);
    }
  }

  lemma QuotientIs(x: nat, q: nat, r: nat)
    requires x == q * 0x100_0000 + r && r < 0x100_0000
    ensures x / 0x100_0000 == q
  {
  }

  lemma RemainderIs(x: nat, q: nat, r: nat)
    requires x == q * 0x1_0000_0000 + r && r < 0x1_0000_0000
    ensures U32(x) == r
  {
  }

  /** Lanes up to 56: the product adds them up in the last one, and the shift takes it out. */
  lemma ProductSums(a: nat, b: nat, c: nat, d: nat)
    requires a <= 56 && b <= 56 && c <= 56 && d <= 56
    ensures U32(Packed(a, b, c, d)) == Packed(a, b, c, d)
    ensures U32(Packed(a, b, c, d) * 0x0101_0101) / 0x100_0000 == a + b + c + d
  {
    var low := a + 0x100 * (a + b) + 0x1_0000 * (a + b + c);
    var r := low + 0x100_0000 * (a + b + c + d);
    var q := (b + c + d) + 0x100 * (c + d) + 0x1_0000 * d;
    RemainderIs(Packed(a, b, c, d), 0, Packed(a, b, c, d));
    RemainderIs(Packed(a, b, c, d) * 0x0101_0101, q, r);
    QuotientIs(r, a + b + c + d, low);
  }

  /** Seven words of counts up to 8: no lane overflows, and the product gives the sum of the 28 counts. */
  lemma SevenWords(p: seq<nat>)
    requires |p| == 28 && forall i :: 0 <= i < 28 ==> p[i] <= 8
    ensures U32(U32(WordAt(p, 0) + WordAt(p, 4) + WordAt(p, 8) + WordAt(p, 12) + WordAt(p, 16) +
                    WordAt(p, 20) + WordAt(p, 24))
                * 0x0101_0101) / 0x100_0000 == Sum(p)
  {
    hide U32, Packed, LaneSum, Sum, WordAt;
    assert WordSum(p, 3) == WordAt(p, 0) + WordAt(p, 4) + WordAt(p, 8) by {
      assert WordSum(p, 1) == WordSum(p, 0) + WordAt(p, 0);
      assert WordSum(p, 2) == WordSum(p, 1) + WordAt(p, 4);
    }
    assert WordSum(p, 5) == WordSum(p, 4) + WordAt(p, 16) && WordSum(p, 4) == WordSum(p, 3) + WordAt(p, 12);
    assert WordSum(p, 7) == WordSum(p, 6) + WordAt(p, 24) && WordSum(p, 6) == WordSum(p, 5) + WordAt(p, 20);
    WordSumIs(p, 7);
    LaneBound(p, 7, 0);
    LaneBound(p, 7, 1);
    LaneBound(p, 7, 2);
    LaneBound(p, 7, 3);
    ProductSums(LaneSum(p, 7, 0), LaneSum(p, 7, 1), LaneSum(p, 7, 2), LaneSum(p, 7, 3));
    LanesSum(p, 7);
    assert p[..28] == p;
  }
}
