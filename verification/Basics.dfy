/** Facts about sets, sequences and products that several modules use. */
module Basics {
  lemma SubsetSize<T>(a: set<T>, b: set<T>)
    requires a <= b
    ensures |a| <= |b|
  {
    assert b == a + (b - a);
  }

  lemma Associate<T>(a: seq<T>, b: seq<T>, c: seq<T>)
    ensures a + b + c == a + (b + c)
  {
  }

  lemma ProductAssociates(a: int, b: int, c: int)
    ensures a * (b * c) == (a * b) * c
  {
  }

  lemma Distribute(a: int, b: int, c: int)
    ensures (a + b) * c == a * c + b * c
    ensures c * (a + b) == c * a + c * b
  {
  }

  /** Quotient and remainder are the only ones. */
  lemma ModUnique(i: int, s: int, q: int, r: int)
    requires s > 0 && i == s * q + r && 0 <= r < s
    ensures i % s == r && i / s == q
  {
    var q', r' := i / s, i % s;
    assert s * q' + r' == i;
    if q' < q {
      Gap(s, q', q);
    } else if q < q' {
      Gap(s, q, q');
    }
  }

  lemma Gap(s: int, a: int, b: int)
    requires s > 0 && a < b
    ensures s * b >= s * a + s
  {
    Distribute(a, b - a, s);
    AtLeast(s, b - a);
  }

  lemma AtLeast(s: int, d: int)
    requires s > 0 && d >= 1
    ensures s * d >= s
  {
  }
}
