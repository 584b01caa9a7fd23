/** BITOP (bitops.c): the path that works a word at a time and the loop over the bytes compute one operation on
    strings padded with zeros. */
module Bitop {
  import opened Bytes
  import opened Options

  datatype Op = And | Or | Xor | Not

  type String = seq<bv8>

  /** The bytes of four words, and the number of keys the fast path has room for. */
  const STEP: nat := 32
  const MAX_FAST_KEYS: nat := 16

  // ---------------------------------------------------------------- what is computed

  function ByteAt(s: String, j: nat): bv8 { if j < |s| then s[j] else 0 }

  predicate BitSet(b: bv8, k: nat)
    requires k < 8
  {
    Masked(b, OneBit(k))
  }

  function AndByte(a: bv8, b: bv8): bv8 { a & b }

  function OrByte(a: bv8, b: bv8): bv8 { a | b }

  function XorByte(a: bv8, b: bv8): bv8 { a ^ b }

  function NotByte(a: bv8): bv8 { !a }

  function Combine(op: Op, a: bv8, b: bv8): bv8 {
    match op
    case And => AndByte(a, b)
    case Or => OrByte(a, b)
    case Xor => XorByte(a, b)
    case Not => a
  }

  /** Byte j of the result for the first n of the strings. */
  function Folded(op: Op, src: seq<String>, j: nat, n: nat): bv8
    requires 0 < n <= |src|
  {
    if n == 1 then (if op == Not then NotByte(ByteAt(src[0], j)) else ByteAt(src[0], j))
    else Combine(op, Folded(op, src, j, n - 1), ByteAt(src[n - 1], j))
  }

  /** How many of the first n strings have the bit. */
  function Having(src: seq<String>, j: nat, k: nat, n: nat): nat
    requires k < 8 && n <= |src|
  {
    if n == 0 then 0 else Having(src, j, k, n - 1) + if BitSet(ByteAt(src[n - 1], j), k) then 1 else 0
  }

  predicate SingleBit(m: bv8) { m == 1 || m == 2 || m == 4 || m == 8 || m == 16 || m == 32 || m == 64 || m == 128 }

  predicate Masked(a: bv8, m: bv8) { a & m != 0 }

  lemma MaskedAnd(a: bv8, b: bv8, m: bv8)
    requires SingleBit(m)
    ensures Masked(AndByte(a, b), m) <==> Masked(a, m) && Masked(b, m)
  {
  }

  lemma MaskedOr(a: bv8, b: bv8, m: bv8)
    requires SingleBit(m)
    ensures Masked(OrByte(a, b), m) <==> Masked(a, m) || Masked(b, m)
  {
  }

  lemma MaskedXor(a: bv8, b: bv8, m: bv8)
    requires SingleBit(m)
    ensures Masked(XorByte(a, b), m) <==> Masked(a, m) != Masked(b, m)
  {
  }

  lemma MaskedNot(a: bv8, m: bv8)
    requires SingleBit(m)
    ensures Masked(NotByte(a), m) <==> !Masked(a, m)
  {
  }

  lemma OneBitIsSingle(k: nat)
    requires k < 8
    ensures SingleBit(OneBit(k))
  {
  }

  lemma CombineBit(a: bv8, b: bv8, k: nat)
    requires k < 8
    ensures BitSet(AndByte(a, b), k) <==> BitSet(a, k) && BitSet(b, k)
    ensures BitSet(OrByte(a, b), k) <==> BitSet(a, k) || BitSet(b, k)
    ensures BitSet(XorByte(a, b), k) <==> BitSet(a, k) != BitSet(b, k)
    ensures BitSet(NotByte(a), k) <==> !BitSet(a, k)
  {
    OneBitIsSingle(k);
    hide SingleBit, OneBit, Masked, AndByte, OrByte, XorByte, NotByte;
    MaskedAnd(a, b, OneBit(k));
    MaskedOr(a, b, OneBit(k));
    MaskedXor(a, b, OneBit(k));
    MaskedNot(a, OneBit(k));
  }

  lemma CombineSet(op: Op, a: bv8, b: bv8, k: nat)
    requires k < 8
    ensures BitSet(Combine(op, a, b), k) <==> match op
      case And => BitSet(a, k) && BitSet(b, k)
      case Or => BitSet(a, k) || BitSet(b, k)
      case Xor => BitSet(a, k) != BitSet(b, k)
      case Not => BitSet(a, k)
  {
    hide BitSet, AndByte, OrByte, XorByte;
    CombineBit(a, b, k);
  }

  /** Bit by bit: all of the strings, one of them, an odd number of them, or not the only one has it. */
  lemma {:induction false} FoldedBit(op: Op, src: seq<String>, j: nat, k: nat, n: nat)
    requires 0 < n <= |src| && k < 8 && (op == Not ==> n == 1)
    ensures Having(src, j, k, n) <= n
    ensures BitSet(Folded(op, src, j, n), k) <==> match op
      case And => Having(src, j, k, n) == n
      case Or => Having(src, j, k, n) > 0
      case Xor => Having(src, j, k, n) % 2 == 1
      case Not => Having(src, j, k, n) == 0
  {
    hide BitSet, Combine, ByteAt, NotByte;
    if n == 1 {
      assert Having(src, j, k, 0) == 0;
      CombineBit(ByteAt(src[0], j), 0, k);
    } else {
      FoldedBit(op, src, j, k, n - 1);
      CombineSet(op, Folded(op, src, j, n - 1), ByteAt(src[n - 1], j), k);
    }
  }

  // ---------------------------------------------------------------- words

  /** A word of eight bytes, as it is in memory. */
  function Word(s: String, p: nat): bv64
    requires p + 8 <= |s|
  {
    (s[p] as bv64) | ((s[p + 1] as bv64) << 8) | ((s[p + 2] as bv64) << 16) | ((s[p + 3] as bv64) << 24)
    | ((s[p + 4] as bv64) << 32) | ((s[p + 5] as bv64) << 40) | ((s[p + 6] as bv64) << 48) | ((s[p + 7] as bv64) << 56)
  }

  function ByteOf(w: bv64, k: nat): bv8
    requires k < 8
  {
    match k
    case 0 => (w & 0xFF) as bv8
    case 1 => ((w >> 8) & 0xFF) as bv8
    case 2 => ((w >> 16) & 0xFF) as bv8
    case 3 => ((w >> 24) & 0xFF) as bv8
    case 4 => ((w >> 32) & 0xFF) as bv8
    case 5 => ((w >> 40) & 0xFF) as bv8
    case 6 => ((w >> 48) & 0xFF) as bv8
    case _ => (w >> 56) as bv8
  }

  function Bytes8(a: bv8, b: bv8, c: bv8, d: bv8, e: bv8, f: bv8, g: bv8, h: bv8): bv64 {
    (a as bv64) | ((b as bv64) << 8) | ((c as bv64) << 16) | ((d as bv64) << 24)
    | ((e as bv64) << 32) | ((f as bv64) << 40) | ((g as bv64) << 48) | ((h as bv64) << 56)
  }

  lemma BytesOfWord(a: bv8, b: bv8, c: bv8, d: bv8, e: bv8, f: bv8, g: bv8, h: bv8)
    ensures var w := Bytes8(a, b, c, d, e, f, g, h);
      && ByteOf(w, 0) == a && ByteOf(w, 1) == b && ByteOf(w, 2) == c && ByteOf(w, 3) == d
      && ByteOf(w, 4) == e && ByteOf(w, 5) == f && ByteOf(w, 6) == g && ByteOf(w, 7) == h
  {
  }

  lemma WordBytes(s: String, p: nat)
    requires p + 8 <= |s|
    ensures var w := Word(s, p);
      && ByteOf(w, 0) == s[p] && ByteOf(w, 1) == s[p + 1] && ByteOf(w, 2) == s[p + 2] && ByteOf(w, 3) == s[p + 3]
      && ByteOf(w, 4) == s[p + 4] && ByteOf(w, 5) == s[p + 5] && ByteOf(w, 6) == s[p + 6] && ByteOf(w, 7) == s[p + 7]
  {
    BytesOfWord(s[p], s[p + 1], s[p + 2], s[p + 3], s[p + 4], s[p + 5], s[p + 6], s[p + 7]);
    hide ByteOf;
  }

  function AndWord(x: bv64, y: bv64): bv64 { x & y }

  function OrWord(x: bv64, y: bv64): bv64 { x | y }

  function XorWord(x: bv64, y: bv64): bv64 { x ^ y }

  function NotWord(x: bv64): bv64 { !x }

  function CombineWords(op: Op, x: bv64, y: bv64): bv64 {
    match op
    case And => AndWord(x, y)
    case Or => OrWord(x, y)
    case Xor => XorWord(x, y)
    case Not => x
  }

  lemma AndBytesRaw(x: bv64, y: bv64)
    ensures ByteOf(x & y, 0) == ByteOf(x, 0) & ByteOf(y, 0) && ByteOf(x & y, 1) == ByteOf(x, 1) & ByteOf(y, 1)
    ensures ByteOf(x & y, 2) == ByteOf(x, 2) & ByteOf(y, 2) && ByteOf(x & y, 3) == ByteOf(x, 3) & ByteOf(y, 3)
    ensures ByteOf(x & y, 4) == ByteOf(x, 4) & ByteOf(y, 4) && ByteOf(x & y, 5) == ByteOf(x, 5) & ByteOf(y, 5)
    ensures ByteOf(x & y, 6) == ByteOf(x, 6) & ByteOf(y, 6) && ByteOf(x & y, 7) == ByteOf(x, 7) & ByteOf(y, 7)
  {
  }

  lemma AndBytes(x: bv64, y: bv64)
    ensures ByteOf(AndWord(x, y), 0) == AndByte(ByteOf(x, 0), ByteOf(y, 0))
    ensures ByteOf(AndWord(x, y), 1) == AndByte(ByteOf(x, 1), ByteOf(y, 1))
    ensures ByteOf(AndWord(x, y), 2) == AndByte(ByteOf(x, 2), ByteOf(y, 2))
    ensures ByteOf(AndWord(x, y), 3) == AndByte(ByteOf(x, 3), ByteOf(y, 3))
    ensures ByteOf(AndWord(x, y), 4) == AndByte(ByteOf(x, 4), ByteOf(y, 4))
    ensures ByteOf(AndWord(x, y), 5) == AndByte(ByteOf(x, 5), ByteOf(y, 5))
    ensures ByteOf(AndWord(x, y), 6) == AndByte(ByteOf(x, 6), ByteOf(y, 6))
    ensures ByteOf(AndWord(x, y), 7) == AndByte(ByteOf(x, 7), ByteOf(y, 7))
  {
    AndBytesRaw(x, y);
    hide ByteOf;
  }

  lemma OrBytesRaw(x: bv64, y: bv64)
    ensures ByteOf(x | y, 0) == ByteOf(x, 0) | ByteOf(y, 0) && ByteOf(x | y, 1) == ByteOf(x, 1) | ByteOf(y, 1)
    ensures ByteOf(x | y, 2) == ByteOf(x, 2) | ByteOf(y, 2) && ByteOf(x | y, 3) == ByteOf(x, 3) | ByteOf(y, 3)
    ensures ByteOf(x | y, 4) == ByteOf(x, 4) | ByteOf(y, 4) && ByteOf(x | y, 5) == ByteOf(x, 5) | ByteOf(y, 5)
    ensures ByteOf(x | y, 6) == ByteOf(x, 6) | ByteOf(y, 6) && ByteOf(x | y, 7) == ByteOf(x, 7) | ByteOf(y, 7)
  {
  }

  lemma OrBytes(x: bv64, y: bv64)
    ensures ByteOf(OrWord(x, y), 0) == OrByte(ByteOf(x, 0), ByteOf(y, 0))
    ensures ByteOf(OrWord(x, y), 1) == OrByte(ByteOf(x, 1), ByteOf(y, 1))
    ensures ByteOf(OrWord(x, y), 2) == OrByte(ByteOf(x, 2), ByteOf(y, 2))
    ensures ByteOf(OrWord(x, y), 3) == OrByte(ByteOf(x, 3), ByteOf(y, 3))
    ensures ByteOf(OrWord(x, y), 4) == OrByte(ByteOf(x, 4), ByteOf(y, 4))
    ensures ByteOf(OrWord(x, y), 5) == OrByte(ByteOf(x, 5), ByteOf(y, 5))
    ensures ByteOf(OrWord(x, y), 6) == OrByte(ByteOf(x, 6), ByteOf(y, 6))
    ensures ByteOf(OrWord(x, y), 7) == OrByte(ByteOf(x, 7), ByteOf(y, 7))
  {
    OrBytesRaw(x, y);
    hide ByteOf;
  }

  lemma XorBytesRaw(x: bv64, y: bv64)
    ensures ByteOf(x ^ y, 0) == ByteOf(x, 0) ^ ByteOf(y, 0) && ByteOf(x ^ y, 1) == ByteOf(x, 1) ^ ByteOf(y, 1)
    ensures ByteOf(x ^ y, 2) == ByteOf(x, 2) ^ ByteOf(y, 2) && ByteOf(x ^ y, 3) == ByteOf(x, 3) ^ ByteOf(y, 3)
    ensures ByteOf(x ^ y, 4) == ByteOf(x, 4) ^ ByteOf(y, 4) && ByteOf(x ^ y, 5) == ByteOf(x, 5) ^ ByteOf(y, 5)
    ensures ByteOf(x ^ y, 6) == ByteOf(x, 6) ^ ByteOf(y, 6) && ByteOf(x ^ y, 7) == ByteOf(x, 7) ^ ByteOf(y, 7)
  {
  }

  lemma XorBytes(x: bv64, y: bv64)
    ensures ByteOf(XorWord(x, y), 0) == XorByte(ByteOf(x, 0), ByteOf(y, 0))
    ensures ByteOf(XorWord(x, y), 1) == XorByte(ByteOf(x, 1), ByteOf(y, 1))
    ensures ByteOf(XorWord(x, y), 2) == XorByte(ByteOf(x, 2), ByteOf(y, 2))
    ensures ByteOf(XorWord(x, y), 3) == XorByte(ByteOf(x, 3), ByteOf(y, 3))
    ensures ByteOf(XorWord(x, y), 4) == XorByte(ByteOf(x, 4), ByteOf(y, 4))
    ensures ByteOf(XorWord(x, y), 5) == XorByte(ByteOf(x, 5), ByteOf(y, 5))
    ensures ByteOf(XorWord(x, y), 6) == XorByte(ByteOf(x, 6), ByteOf(y, 6))
    ensures ByteOf(XorWord(x, y), 7) == XorByte(ByteOf(x, 7), ByteOf(y, 7))
  {
    XorBytesRaw(x, y);
    hide ByteOf;
  }

  lemma NotBytes(x: bv64)
    ensures ByteOf(NotWord(x), 0) == NotByte(ByteOf(x, 0))
    ensures ByteOf(NotWord(x), 1) == NotByte(ByteOf(x, 1))
    ensures ByteOf(NotWord(x), 2) == NotByte(ByteOf(x, 2))
    ensures ByteOf(NotWord(x), 3) == NotByte(ByteOf(x, 3))
    ensures ByteOf(NotWord(x), 4) == NotByte(ByteOf(x, 4))
    ensures ByteOf(NotWord(x), 5) == NotByte(ByteOf(x, 5))
    ensures ByteOf(NotWord(x), 6) == NotByte(ByteOf(x, 6))
    ensures ByteOf(NotWord(x), 7) == NotByte(ByteOf(x, 7))
  {
  }

  /** An operation on words is that operation on their bytes. */
  lemma CombineBytes(op: Op, x: bv64, y: bv64)
    ensures ByteOf(CombineWords(op, x, y), 0) == Combine(op, ByteOf(x, 0), ByteOf(y, 0))
    ensures ByteOf(CombineWords(op, x, y), 1) == Combine(op, ByteOf(x, 1), ByteOf(y, 1))
    ensures ByteOf(CombineWords(op, x, y), 2) == Combine(op, ByteOf(x, 2), ByteOf(y, 2))
    ensures ByteOf(CombineWords(op, x, y), 3) == Combine(op, ByteOf(x, 3), ByteOf(y, 3))
    ensures ByteOf(CombineWords(op, x, y), 4) == Combine(op, ByteOf(x, 4), ByteOf(y, 4))
    ensures ByteOf(CombineWords(op, x, y), 5) == Combine(op, ByteOf(x, 5), ByteOf(y, 5))
    ensures ByteOf(CombineWords(op, x, y), 6) == Combine(op, ByteOf(x, 6), ByteOf(y, 6))
    ensures ByteOf(CombineWords(op, x, y), 7) == Combine(op, ByteOf(x, 7), ByteOf(y, 7))
  {
    hide ByteOf, AndByte, OrByte, XorByte, AndWord, OrWord, XorWord;
    match op {
      case And => AndBytes(x, y);
      case Or => OrBytes(x, y);
      case Xor => XorBytes(x, y);
      case Not =>
    }
  }

  /** `lres[..] = w` */
  method Store(res: array<bv8>, p: nat, w: bv64)
    requires p + 8 <= res.Length
    modifies res
    ensures forall k :: 0 <= k < res.Length && !(p <= k < p + 8) ==> res[k] == old(res[k])
    ensures
      && res[p] == ByteOf(w, 0) && res[p + 1] == ByteOf(w, 1)
      && res[p + 2] == ByteOf(w, 2) && res[p + 3] == ByteOf(w, 3)
      && res[p + 4] == ByteOf(w, 4) && res[p + 5] == ByteOf(w, 5)
      && res[p + 6] == ByteOf(w, 6) && res[p + 7] == ByteOf(w, 7)
  {
    hide ByteOf;
    res[p] := ByteOf(w, 0);
    res[p + 1] := ByteOf(w, 1);
    res[p + 2] := ByteOf(w, 2);
    res[p + 3] := ByteOf(w, 3);
    res[p + 4] := ByteOf(w, 4);
    res[p + 5] := ByteOf(w, 5);
    res[p + 6] := ByteOf(w, 6);
    res[p + 7] := ByteOf(w, 7);
  }

  /** `lres[..] op= lp[i][..]` */
  method CombineWord(op: Op, res: array<bv8>, s: String, p: nat)
    requires p + 8 <= res.Length && p + 8 <= |s|
    modifies res
    ensures forall k :: 0 <= k < res.Length ==>
      res[k] == if p <= k < p + 8 then Combine(op, old(res[k]), s[k]) else old(res[k])
  {
    hide ByteOf, Word, CombineWords, Combine;
    var x, y := Word(res[..], p), Word(s, p);
    WordBytes(res[..], p);
    WordBytes(s, p);
    CombineBytes(op, x, y);
    Store(res, p, CombineWords(op, x, y));
  }

  /** `lres[..] = ~lres[..]` */
  method InvertWord(res: array<bv8>, p: nat)
    requires p + 8 <= res.Length
    modifies res
    ensures forall k :: 0 <= k < res.Length ==> res[k] == if p <= k < p + 8 then NotByte(old(res[k])) else old(res[k])
  {
    hide ByteOf, Word, NotWord, NotByte;
    var x := Word(res[..], p);
    WordBytes(res[..], p);
    NotBytes(x);
    Store(res, p, NotWord(x));
  }

  // ---------------------------------------------------------------- the command

  /** Four words of the result, at j, for the operations on several strings. */
  method FourWords(op: Op, res: array<bv8>, src: seq<String>, j: nat)
    requires op != Not && src != [] && j + STEP <= res.Length
    requires forall i :: 0 <= i < |src| ==> j + STEP <= |src[i]|
    requires forall k :: j <= k < j + STEP ==> res[k] == src[0][k]
    modifies res
    ensures forall k :: 0 <= k < res.Length ==>
      res[k] == if j <= k < j + STEP then Folded(op, src, k, |src|) else old(res[k])
  {
    hide Combine;
    var i := 1;
    while i < |src|
      invariant 1 <= i <= |src|
      invariant forall k :: 0 <= k < res.Length ==>
        res[k] == if j <= k < j + STEP then Folded(op, src, k, i) else old(res[k])
    {
      CombineWord(op, res, src[i], j);
      CombineWord(op, res, src[i], j + 8);
      CombineWord(op, res, src[i], j + 16);
      CombineWord(op, res, src[i], j + 24);
      i := i + 1;
    }
  }

  method InvertFourWords(res: array<bv8>, src: seq<String>, j: nat)
    requires |src| == 1 && j + STEP <= res.Length && j + STEP <= |src[0]|
    requires forall k :: j <= k < j + STEP ==> res[k] == src[0][k]
    modifies res
    ensures forall k :: 0 <= k < res.Length ==>
      res[k] == if j <= k < j + STEP then Folded(Not, src, k, |src|) else old(res[k])
  {
    InvertWord(res, j);
    InvertWord(res, j + 8);
    InvertWord(res, j + 16);
    InvertWord(res, j + 24);
  }

  /** The fast path: how far it went. */
  method FastPath(op: Op, res: array<bv8>, src: seq<String>, minlen: nat) returns (j: nat)
    requires src != [] && (op == Not ==> |src| == 1) && minlen <= res.Length
    requires forall i :: 0 <= i < |src| ==> minlen <= |src[i]|
    modifies res
    ensures j <= minlen
    ensures forall k :: 0 <= k < j ==> res[k] == Folded(op, src, k, |src|)
  {
    hide Folded;
    j := 0;
    var left := minlen;
    if left >= STEP && |src| <= MAX_FAST_KEYS {
      forall k | 0 <= k < minlen {
        res[k] := src[0][k];
      }
      while left >= STEP
        invariant 0 <= j <= minlen && j + left == minlen
        invariant forall k :: 0 <= k < j ==> res[k] == Folded(op, src, k, |src|)
        invariant forall k :: j <= k < minlen ==> res[k] == src[0][k]
      {
        if op == Not {
          InvertFourWords(res, src, j);
        } else {
          FourWords(op, res, src, j);
        }
        j, left := j + STEP, left - STEP;
      }
    }
  }

  /** One byte of the vanilla algorithm. */
  method OneByte(op: Op, src: seq<String>, j: nat) returns (output: bv8)
    requires src != []
    ensures output == Folded(op, src, j, |src|)
  {
    output := if |src[0]| <= j then 0 else src[0][j];
    if op == Not {
      output := NotByte(output);
    }
    var i := 1;
    while i < |src|
      invariant 1 <= i <= |src| && output == Folded(op, src, j, i)
    {
      var byte := if |src[i]| <= j then 0 else src[i][j];
      output := Combine(op, output, byte);
      i := i + 1;
    }
  }

  /** A key that is not there is an empty string. */
  function Content(v: Option<String>): String { if v.Some? then v.value else [] }

  function Contents(values: seq<Option<String>>): (src: seq<String>)
    ensures |src| == |values| && forall i :: 0 <= i < |values| ==> src[i] == Content(values[i])
  {
    if values == [] then [] else [Content(values[0])] + Contents(values[1..])
  }

  predicate Attained(src: seq<String>, j: nat, x: nat)
    requires j <= |src|
  {
    exists i :: 0 <= i < j && |src[i]| == x
  }

  /** The least and the greatest length of the first j strings. */
  predicate Measured(src: seq<String>, j: nat, minlen: nat, maxlen: nat)
    requires j <= |src|
  {
    && (forall i :: 0 <= i < j ==> minlen <= |src[i]| <= maxlen)
    && if j == 0 then maxlen == 0 else Attained(src, j, minlen) && Attained(src, j, maxlen)
  }

  lemma MeasuredNext(src: seq<String>, j: nat, minlen: nat, maxlen: nat)
    requires j < |src| && Measured(src, j, minlen, maxlen)
    ensures var len := |src[j]|;
      Measured(src, j + 1, if j == 0 || len < minlen then len else minlen, if len > maxlen then len else maxlen)
  {
    assert Attained(src, j + 1, |src[j]|);
    assert forall x: nat :: Attained(src, j, x) ==> Attained(src, j + 1, x);
  }

  /** The loop that looks the keys up: the greatest and the least length. */
  method Lengths(values: seq<Option<String>>) returns (src: seq<String>, minlen: nat, maxlen: nat)
    requires values != []
    ensures src == Contents(values)
    ensures forall i :: 0 <= i < |src| ==> minlen <= |src[i]| <= maxlen
    ensures (exists i :: 0 <= i < |src| && |src[i]| == maxlen) && exists i :: 0 <= i < |src| && |src[i]| == minlen
  {
    hide Contents;
    src, minlen, maxlen := Contents(values), 0, 0;
    var j := 0;
    while j < |values|
      invariant j <= |values| && Measured(src, j, minlen, maxlen)
    {
      MeasuredNext(src, j, minlen, maxlen);
      hide Measured;
      if values[j].None? {
        minlen := 0;
      } else {
        var len := |src[j]|;
        if len > maxlen {
          maxlen := len;
        }
        if j == 0 || len < minlen {
          minlen := len;
        }
      }
      j := j + 1;
    }
  }

  /** `bitopCommand`: an error for NOT of several strings; otherwise the result is as long as the longest string. */
  method BitopCommand(op: Op, values: seq<Option<String>>) returns (r: Option<String>)
    requires values != []
    ensures r == None <==> op == Not && |values| != 1
    ensures r.Some? ==> forall i :: 0 <= i < |values| ==> |Content(values[i])| <= |r.value|
    ensures r.Some? && r.value != [] ==> exists i :: 0 <= i < |values| && |Content(values[i])| == |r.value|
    ensures r.Some? ==> forall j :: 0 <= j < |r.value| ==> r.value[j] == Folded(op, Contents(values), j, |values|)
  {
    hide Folded;
    if op == Not && |values| != 1 {
      return None;
    }
    var src, minlen, maxlen := Lengths(values);
    if maxlen == 0 {
      return Some([]);
    }
    var res := new bv8[maxlen](_ => 0);
    var j := FastPath(op, res, src, minlen);
    while j < maxlen
      invariant j <= maxlen
      invariant forall k :: 0 <= k < j ==> res[k] == Folded(op, src, k, |src|)
    {
      res[j] := OneByte(op, src, j);
      j := j + 1;
    }
    r := Some(res[..]);
  }
}
