/** A sorted set of 64-bit integers in an array of bytes (intset.c), all of the same width, widened in place. */
module Intset {
  import opened Basics
  import opened Bytes

  const INTSET_ENC_INT16: nat := 2
  const INTSET_ENC_INT32: nat := 4
  const INTSET_ENC_INT64: nat := 8

  predicate IsEncoding(e: nat) { e == INTSET_ENC_INT16 || e == INTSET_ENC_INT32 || e == INTSET_ENC_INT64 }

  // ---------------------------------------------------------------- integers in bytes

  function Pow256(w: nat): (p: nat)
    ensures p > 0 && (w > 0 ==> p % 256 == 0)
  {
    if w == 0 then 1 else 256 * Pow256(w - 1)
  }

  /** Little endian. */
  function ToBytes(n: nat, w: nat): (s: seq<Byte>)
    ensures |s| == w
  {
    if w == 0 then [] else [n % 256] + ToBytes(n / 256, w - 1)
  }

  function Unsigned(s: seq<Byte>): nat { if s == [] then 0 else s[0] + 256 * Unsigned(s[1..]) }

  lemma {:induction false} UnsignedOf(n: nat, w: nat)
    requires n < Pow256(w)
    ensures Unsigned(ToBytes(n, w)) == n
  {
    if w > 0 {
      UnsignedOf(n / 256, w - 1);
      assert ToBytes(n, w)[1..] == ToBytes(n / 256, w - 1);
    }
  }

  lemma {:induction false} UnsignedBound(s: seq<Byte>)
    ensures Unsigned(s) < Pow256(|s|)
  {
    if s != [] {
      UnsignedBound(s[1..]);
    }
  }

  /** Two's complement. */
  function Encode(v: int, w: nat): (s: seq<Byte>)
    requires 0 <= v + Pow256(w)
    ensures |s| == w
  {
    ToBytes(if v < 0 then v + Pow256(w) else v, w)
  }

  function Decode(s: seq<Byte>): int {
    if 2 * Unsigned(s) >= Pow256(|s|) then Unsigned(s) - Pow256(|s|) else Unsigned(s)
  }

  /** The values that w bytes hold. */
  predicate FitsIn(v: int, w: nat) { 0 <= 2 * v + Pow256(w) && 2 * v < Pow256(w) }

  lemma DecodeOf(v: int, w: nat)
    requires FitsIn(v, w)
    ensures Decode(Encode(v, w)) == v
  {
    UnsignedOf(if v < 0 then v + Pow256(w) else v, w);
  }

  /** Byte k of n in w bytes is the digit of 256^k. */
  lemma {:induction false} ByteOf(n: nat, w: nat, k: nat)
    requires k < w
    ensures ToBytes(n, w)[k] == n / Pow256(k) % 256
  {
    if k > 0 {
      ByteOf(n / 256, w - 1, k - 1);
      DivideTwice(n, Pow256(k - 1));
    }
  }

  lemma DivideTwice(n: nat, p: nat)
    requires p > 0
    ensures n / 256 / p == n / (256 * p)
  {
    var q, r := n / 256 / p, n / 256 % p;
    assert n == 256 * (q * p + r) + n % 256;
    Distribute(q * p, r, 256);
    ProductAssociates(256, q, p);
    ProductAssociates(q, 256, p);
    ModUnique(n, 256 * p, q, 256 * r + n % 256);
  }

  /** The bytes of a value in an element of w bytes: two's complement, the least significant byte first. */
  lemma EncodedByte(v: int, w: nat, k: nat)
    requires 0 <= v + Pow256(w) && k < w
    ensures Encode(v, w)[k] == (if v < 0 then v + Pow256(w) else v) / Pow256(k) % 256
  {
    ByteOf(if v < 0 then v + Pow256(w) else v, w, k);
  }

  lemma DecodeFits(s: seq<Byte>)
    ensures FitsIn(Decode(s), |s|)
  {
    UnsignedBound(s);
  }

  /** `_intsetValueEncoding` */
  function ValueEncoding(v: int): (e: nat)
    ensures IsEncoding(e)
  {
    if v < -0x8000_0000 || v > 0x7fff_ffff then INTSET_ENC_INT64
    else if v < -0x8000 || v > 0x7fff then INTSET_ENC_INT32
    else INTSET_ENC_INT16
  }

  lemma Powers()
    ensures Pow256(2) == 0x1_0000 && Pow256(4) == 0x1_0000_0000 && Pow256(8) == 0x1_0000_0000_0000_0000
  {
    assert Pow256(1) == 256 * Pow256(0);
    assert Pow256(2) == 256 * Pow256(1);
    assert Pow256(3) == 256 * Pow256(2);
    assert Pow256(4) == 256 * Pow256(3);
    assert Pow256(5) == 256 * Pow256(4);
    assert Pow256(6) == 256 * Pow256(5);
    assert Pow256(7) == 256 * Pow256(6);
    assert Pow256(8) == 256 * Pow256(7);
  }

  /** The encoding of a value is the least that holds it. */
  lemma ValueEncodingIsLeast(v: int, e: nat)
    requires FitsIn(v, INTSET_ENC_INT64) && IsEncoding(e)
    ensures FitsIn(v, e) <==> ValueEncoding(v) <= e
  {
    Powers();
  }

  // ---------------------------------------------------------------- slots

  /** Bytes written over those at a place. */
  function Write(s: seq<Byte>, at: nat, bytes: seq<Byte>): (r: seq<Byte>)
    requires at + |bytes| <= |s|
    ensures |r| == |s|
  {
    s[..at] + bytes + s[at + |bytes|..]
  }

  lemma SliceAfterWrite(s: seq<Byte>, at: nat, bytes: seq<Byte>, lo: nat, hi: nat)
    requires at + |bytes| <= |s| && lo <= hi <= |s|
    ensures hi <= at || at + |bytes| <= lo ==> Write(s, at, bytes)[lo..hi] == s[lo..hi]
    ensures lo == at && hi == at + |bytes| ==> Write(s, at, bytes)[lo..hi] == bytes
  {
    var r, end := Write(s, at, bytes), at + |bytes|;
    assert forall i :: 0 <= i < |s| ==> r[i] == if i < at then s[i] else if i < end then bytes[i - at] else s[i];
    hide Write;
    if hi <= at || end <= lo {
      SameSlice(r, s, lo, hi, 0);
    }
    if lo == at && hi == end {
      SameSlice(r, bytes, at, end, at);
      assert bytes[0..] == bytes;
    }
  }

  /** Two stretches are the same when their elements are. */
  lemma SameSlice(a: seq<Byte>, b: seq<Byte>, lo: nat, hi: nat, shift: nat)
    requires shift <= lo <= hi <= |a| && hi - shift <= |b| && forall i :: lo <= i < hi ==> a[i] == b[i - shift]
    ensures a[lo..hi] == b[lo - shift..hi - shift]
  {
    var x, y := a[lo..hi], b[lo - shift..hi - shift];
    assert |x| == |y| == hi - lo;
    forall i | 0 <= i < hi - lo
      ensures x[i] == y[i]
    {
      assert x[i] == a[lo + i] && y[i] == b[lo - shift + i];
    }
  }

  /** `_intsetGetEncoded` */
  function GetEncoded(s: seq<Byte>, pos: nat, enc: nat): int
    requires pos * enc + enc <= |s|
  {
    Decode(s[pos * enc..pos * enc + enc])
  }

  /** `_intsetSet`, on the bytes. */
  function SetEncoded(s: seq<Byte>, pos: nat, enc: nat, v: int): (r: seq<Byte>)
    requires pos * enc + enc <= |s| && FitsIn(v, enc)
    ensures |r| == |s|
  {
    Write(s, pos * enc, Encode(v, enc))
  }

  lemma SlotsBelow(n: nat, e: nat)
    requires n > 0
    ensures (n - 1) * e + e == n * e && (n - 1) * e <= n * e
  {
  }

  lemma {:induction false} SlotsApart(i: nat, j: nat, e: nat)
    requires i < j
    ensures i * e + e <= j * e
  {
    SlotsBelow(j, e);
    if i < j - 1 {
      SlotsApart(i, j - 1, e);
    }
  }

  lemma GetAfterSet(s: seq<Byte>, pos: nat, enc: nat, v: int, k: nat)
    requires pos * enc + enc <= |s| && k * enc + enc <= |s| && FitsIn(v, enc)
    ensures GetEncoded(SetEncoded(s, pos, enc, v), k, enc) == if k == pos then v else GetEncoded(s, k, enc)
  {
    SliceAfterWrite(s, pos * enc, Encode(v, enc), k * enc, k * enc + enc);
    if k == pos {
      DecodeOf(v, enc);
    } else if k < pos {
      SlotsApart(k, pos, enc);
    } else {
      SlotsApart(pos, k, enc);
    }
  }

  function Values(s: seq<Byte>, enc: nat, n: nat): (r: seq<int>)
    requires n * enc <= |s|
    ensures |r| == n
  {
    if n == 0 then [] else SlotsBelow(n, enc); Values(s, enc, n - 1) + [GetEncoded(s, n - 1, enc)]
  }

  lemma {:induction false} ValuesAt(s: seq<Byte>, enc: nat, n: nat, k: nat)
    requires n * enc <= |s| && k < n
    ensures k * enc + enc <= |s| && Values(s, enc, n)[k] == GetEncoded(s, k, enc)
  {
    SlotsApart(k, n, enc);
    SlotsBelow(n, enc);
    if k < n - 1 {
      ValuesAt(s, enc, n - 1, k);
    }
  }

  // ---------------------------------------------------------------- sorted sequences

  predicate Sorted(vs: seq<int>) { forall i, j :: 0 <= i < j < |vs| ==> vs[i] < vs[j] }

  function SetOf(vs: seq<int>): set<int> { set v | v in vs }

  /** A value between its neighbours keeps the order and is one more element. */
  lemma InsertSorted(vs: seq<int>, pos: nat, v: int)
    requires Sorted(vs) && pos <= |vs|
    requires (forall i :: 0 <= i < pos ==> vs[i] < v) && (forall i :: pos <= i < |vs| ==> v < vs[i])
    ensures Sorted(vs[..pos] + [v] + vs[pos..]) && SetOf(vs[..pos] + [v] + vs[pos..]) == SetOf(vs) + {v}
    ensures v !in SetOf(vs)
  {
    var r := vs[..pos] + [v] + vs[pos..];
    forall x ensures x in r <==> x in vs || x == v {
      if x in vs {
        var i :| 0 <= i < |vs| && vs[i] == x;
        assert r[if i < pos then i else i + 1] == x;
      }
      if x == v {
        assert r[pos] == v;
      }
    }
  }

  lemma RemovedMember(vs: seq<int>, pos: nat, x: int)
    requires Sorted(vs) && pos < |vs|
    ensures x in vs[..pos] + vs[pos + 1..] <==> x in vs && x != vs[pos]
  {
    var r := vs[..pos] + vs[pos + 1..];
    if x in vs && x != vs[pos] {
      var i :| 0 <= i < |vs| && vs[i] == x;
      assert r[if i < pos then i else i - 1] == x;
    }
    if x in r {
      var i :| 0 <= i < |r| && r[i] == x;
      assert vs[if i < pos then i else i + 1] == x;
    }
  }

  lemma RemoveSorted(vs: seq<int>, pos: nat)
    requires Sorted(vs) && pos < |vs|
    ensures Sorted(vs[..pos] + vs[pos + 1..]) && SetOf(vs[..pos] + vs[pos + 1..]) == SetOf(vs) - {vs[pos]}
  {
    forall x {
      RemovedMember(vs, pos, x);
    }
  }

  // ---------------------------------------------------------------- the loops, on an array

  /** `memmove` */
  method MemMove(a: array<Byte>, dst: nat, src: nat, n: nat)
    requires dst + n <= a.Length && src + n <= a.Length
    modifies a
    ensures a[..] == Write(old(a[..]), dst, old(a[..])[src..src + n])
  {
    forall i | dst <= i < dst + n {
      a[i] := a[src + (i - dst)];
    }
  }

  /** `_intsetSet` */
  method SetSlot(a: array<Byte>, pos: nat, enc: nat, v: int)
    requires pos * enc + enc <= a.Length && FitsIn(v, enc)
    modifies a
    ensures a[..] == SetEncoded(old(a[..]), pos, enc, v)
  {
    var bytes, at := Encode(v, enc), pos * enc;
    forall i | 0 <= i < enc {
      a[at + i] := bytes[i];
    }
  }

  /** `intsetSearch`: where the value is, or where it belongs. */
  method Search(a: array<Byte>, enc: nat, length: nat, value: int) returns (found: bool, pos: nat)
    requires IsEncoding(enc) && length * enc <= a.Length && Sorted(Values(a[..], enc, length))
    ensures pos <= length
    ensures found ==> pos < length && Values(a[..], enc, length)[pos] == value
    ensures !found ==> forall i :: 0 <= i < pos ==> Values(a[..], enc, length)[i] < value
    ensures !found ==> forall i :: pos <= i < length ==> value < Values(a[..], enc, length)[i]
  {
    ghost var vs := Values(a[..], enc, length);
    if length == 0 {
      return false, 0;
    }
    ValuesAt(a[..], enc, length, length - 1);
    ValuesAt(a[..], enc, length, 0);
    hide Values, GetEncoded, Decode;
    if value > GetEncoded(a[..], length - 1, enc) {
      return false, length;
    } else if value < GetEncoded(a[..], 0, enc) {
      return false, 0;
    }
    var min, max, mid, cur := 0, length - 1, -1, -1;
    while max >= min
      invariant 0 <= min <= max + 1 <= length
      invariant forall i :: 0 <= i < min ==> vs[i] < value
      invariant forall i :: max < i < length ==> value < vs[i]
      invariant min > 0 || max < length - 1 ==> cur != value
      invariant min == 0 && max == length - 1 ==> min <= max
    {
      mid := (min + max) / 2;
      ValuesAt(a[..], enc, length, mid);
      cur := GetEncoded(a[..], mid, enc);
      if value > cur {
        min := mid + 1;
      } else if value < cur {
        max := mid - 1;
      } else {
        break;
      }
    }
    if value == cur {
      return true, mid;
    } else {
      return false, min;
    }
  }

  predicate SlotIs(s: seq<Byte>, pos: nat, enc: nat, v: int) {
    pos * enc + enc <= |s| && GetEncoded(s, pos, enc) == v
  }

  /** The old slots below n lie before the new slot n. */
  lemma OldBeforeNew(n: nat, k: nat, oldEnc: nat, newEnc: nat, shift: nat)
    requires k < n && oldEnc <= newEnc
    ensures k * oldEnc + oldEnc <= (n + shift) * newEnc
  {
    SlotsApart(k, n, oldEnc);
    Monotone(n, n + shift, oldEnc, newEnc);
  }

  lemma Monotone(i: nat, j: nat, d: nat, e: nat)
    requires i <= j && d <= e
    ensures i * d <= j * e
  {
  }

  /** Writing a slot of the new width leaves the old slots below it. */
  lemma OldSlotStays(s: seq<Byte>, n: nat, k: nat, oldEnc: nat, newEnc: nat, shift: nat, v: int)
    requires k < n && oldEnc <= newEnc && FitsIn(v, newEnc)
    requires (n + shift) * newEnc + newEnc <= |s| && k * oldEnc + oldEnc <= |s|
    ensures GetEncoded(SetEncoded(s, n + shift, newEnc, v), k, oldEnc) == GetEncoded(s, k, oldEnc)
  {
    OldBeforeNew(n, k, oldEnc, newEnc, shift);
    SliceAfterWrite(s, (n + shift) * newEnc, Encode(v, newEnc), k * oldEnc, k * oldEnc + oldEnc);
  }

  /** The values below n lie in old slots, and the others in new ones. */
  ghost predicate HalfWidened(s: seq<Byte>, vs: seq<int>, n: nat, oldEnc: nat, newEnc: nat, shift: nat) {
    && n <= |vs|
    && (forall k :: 0 <= k < n ==> SlotIs(s, k, oldEnc, vs[k]))
    && (forall k :: n <= k < |vs| ==> SlotIs(s, k + shift, newEnc, vs[k]))
  }

  lemma WidenOne(s: seq<Byte>, vs: seq<int>, n: nat, oldEnc: nat, newEnc: nat, shift: nat)
    requires n > 0 && oldEnc <= newEnc && HalfWidened(s, vs, n, oldEnc, newEnc, shift)
    requires FitsIn(vs[n - 1], newEnc) && (|vs| + shift) * newEnc <= |s|
    ensures (n - 1 + shift) * newEnc + newEnc <= |s|
    ensures HalfWidened(SetEncoded(s, n - 1 + shift, newEnc, vs[n - 1]), vs, n - 1, oldEnc, newEnc, shift)
  {
    hide GetEncoded, SetEncoded, FitsIn;
    SlotsApart(n - 1 + shift, |vs| + shift, newEnc);
    var r := SetEncoded(s, n - 1 + shift, newEnc, vs[n - 1]);
    forall k | 0 <= k < n - 1 ensures SlotIs(r, k, oldEnc, vs[k]) {
      assert SlotIs(s, k, oldEnc, vs[k]);
      OldSlotStays(s, n - 1, k, oldEnc, newEnc, shift, vs[n - 1]);
    }
    forall k | n - 1 <= k < |vs| ensures SlotIs(r, k + shift, newEnc, vs[k]) {
      if k >= n {
        assert SlotIs(s, k + shift, newEnc, vs[k]);
      }
      SlotsApart(k + shift, |vs| + shift, newEnc);
      GetAfterSet(s, n - 1 + shift, newEnc, vs[n - 1], k + shift);
    }
  }

  lemma NoneWidened(s: seq<Byte>, length: nat, oldEnc: nat, newEnc: nat, shift: nat)
    requires length * oldEnc <= |s|
    ensures HalfWidened(s, Values(s, oldEnc, length), length, oldEnc, newEnc, shift)
  {
    forall k | 0 <= k < length ensures SlotIs(s, k, oldEnc, Values(s, oldEnc, length)[k]) {
      ValuesAt(s, oldEnc, length, k);
    }
  }

  /** The next value to widen is still there, and fits. */
  lemma NextToWiden(s: seq<Byte>, vs: seq<int>, n: nat, oldEnc: nat, newEnc: nat, shift: nat)
    requires IsEncoding(oldEnc) && IsEncoding(newEnc) && oldEnc < newEnc
    requires n > 0 && HalfWidened(s, vs, n, oldEnc, newEnc, shift)
    ensures n <= |vs| && (n - 1) * oldEnc + oldEnc <= |s| && GetEncoded(s, n - 1, oldEnc) == vs[n - 1]
    ensures FitsIn(vs[n - 1], newEnc)
  {
    assert SlotIs(s, n - 1, oldEnc, vs[n - 1]);
    WidenedFits(s, n - 1, oldEnc, newEnc);
  }

  /** The loop of `intsetUpgradeAndAdd`: back to front, so that no value is written over before it is read. */
  method Widen(a: array<Byte>, oldEnc: nat, newEnc: nat, length: nat, prepend: nat)
    requires IsEncoding(oldEnc) && IsEncoding(newEnc) && oldEnc < newEnc
    requires (length + prepend) * newEnc <= a.Length && length * oldEnc <= a.Length
    modifies a
    ensures HalfWidened(a[..], Values(old(a[..]), oldEnc, length), 0, oldEnc, newEnc, prepend)
  {
    hide GetEncoded, SetEncoded, FitsIn, HalfWidened, Values;
    ghost var vs := Values(a[..], oldEnc, length);
    var n: nat := length;
    NoneWidened(a[..], length, oldEnc, newEnc, prepend);
    while n > 0
      invariant HalfWidened(a[..], vs, n, oldEnc, newEnc, prepend)
    {
      ghost var s := a[..];
      NextToWiden(s, vs, n, oldEnc, newEnc, prepend);
      WidenOne(s, vs, n, oldEnc, newEnc, prepend);
      n := n - 1;
      SetSlot(a, n + prepend, newEnc, GetEncoded(a[..], n, oldEnc));
    }
  }

  lemma WidenedFits(s: seq<Byte>, pos: nat, oldEnc: nat, newEnc: nat)
    requires IsEncoding(oldEnc) && IsEncoding(newEnc) && oldEnc <= newEnc && pos * oldEnc + oldEnc <= |s|
    ensures FitsIn(GetEncoded(s, pos, oldEnc), newEnc)
  {
    DecodeFits(s[pos * oldEnc..pos * oldEnc + oldEnc]);
    Powers();
  }

  // ---------------------------------------------------------------- moving a tail

  /** What `intsetMoveTail` makes of the bytes: n slots from `src` on are copied to `to`. */
  function TailMoved(s: seq<Byte>, enc: nat, src: nat, to: nat, n: nat): (r: seq<Byte>)
    requires src * enc + n * enc <= |s| && to * enc + n * enc <= |s|
    ensures |r| == |s|
  {
    Write(s, to * enc, s[src * enc..src * enc + n * enc])
  }

  lemma SliceOfSlice(s: seq<Byte>, at: nat, bytes: seq<Byte>, lo: nat, n: nat)
    requires at + |bytes| <= |s| && lo + n <= |bytes|
    ensures Write(s, at, bytes)[at + lo..at + lo + n] == bytes[lo..lo + n]
  {
  }

  lemma SliceInSlice(s: seq<Byte>, at: nat, n: nat, lo: nat, e: nat)
    requires at + n <= |s| && lo + e <= n
    ensures s[at..at + n][lo..lo + e] == s[at + lo..at + lo + e]
  {
    var a, b := s[at..at + n][lo..lo + e], s[at + lo..at + lo + e];
    assert forall i :: 0 <= i < e ==> a[i] == b[i];
  }

  lemma SlotMoved(s: seq<Byte>, enc: nat, src: nat, to: nat, n: nat, i: nat)
    requires src * enc + n * enc <= |s| && to * enc + n * enc <= |s| && i < n
    ensures (to + i) * enc + enc <= |s| && (src + i) * enc + enc <= |s|
    ensures GetEncoded(TailMoved(s, enc, src, to, n), to + i, enc) == GetEncoded(s, src + i, enc)
  {
    hide Decode, Write;
    SlotsApart(i, n, enc);
    Distribute(to, i, enc);
    Distribute(src, i, enc);
    var bytes := s[src * enc..src * enc + n * enc];
    SliceOfSlice(s, to * enc, bytes, i * enc, enc);
    SliceInSlice(s, src * enc, n * enc, i * enc, enc);
    assert TailMoved(s, enc, src, to, n)[(to + i) * enc..(to + i) * enc + enc] ==
        s[(src + i) * enc..(src + i) * enc + enc];
  }

  lemma SlotBefore(s: seq<Byte>, enc: nat, src: nat, to: nat, n: nat, k: nat)
    requires src * enc + n * enc <= |s| && to * enc + n * enc <= |s| && k < to
    ensures k * enc + enc <= |s| && GetEncoded(TailMoved(s, enc, src, to, n), k, enc) == GetEncoded(s, k, enc)
  {
    SlotsApart(k, to, enc);
    SliceAfterWrite(s, to * enc, s[src * enc..src * enc + n * enc], k * enc, k * enc + enc);
  }

  /** `intsetMoveTail` */
  method MoveTail(a: array<Byte>, enc: nat, length: nat, src: nat, to: nat)
    requires src <= length && length * enc <= a.Length && (to + (length - src)) * enc <= a.Length
    modifies a
    ensures src * enc + (length - src) * enc <= a.Length && to * enc + (length - src) * enc <= a.Length
    ensures a[..] == TailMoved(old(a[..]), enc, src, to, length - src)
  {
    Distribute(src, length - src, enc);
    Distribute(to, length - src, enc);
    var dst, from, size := to * enc, src * enc, (length - src) * enc;
    assert from + size <= a.Length && dst + size <= a.Length;
    TailMovedIs(a[..], enc, src, to, length - src, dst, from, size);
    hide *;
    MemMove(a, dst, from, size);
  }

  lemma TailMovedIs(s: seq<Byte>, enc: nat, src: nat, to: nat, n: nat, dst: nat, from: nat, size: nat)
    requires dst == to * enc && from == src * enc && size == n * enc
    requires from + size <= |s| && dst + size <= |s|
    ensures TailMoved(s, enc, src, to, n) == Write(s, dst, s[from..from + size])
  {
  }

  /** `zrealloc` */
  method Resize(a: array<Byte>, size: nat) returns (b: array<Byte>)
    ensures fresh(b) && b.Length == size
    ensures forall i :: 0 <= i < size && i < a.Length ==> b[i] == a[i]
  {
    b := new Byte[size](i reads a => if 0 <= i < a.Length then a[i] else 0);
  }

  // ---------------------------------------------------------------- whole updates

  lemma {:induction false} ValuesAre(s: seq<Byte>, enc: nat, n: nat, vs: seq<int>)
    requires n * enc <= |s| && |vs| == n && forall k :: 0 <= k < n ==> SlotIs(s, k, enc, vs[k])
    ensures Values(s, enc, n) == vs
  {
    forall k | 0 <= k < n ensures Values(s, enc, n)[k] == vs[k] {
      ValuesAt(s, enc, n, k);
      assert SlotIs(s, k, enc, vs[k]);
    }
  }

  /** The front of the bytes decides the values. */
  lemma {:induction false} ValuesOfFront(s: seq<Byte>, t: seq<Byte>, enc: nat, n: nat)
    requires n * enc <= |s| && n * enc <= |t| && s[..n * enc] == t[..n * enc]
    ensures Values(s, enc, n) == Values(t, enc, n)
  {
    if n > 0 {
      SlotsBelow(n, enc);
      assert s[..(n - 1) * enc] == s[..n * enc][..(n - 1) * enc];
      assert t[..(n - 1) * enc] == t[..n * enc][..(n - 1) * enc];
      ValuesOfFront(s, t, enc, n - 1);
      assert s[(n - 1) * enc..(n - 1) * enc + enc] == s[..n * enc][(n - 1) * enc..];
      assert t[(n - 1) * enc..(n - 1) * enc + enc] == t[..n * enc][(n - 1) * enc..];
    }
  }

  /** Moving the tail up and writing the gap inserts a value. */
  lemma Inserted(s: seq<Byte>, enc: nat, length: nat, pos: nat, v: int)
    requires (length + 1) * enc <= |s| && pos <= length && FitsIn(v, enc)
    ensures length * enc <= |s| && pos * enc + enc <= |s|
    ensures pos * enc + (length - pos) * enc <= |s| && (pos + 1) * enc + (length - pos) * enc <= |s|
    ensures var vs := Values(s, enc, length);
      Values(SetEncoded(TailMoved(s, enc, pos, pos + 1, length - pos), pos, enc, v), enc, length + 1)
        == vs[..pos] + [v] + vs[pos..]
  {
    Distribute(length, 1, enc);
    Distribute(pos, length - pos, enc);
    Distribute(pos + 1, length - pos, enc);
    SlotsApart(pos, length + 1, enc);
    var vs := Values(s, enc, length);
    var m := TailMoved(s, enc, pos, pos + 1, length - pos);
    var r, ws := SetEncoded(m, pos, enc, v), vs[..pos] + [v] + vs[pos..];
    forall k | 0 <= k < length + 1 ensures SlotIs(r, k, enc, ws[k]) {
      InsertedAt(s, enc, length, pos, v, k);
    }
    ValuesAre(r, enc, length + 1, ws);
  }

  lemma InsertedAt(s: seq<Byte>, enc: nat, length: nat, pos: nat, v: int, k: nat)
    requires (length + 1) * enc <= |s| && pos <= length && FitsIn(v, enc) && k <= length
    requires length * enc <= |s| && pos * enc + enc <= |s|
    requires pos * enc + (length - pos) * enc <= |s| && (pos + 1) * enc + (length - pos) * enc <= |s|
    ensures var vs := Values(s, enc, length);
      SlotIs(SetEncoded(TailMoved(s, enc, pos, pos + 1, length - pos), pos, enc, v), k, enc,
             (vs[..pos] + [v] + vs[pos..])[k])
  {
    hide GetEncoded, SetEncoded, TailMoved, FitsIn, Values;
    var m := TailMoved(s, enc, pos, pos + 1, length - pos);
    SlotsApart(k, length + 1, enc);
    GetAfterSet(m, pos, enc, v, k);
    if k < pos {
      SlotBefore(s, enc, pos, pos + 1, length - pos, k);
      ValuesAt(s, enc, length, k);
    } else if k > pos {
      SlotMoved(s, enc, pos, pos + 1, length - pos, k - 1 - pos);
      ValuesAt(s, enc, length, k - 1);
    }
  }

  /** Moving the tail down removes a value. */
  lemma Removed(s: seq<Byte>, enc: nat, length: nat, pos: nat)
    requires length * enc <= |s| && pos < length
    ensures (pos + 1) * enc + (length - pos - 1) * enc <= |s| && pos * enc + (length - pos - 1) * enc <= |s|
    ensures (length - 1) * enc <= |s|
    ensures var vs := Values(s, enc, length);
      Values(TailMoved(s, enc, pos + 1, pos, length - pos - 1), enc, length - 1) == vs[..pos] + vs[pos + 1..]
  {
    Distribute(pos + 1, length - pos - 1, enc);
    Distribute(pos, length - pos - 1, enc);
    SlotsBelow(length, enc);
    var vs := Values(s, enc, length);
    var r, ws := TailMoved(s, enc, pos + 1, pos, length - pos - 1), vs[..pos] + vs[pos + 1..];
    forall k | 0 <= k < length - 1 ensures SlotIs(r, k, enc, ws[k]) {
      RemovedAt(s, enc, length, pos, k);
    }
    ValuesAre(r, enc, length - 1, ws);
  }

  lemma RemovedAt(s: seq<Byte>, enc: nat, length: nat, pos: nat, k: nat)
    requires length * enc <= |s| && pos < length && k < length - 1
    requires (pos + 1) * enc + (length - pos - 1) * enc <= |s| && pos * enc + (length - pos - 1) * enc <= |s|
    ensures var vs := Values(s, enc, length);
      SlotIs(TailMoved(s, enc, pos + 1, pos, length - pos - 1), k, enc, (vs[..pos] + vs[pos + 1..])[k])
  {
    hide GetEncoded, TailMoved, Values;
    SlotsApart(k, length - 1, enc);
    if k < pos {
      SlotBefore(s, enc, pos + 1, pos, length - pos - 1, k);
      ValuesAt(s, enc, length, k);
    } else {
      SlotMoved(s, enc, pos + 1, pos, length - pos - 1, k - pos);
      ValuesAt(s, enc, length, k + 1);
    }
  }

  lemma UpgradedAt(s: seq<Byte>, vs: seq<int>, oldEnc: nat, newEnc: nat, v: int, k: nat)
    requires FitsIn(v, newEnc) && (|vs| + 1) * newEnc <= |s| && k <= |vs|
    requires HalfWidened(s, vs, 0, oldEnc, newEnc, if v < 0 then 1 else 0)
    ensures (if v < 0 then 0 else |vs|) * newEnc + newEnc <= |s|
    ensures SlotIs(SetEncoded(s, if v < 0 then 0 else |vs|, newEnc, v), k, newEnc,
                   (if v < 0 then [v] + vs else vs + [v])[k])
  {
    hide GetEncoded, SetEncoded, FitsIn;
    var at := if v < 0 then 0 else |vs|;
    SlotsApart(at, |vs| + 1, newEnc);
    SlotsApart(k, |vs| + 1, newEnc);
    GetAfterSet(s, at, newEnc, v, k);
    if k != at {
      var i := if v < 0 then k - 1 else k;
      assert SlotIs(s, i + (if v < 0 then 1 else 0), newEnc, vs[i]);
    }
  }

  /** Widened values with the new one at the end the sign says. */
  lemma UpgradedValues(s: seq<Byte>, vs: seq<int>, oldEnc: nat, newEnc: nat, v: int)
    requires FitsIn(v, newEnc) && (|vs| + 1) * newEnc <= |s|
    requires HalfWidened(s, vs, 0, oldEnc, newEnc, if v < 0 then 1 else 0)
    ensures (if v < 0 then 0 else |vs|) * newEnc + newEnc <= |s|
    ensures Values(SetEncoded(s, if v < 0 then 0 else |vs|, newEnc, v), newEnc, |vs| + 1) ==
      if v < 0 then [v] + vs else vs + [v]
  {
    hide GetEncoded, SetEncoded, FitsIn, HalfWidened, SlotIs, Values;
    var at := if v < 0 then 0 else |vs|;
    SlotsApart(at, |vs| + 1, newEnc);
    var ws := if v < 0 then [v] + vs else vs + [v];
    forall k: nat | k <= |vs| ensures SlotIs(SetEncoded(s, at, newEnc, v), k, newEnc, ws[k]) {
      UpgradedAt(s, vs, oldEnc, newEnc, v, k);
    }
    ValuesAre(SetEncoded(s, at, newEnc, v), newEnc, |vs| + 1, ws);
  }

  /** A value that needs more width lies outside all that are there. */
  lemma OutsideAll(s: seq<Byte>, enc: nat, length: nat, v: int, k: nat)
    requires IsEncoding(enc) && length * enc <= |s| && k < length
    requires FitsIn(v, INTSET_ENC_INT64) && ValueEncoding(v) > enc
    ensures if v < 0 then v < Values(s, enc, length)[k] else v > Values(s, enc, length)[k]
  {
    ValueEncodingIsLeast(v, enc);
    ValuesAt(s, enc, length, k);
    DecodeFits(s[k * enc..k * enc + enc]);
  }

  /** A value that needs more width than the set has is not in it. */
  lemma NotHeld(s: seq<Byte>, enc: nat, length: nat, v: int)
    requires IsEncoding(enc) && length * enc <= |s| && FitsIn(v, INTSET_ENC_INT64)
    ensures ValueEncoding(v) > enc ==> v !in Values(s, enc, length)
  {
    if ValueEncoding(v) > enc && v in Values(s, enc, length) {
      var k :| 0 <= k < length && Values(s, enc, length)[k] == v;
      OutsideAll(s, enc, length, v, k);
    }
  }

  lemma UpgradeSorted(s: seq<Byte>, enc: nat, length: nat, v: int)
    requires IsEncoding(enc) && length * enc <= |s| && Sorted(Values(s, enc, length))
    requires FitsIn(v, INTSET_ENC_INT64) && ValueEncoding(v) > enc
    ensures var vs := Values(s, enc, length);
      var ws := if v < 0 then [v] + vs else vs + [v];
      v !in SetOf(vs) && Sorted(ws) && SetOf(ws) == SetOf(vs) + {v}
  {
    var vs := Values(s, enc, length);
    forall k | 0 <= k < length ensures if v < 0 then v < vs[k] else v > vs[k] {
      OutsideAll(s, enc, length, v, k);
    }
    AllOnOneSide(vs, v);
  }

  lemma AllOnOneSide(vs: seq<int>, v: int)
    requires Sorted(vs) && forall k :: 0 <= k < |vs| ==> if v < 0 then v < vs[k] else v > vs[k]
    ensures v !in SetOf(vs)
    ensures var ws := if v < 0 then [v] + vs else vs + [v]; Sorted(ws) && SetOf(ws) == SetOf(vs) + {v}
  {
    InsertSorted(vs, if v < 0 then 0 else |vs|, v);
    assert v < 0 ==> vs[..0] + [v] + vs[0..] == [v] + vs;
    assert v >= 0 ==> vs[..|vs|] + [v] + vs[|vs|..] == vs + [v];
  }

  lemma AlreadyIn(vs: seq<int>, pos: nat, v: int)
    requires pos < |vs| && vs[pos] == v
    ensures v in SetOf(vs) && SetOf(vs) == SetOf(vs) + {v}
  {
  }

  // ---------------------------------------------------------------- the array of an update

  method Grow(a: array<Byte>, enc: nat, n: nat, size: nat) returns (b: array<Byte>)
    requires n * enc <= a.Length && n * enc <= size
    ensures fresh(b) && b.Length == size && Values(b[..], enc, n) == Values(a[..], enc, n)
  {
    b := Resize(a, size);
    assert b[..n * enc] == a[..n * enc];
    hide Values;
    ValuesOfFront(b[..], a[..], enc, n);
  }

  /** The bytes of `intsetUpgradeAndAdd`. */
  method Upgraded(a: array<Byte>, oldEnc: nat, length: nat, value: int) returns (b: array<Byte>)
    requires IsEncoding(oldEnc) && length * oldEnc <= a.Length
    requires FitsIn(value, INTSET_ENC_INT64) && ValueEncoding(value) > oldEnc
    ensures fresh(b) && b.Length == (length + 1) * ValueEncoding(value)
    ensures var vs := Values(a[..], oldEnc, length);
      Values(b[..], ValueEncoding(value), length + 1) == if value < 0 then [value] + vs else vs + [value]
  {
    var newEnc, prepend := ValueEncoding(value), if value < 0 then 1 else 0;
    ValueEncodingIsLeast(value, newEnc);
    hide Values, GetEncoded, SetEncoded, FitsIn, HalfWidened, ValueEncoding;
    Monotone(length, length + 1, oldEnc, newEnc);
    Monotone(length + prepend, length + 1, newEnc, newEnc);
    b := Grow(a, oldEnc, length, (length + 1) * newEnc);
    Widen(b, oldEnc, newEnc, length, prepend);
    UpgradedValues(b[..], Values(a[..], oldEnc, length), oldEnc, newEnc, value);
    SetSlot(b, if prepend == 1 then 0 else length, newEnc, value);
  }

  /** The bytes of the second half of `intsetAdd`. */
  method InsertedAtPos(a: array<Byte>, enc: nat, length: nat, pos: nat, value: int) returns (b: array<Byte>)
    requires length * enc <= a.Length && pos <= length && FitsIn(value, enc)
    ensures fresh(b) && b.Length == (length + 1) * enc
    ensures var vs := Values(a[..], enc, length); Values(b[..], enc, length + 1) == vs[..pos] + [value] + vs[pos..]
  {
    hide *;
    Distribute(length, 1, enc);
    SlotsApart(pos, length + 1, enc);
    b := Grow(a, enc, length, (length + 1) * enc);
    Inserted(b[..], enc, length, pos, value);
    if pos < length {
      MoveTail(b, enc, length, pos, pos + 1);
    } else {
      NothingMoved(b[..], enc, pos, pos + 1);
    }
    SetSlot(b, pos, enc, value);
  }

  lemma NothingMoved(s: seq<Byte>, enc: nat, src: nat, to: nat)
    requires src * enc <= |s| && to * enc <= |s|
    ensures TailMoved(s, enc, src, to, 0) == s
  {
  }

  /** The bytes of `intsetRemove`. */
  method RemovedAtPos(a: array<Byte>, enc: nat, length: nat, pos: nat) returns (b: array<Byte>)
    requires length * enc <= a.Length && pos < length
    modifies a
    ensures fresh(b) && b.Length == (length - 1) * enc
    ensures var vs := Values(old(a[..]), enc, length); Values(b[..], enc, length - 1) == vs[..pos] + vs[pos + 1..]
  {
    hide Values, GetEncoded;
    Removed(a[..], enc, length, pos);
    if pos < length - 1 {
      MoveTail(a, enc, length, pos + 1, pos);
    } else {
      NothingMoved(a[..], enc, pos + 1, pos);
    }
    b := Grow(a, enc, length - 1, (length - 1) * enc);
  }

  // ---------------------------------------------------------------- the set

  class IntSet {
    var encoding: nat
    var length: nat
    var contents: array<Byte>

    ghost function View(): (vs: seq<int>)
      requires length * encoding <= contents.Length
      reads this, contents
      ensures |vs| == length
    {
      Values(contents[..], encoding, length)
    }

    ghost predicate Valid()
      reads this, contents
    {
      IsEncoding(encoding) && contents.Length == length * encoding && Sorted(View())
    }

    /** `intsetNew` */
    constructor ()
      ensures Valid() && View() == [] && fresh(contents) && encoding == INTSET_ENC_INT16
    {
      encoding, length, contents := INTSET_ENC_INT16, 0, new Byte[0];
    }

    /** `intsetAdd`: 1 when the value is new. */
    method Add(value: int) returns (success: bool)
      requires Valid() && FitsIn(value, INTSET_ENC_INT64)
      modifies this
      ensures Valid() && SetOf(View()) == SetOf(old(View())) + {value}
      ensures success <==> value !in SetOf(old(View()))
      ensures encoding == if ValueEncoding(value) > old(encoding) then ValueEncoding(value) else old(encoding)
      ensures fresh(contents) || contents == old(contents)
    {
      hide Values, FitsIn, ValueEncoding, SetOf, Sorted;
      ghost var bytes := contents[..];
      ghost var vs := Values(bytes, encoding, length);
      var valenc := ValueEncoding(value);
      if valenc > encoding {
        UpgradeSorted(contents[..], encoding, length, value);
        contents := Upgraded(contents, encoding, length, value);
        encoding, length := valenc, length + 1;
        return true;
      }
      ValueEncodingIsLeast(value, encoding);
      var found, pos := Search(contents, encoding, length, value);
      assert contents[..] == bytes;
      if found {
        AlreadyIn(vs, pos, value);
        return false;
      }
      InsertSorted(vs, pos, value);
      contents := InsertedAtPos(contents, encoding, length, pos, value);
      length, success := length + 1, true;
    }

    /** `intsetRemove`: 1 when the value was there. */
    method Remove(value: int) returns (success: bool)
      requires Valid() && FitsIn(value, INTSET_ENC_INT64)
      modifies this, contents
      ensures Valid() && SetOf(View()) == SetOf(old(View())) - {value}
      ensures success <==> value in SetOf(old(View()))
      ensures encoding == old(encoding) && (fresh(contents) || contents == old(contents))
    {
      hide Values, FitsIn, ValueEncoding, SetOf, Sorted;
      var found, pos := Locate(value);
      success := found;
      if found {
        RemoveSorted(View(), pos);
        contents := RemovedAtPos(contents, encoding, length, pos);
        length := length - 1;
      }
    }

    /** The test of the width and the search that `intsetRemove` and `intsetFind` begin with. */
    method Locate(value: int) returns (found: bool, pos: nat)
      requires Valid() && FitsIn(value, INTSET_ENC_INT64)
      ensures found <==> value in SetOf(View())
      ensures found ==> pos < length && View()[pos] == value
    {
      NotHeld(contents[..], encoding, length, value);
      found, pos := false, 0;
      if ValueEncoding(value) <= encoding {
        hide Values, FitsIn, ValueEncoding;
        found, pos := Search(contents, encoding, length, value);
      }
    }

    /** `intsetFind` */
    method Find(value: int) returns (found: bool)
      requires Valid() && FitsIn(value, INTSET_ENC_INT64)
      ensures found <==> value in SetOf(View())
    {
      var pos;
      found, pos := Locate(value);
    }

    /** `intsetGet` */
    method Get(pos: nat) returns (ok: bool, value: int)
      requires Valid()
      ensures ok <==> pos < length
      ensures ok ==> value == View()[pos]
    {
      ok, value := pos < length, 0;
      if ok {
        ValuesAt(contents[..], encoding, length, pos);
        value := GetEncoded(contents[..], pos, encoding);
      }
    }
  }
}
