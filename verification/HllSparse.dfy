/** The sparse HyperLogLog encoding: a run-length code of the registers, edited in place.

    00xxxxxx           ZERO   x + 1 zero registers
    01xxxxxx yyyyyyyy  XZERO  xy + 1 zero registers
    1vvvvvxx           VAL    x + 1 registers of value v + 1 */
module HllSparse {
  import opened Basics
  import opened Bytes

  const HLL_REGISTERS: nat := 16384
  const HLL_HDR_SIZE: nat := 16
  const VAL_MAX_VALUE: nat := 32
  const VAL_MAX_LEN: nat := 4
  const ZERO_MAX_LEN: nat := 64

  // ---------------------------------------------------------------- opcodes

  predicate IsZero(b: Byte) { b / 64 == 0 }

  predicate IsXzero(b: Byte) { b / 64 == 1 }

  predicate IsVal(b: Byte) { b / 128 == 1 }

  function ZeroLen(b: Byte): nat { b % 64 + 1 }

  function XzeroLen(b: Byte, c: Byte): nat { b % 64 * 256 + c + 1 }

  function ValValue(b: Byte): nat { b / 4 % 32 + 1 }

  function ValLen(b: Byte): nat { b % 4 + 1 }

  function ValSet(val: nat, len: nat): Byte
    requires 1 <= val <= VAL_MAX_VALUE && 1 <= len <= VAL_MAX_LEN
  {
    128 + (val - 1) * 4 + (len - 1)
  }

  function ZeroSet(len: nat): Byte
    requires 1 <= len <= ZERO_MAX_LEN
  {
    len - 1
  }

  function XzeroSet(len: nat): seq<Byte>
    requires 1 <= len <= HLL_REGISTERS
  {
    [64 + (len - 1) / 256, (len - 1) % 256]
  }

  // ---------------------------------------------------------------- meaning

  function Run(v: nat, n: nat): (r: seq<nat>)
    ensures |r| == n
  {
    seq(n, _ => v)
  }

  /** The length in bytes of the opcode at `p`, its run length and its value. */
  function OpLen(s: seq<Byte>, p: nat): nat
    requires p < |s|
  {
    if IsXzero(s[p]) then 2 else 1
  }

  function OpSpan(s: seq<Byte>, p: nat): (n: nat)
    requires p < |s| && p + OpLen(s, p) <= |s|
    ensures n > 0
  {
    if IsZero(s[p]) then ZeroLen(s[p]) else if IsVal(s[p]) then ValLen(s[p]) else XzeroLen(s[p], s[p + 1])
  }

  function OpValue(s: seq<Byte>, p: nat): (v: nat)
    requires p < |s|
    ensures v <= VAL_MAX_VALUE
  {
    if IsVal(s[p]) then ValValue(s[p]) else 0
  }

  /** Whether the bytes are whole opcodes. */
  predicate WellFormed(s: seq<Byte>) {
    s == [] || (OpLen(s, 0) <= |s| && WellFormed(s[OpLen(s, 0)..]))
  }

  /** The registers the opcodes stand for. */
  function Decode(s: seq<Byte>): seq<nat>
    requires WellFormed(s)
  {
    if s == [] then [] else Run(OpValue(s, 0), OpSpan(s, 0)) + Decode(s[OpLen(s, 0)..])
  }

  ghost predicate Valid(s: seq<Byte>) {
    WellFormed(s) && |Decode(s)| == HLL_REGISTERS
  }

  lemma {:induction false} Concat(a: seq<Byte>, b: seq<Byte>)
    requires WellFormed(a)
    ensures WellFormed(a + b) <==> WellFormed(b)
    ensures WellFormed(b) ==> Decode(a + b) == Decode(a) + Decode(b)
  {
    if a == [] {
      assert a + b == b;
    } else {
      var n := OpLen(a, 0);
      SameHead(a, a + b);
      assert (a + b)[n..] == a[n..] + b;
      Concat(a[n..], b);
      if WellFormed(b) {
        Associate(Run(OpValue(a, 0), OpSpan(a, 0)), Decode(a[n..]), Decode(b));
      }
    }
  }

  /** The first opcode depends on its own bytes only. */
  lemma SameHead(a: seq<Byte>, s: seq<Byte>)
    requires a != [] && OpLen(a, 0) <= |a| <= |s| && a == s[..|a|]
    ensures OpLen(s, 0) == OpLen(a, 0) && OpSpan(s, 0) == OpSpan(a, 0) && OpValue(s, 0) == OpValue(a, 0)
  {
  }

  lemma {:induction false} DecodeBound(s: seq<Byte>, i: nat)
    requires WellFormed(s) && i < |Decode(s)|
    ensures Decode(s)[i] <= VAL_MAX_VALUE
  {
    if i >= OpSpan(s, 0) {
      DecodeBound(s[OpLen(s, 0)..], i - OpSpan(s, 0));
    }
  }

  /** A boundary between opcodes. */
  ghost predicate Boundary(s: seq<Byte>, p: nat) {
    p <= |s| && WellFormed(s[..p]) && WellFormed(s[p..])
  }

  lemma Parts(s: seq<Byte>, p: nat)
    requires Boundary(s, p)
    ensures WellFormed(s) && Decode(s) == Decode(s[..p]) + Decode(s[p..])
  {
    assert s == s[..p] + s[p..];
    Concat(s[..p], s[p..]);
  }

  lemma OpcodeOfSuffix(s: seq<Byte>, p: nat)
    requires p < |s|
    ensures OpLen(s[p..], 0) == OpLen(s, p) && OpValue(s[p..], 0) == OpValue(s, p)
    ensures p + OpLen(s, p) <= |s| ==> OpSpan(s[p..], 0) == OpSpan(s, p)
  {
  }

  /** At a boundary the string splits into what is before, one opcode, and the rest. */
  lemma SplitAt(s: seq<Byte>, p: nat)
    requires Boundary(s, p) && p < |s|
    ensures p + OpLen(s, p) <= |s| && Boundary(s, p + OpLen(s, p))
    ensures Decode(s[p..]) == Run(OpValue(s, p), OpSpan(s, p)) + Decode(s[p + OpLen(s, p)..])
    ensures Decode(s[..p + OpLen(s, p)]) == Decode(s[..p]) + Run(OpValue(s, p), OpSpan(s, p))
  {
    var n := OpLen(s, p);
    OpcodeOfSuffix(s, p);
    var op := s[p..p + n];
    assert s[p..][n..] == s[p + n..];
    SameHead(op, s[p..]);
    OneOpcode(op);
    assert s[..p + n] == s[..p] + op;
    Concat(s[..p], op);
  }

  /** One step of a walk over the opcodes of a valid string. */
  lemma StepAt(s: seq<Byte>, p: nat)
    requires Valid(s) && Boundary(s, p) && p < |s|
    ensures p + OpLen(s, p) <= |s| && Boundary(s, p + OpLen(s, p))
    ensures Decode(s[..p + OpLen(s, p)]) == Decode(s[..p]) + Run(OpValue(s, p), OpSpan(s, p))
    ensures |Decode(s[..p])| + OpSpan(s, p) <= HLL_REGISTERS
  {
    SplitAt(s, p);
    Parts(s, p);
  }

  lemma WalkStarts(s: seq<Byte>)
    requires WellFormed(s)
    ensures Boundary(s, 0) && Decode(s[..0]) == [] && s[..|s|] == s
  {
    assert s[0..] == s && s[..0] == [];
  }

  lemma OneOpcode(op: seq<Byte>)
    requires |op| >= 1 && |op| == OpLen(op, 0)
    ensures WellFormed(op) && Decode(op) == Run(OpValue(op, 0), OpSpan(op, 0))
  {
    assert op[OpLen(op, 0)..] == [];
    assert Decode([]) == [];
    assert Run(OpValue(op, 0), OpSpan(op, 0)) + [] == Run(OpValue(op, 0), OpSpan(op, 0));
  }

  /** The formats of the opcodes, and what each means. */
  lemma Formats(b: Byte, c: Byte)
    ensures b < 64 ==> WellFormed([b]) && Decode([b]) == Run(0, b + 1)
    ensures 64 <= b < 128 ==> WellFormed([b, c]) && Decode([b, c]) == Run(0, 256 * (b - 64) + c + 1)
    ensures 128 <= b ==> WellFormed([b]) && Decode([b]) == Run((b - 128) / 4 + 1, b % 4 + 1)
  {
    if 64 <= b < 128 {
      OneOpcode([b, c]);
    } else {
      OneOpcode([b]);
    }
  }

  /** Putting other whole opcodes with the same total run in place of some changes that run only. */
  lemma Replaced(a: seq<Byte>, op: seq<Byte>, op': seq<Byte>, c: seq<Byte>)
    requires WellFormed(a) && WellFormed(op) && WellFormed(op') && WellFormed(c)
    ensures WellFormed(a + op + c) && WellFormed(a + op' + c)
    ensures Decode(a + op + c) == Decode(a) + Decode(op) + Decode(c)
    ensures Decode(a + op' + c) == Decode(a) + Decode(op') + Decode(c)
  {
    Concat(a, op);
    Concat(a + op, c);
    Concat(a, op');
    Concat(a + op', c);
  }

  lemma ValFields(val: nat, len: nat)
    requires 1 <= val <= VAL_MAX_VALUE && 1 <= len <= VAL_MAX_LEN
    ensures var b := ValSet(val, len); IsVal(b) && !IsZero(b) && !IsXzero(b) && ValValue(b) == val && ValLen(b) == len
  {
    var b := ValSet(val, len);
    assert b / 4 == 31 + val;
  }

  /** What a VAL opcode means. */
  lemma OneValOpcode(b: Byte)
    requires IsVal(b) && !IsZero(b) && !IsXzero(b)
    ensures WellFormed([b]) && Decode([b]) == Run(ValValue(b), ValLen(b))
  {
    hide IsVal, IsZero, IsXzero, ValValue, ValLen;
    OneOpcode([b]);
  }

  lemma ValDecodes(val: nat, len: nat)
    requires 1 <= val <= VAL_MAX_VALUE && 1 <= len <= VAL_MAX_LEN
    ensures var op := [ValSet(val, len)];
            IsVal(op[0]) && ValValue(op[0]) == val && ValLen(op[0]) == len &&
            WellFormed(op) && Decode(op) == Run(val, len)
  {
    hide *;
    ValFields(val, len);
    OneValOpcode(ValSet(val, len));
  }

  /** The opcodes the split code writes for a run of equal registers, none for an empty run. */
  function RunCode(v: nat, len: nat): (n: seq<Byte>)
    requires len <= HLL_REGISTERS && v <= VAL_MAX_VALUE && (v > 0 ==> len <= VAL_MAX_LEN)
    ensures |n| <= if len <= ZERO_MAX_LEN then 1 else 2
  {
    if len == 0 then []
    else if v > 0 then [ValSet(v, len)]
    else if len > ZERO_MAX_LEN then XzeroSet(len)
    else [ZeroSet(len)]
  }

  lemma RunCodeDecodes(v: nat, len: nat)
    requires len <= HLL_REGISTERS && v <= VAL_MAX_VALUE && (v > 0 ==> len <= VAL_MAX_LEN)
    ensures WellFormed(RunCode(v, len)) && Decode(RunCode(v, len)) == Run(v, len)
  {
    if len > 0 {
      if v > 0 {
        ValDecodes(v, len);
      } else {
        OneOpcode(RunCode(v, len));
      }
    }
  }

  /** The opcodes written in place of a run of `m + 1 + k` registers of value `v` when the one at `m` becomes
      `count`. */
  function SplitRun(v: nat, m: nat, k: nat, count: nat): (n: seq<Byte>)
    requires m + k < HLL_REGISTERS && 1 <= count <= VAL_MAX_VALUE
    requires v <= VAL_MAX_VALUE && (v > 0 ==> m + k < VAL_MAX_LEN)
    ensures |n| <= if m + k < ZERO_MAX_LEN then 3 else 5
  {
    RunCode(v, m) + [ValSet(count, 1)] + RunCode(v, k)
  }

  lemma SplitRunDecodes(v: nat, m: nat, k: nat, count: nat)
    requires m + k < HLL_REGISTERS && 1 <= count <= VAL_MAX_VALUE
    requires v <= VAL_MAX_VALUE && (v > 0 ==> m + k < VAL_MAX_LEN)
    ensures WellFormed(SplitRun(v, m, k, count))
    ensures Decode(SplitRun(v, m, k, count)) == Run(v, m + 1 + k)[m := count]
  {
    RunCodeDecodes(v, m);
    RunCodeDecodes(v, k);
    ValDecodes(count, 1);
    Replaced(RunCode(v, m), [ValSet(count, 1)], [ValSet(count, 1)], RunCode(v, k));
    RaisedRun(v, m, k, count);
    hide *;
    SplitRunIs(v, m, k, count);
  }

  lemma SplitRunIs(v: nat, m: nat, k: nat, count: nat)
    requires m + k < HLL_REGISTERS && 1 <= count <= VAL_MAX_VALUE
    requires v <= VAL_MAX_VALUE && (v > 0 ==> m + k < VAL_MAX_LEN)
    ensures SplitRun(v, m, k, count) == RunCode(v, m) + [ValSet(count, 1)] + RunCode(v, k)
  {
  }

  lemma RaisedRun(v: nat, m: nat, k: nat, count: nat)
    ensures Run(v, m) + Run(count, 1) + Run(v, k) == Run(v, m + 1 + k)[m := count]
  {
  }

  lemma UpdateMiddle<T>(a: seq<T>, r: seq<T>, t: seq<T>, i: nat, x: T)
    requires i < |r|
    ensures (a + (r + t))[|a| + i] == r[i]
    ensures (a + (r + t))[|a| + i := x] == a + r[i := x] + t
  {
  }

  lemma BoundaryAt(s: seq<Byte>, p: nat)
    requires WellFormed(s) && p <= |s| && WellFormed(s[..p])
    ensures Boundary(s, p)
  {
    assert s == s[..p] + s[p..];
    Concat(s[..p], s[p..]);
  }

  // ---------------------------------------------------------------- hllSparseAdd

  /** While register `index` is still ahead there is another opcode. */
  lemma LocateStep(s: seq<Byte>, p: nat, index: nat)
    requires Valid(s) && Boundary(s, p) && |Decode(s[..p])| <= index < HLL_REGISTERS
    ensures p < |s| && p + OpLen(s, p) <= |s| && Boundary(s, p + OpLen(s, p))
    ensures |Decode(s[..p + OpLen(s, p)])| == |Decode(s[..p])| + OpSpan(s, p)
  {
    Parts(s, p);
    assert s[..|s|] == s;
    SplitAt(s, p);
  }

  /** Step 1: the opcode that covers register `index`. `prev` is the opcode before it, -1 for none. */
  method Locate(s: seq<Byte>, index: nat) returns (p: nat, prev: int, first: nat, span: nat)
    requires Valid(s) && index < HLL_REGISTERS
    ensures Boundary(s, p) && p < |s| && p + OpLen(s, p) <= |s| && span == OpSpan(s, p)
    ensures first == |Decode(s[..p])| && first <= index < first + span
    ensures prev == -1 || (0 <= prev < p && Boundary(s, prev))
  {
    p, prev, first, span := 0, -1, 0, 0;
    assert s[0..] == s && s[..0] == [] && Decode([]) == [];
    while true
      invariant Boundary(s, p) && first == |Decode(s[..p])| && first <= index
      invariant prev == -1 || (0 <= prev < p && Boundary(s, prev))
      decreases |s| - p
    {
      LocateStep(s, p, index);
      var oplen: nat := 1;
      if IsZero(s[p]) {
        span := ZeroLen(s[p]);
      } else if IsVal(s[p]) {
        span := ValLen(s[p]);
      } else {
        span := XzeroLen(s[p], s[p + 1]);
        oplen := 2;
      }
      if index < first + span {
        break;
      }
      prev := p;
      p := p + oplen;
      first := first + span;
    }
  }

  /** Step 3: the new opcodes take the place of the old one. */
  lemma Spliced(s: seq<Byte>, p: nat, n: seq<Byte>, index: nat, count: nat)
    requires Valid(s) && Boundary(s, p) && p < |s| && p + OpLen(s, p) <= |s|
    requires var first := |Decode(s[..p])|;
             first <= index < first + OpSpan(s, p) && WellFormed(n) &&
             Decode(n) == Run(OpValue(s, p), OpSpan(s, p))[index - first := count]
    ensures index < HLL_REGISTERS && Decode(s)[index] == OpValue(s, p)
    ensures var s' := s[..p] + n + s[p + OpLen(s, p)..];
            Valid(s') && Decode(s') == Decode(s)[index := count]
  {
    hide *;
    Parts(s, p);
    SplitAt(s, p);
    Boundaries(s, p);
    var before, r, t := s[..p], Run(OpValue(s, p), OpSpan(s, p)), s[p + OpLen(s, p)..];
    ghost var i := index - |Decode(before)|;
    ValueOfRun(OpValue(s, p), OpSpan(s, p), i);
    Rejoined(before, n, t);
    SplicedValues(Decode(s), Decode(before + n + t), Decode(before), r, Decode(t), i, count);
    ValidParts(s, before + n + t);
  }

  lemma Boundaries(s: seq<Byte>, p: nat)
    requires Boundary(s, p) && p < |s| && p + OpLen(s, p) <= |s|
    ensures WellFormed(s[..p]) && WellFormed(s[p + OpLen(s, p)..])
  {
    SplitAt(s, p);
  }

  /** Equal lengths and equal values but one. */
  lemma SplicedValues(d: seq<nat>, d': seq<nat>, a: seq<nat>, r: seq<nat>, t: seq<nat>, i: nat, x: nat)
    requires d == a + (r + t) && i < |r| && d' == a + r[i := x] + t
    ensures |d'| == |d| && |a| + i < |d| && d[|a| + i] == r[i] && d' == d[|a| + i := x]
  {
    UpdateMiddle(a, r, t, i, x);
  }

  lemma ValueOfRun(v: nat, n: nat, i: nat)
    requires i < n
    ensures |Run(v, n)| == n && Run(v, n)[i] == v
  {
  }

  lemma Rejoined(a: seq<Byte>, n: seq<Byte>, t: seq<Byte>)
    requires WellFormed(a) && WellFormed(n) && WellFormed(t)
    ensures WellFormed(a + n + t) && Decode(a + n + t) == Decode(a) + Decode(n) + Decode(t)
  {
    Concat(a, n);
    Concat(a + n, t);
  }

  lemma ValidParts(s: seq<Byte>, s': seq<Byte>)
    requires Valid(s) && WellFormed(s') && |Decode(s')| == |Decode(s)|
    ensures Valid(s') && |Decode(s)| == HLL_REGISTERS
  {
  }

  lemma ValueAt(s: seq<Byte>, p: nat, index: nat)
    requires Valid(s) && Boundary(s, p) && p < |s| && p + OpLen(s, p) <= |s|
    requires |Decode(s[..p])| <= index < |Decode(s[..p])| + OpSpan(s, p)
    ensures index < HLL_REGISTERS && Decode(s)[index] == OpValue(s, p)
  {
    Parts(s, p);
    SplitAt(s, p);
  }

  lemma SpanBound(s: seq<Byte>, p: nat)
    requires p < |s| && p + OpLen(s, p) <= |s|
    ensures OpSpan(s, p) <= HLL_REGISTERS && (OpValue(s, p) > 0 ==> OpSpan(s, p) <= VAL_MAX_LEN)
    ensures OpLen(s, p) == 1 ==> OpSpan(s, p) <= ZERO_MAX_LEN
    ensures 1 <= OpLen(s, p) <= 2
  {
  }

  /** Two neighbouring VAL opcodes of one value that fit in a single one. */
  predicate Mergeable(s: seq<Byte>, p: nat) {
    p + 1 < |s| && IsVal(s[p]) && IsVal(s[p + 1]) && ValValue(s[p]) == ValValue(s[p + 1]) &&
    ValLen(s[p]) + ValLen(s[p + 1]) <= VAL_MAX_LEN
  }

  ghost predicate NoneMergeable(s: seq<Byte>, start: nat, end: nat) {
    forall i: nat :: start <= i < end && Boundary(s, i) ==> !Mergeable(s, i)
  }

  /** There is no opcode boundary inside an XZERO. */
  lemma InsideXzero(s: seq<Byte>, p: nat)
    requires Boundary(s, p) && p + 1 < |s| && IsXzero(s[p])
    ensures !Boundary(s, p + 1)
  {
    assert s[..p + 1] == s[..p] + [s[p]];
    Concat(s[..p], [s[p]]);
  }

  lemma StillNone(s: seq<Byte>, s': seq<Byte>, start: nat, p: nat)
    requires NoneMergeable(s, start, p) && Boundary(s, p) && Mergeable(s, p) && start <= p
    requires s' == s[..p] + [ValSet(ValValue(s[p]), ValLen(s[p]) + ValLen(s[p + 1]))] + s[p + 2..]
    ensures NoneMergeable(s', start, p)
  {
    ValDecodes(ValValue(s[p]), ValLen(s[p]) + ValLen(s[p + 1]));
    Parts(s, p);
    forall i: nat | start <= i < p && Boundary(s', i)
      ensures !Mergeable(s', i)
    {
      StillNoneAt(s, s', start, p, i);
    }
  }

  lemma StillNoneAt(s: seq<Byte>, s': seq<Byte>, start: nat, p: nat, i: nat)
    requires NoneMergeable(s, start, p) && WellFormed(s) && Mergeable(s, p) && start <= i < p && Boundary(s', i)
    requires s' == s[..p] + [ValSet(ValValue(s[p]), ValLen(s[p]) + ValLen(s[p + 1]))] + s[p + 2..]
    requires IsVal(s'[p]) && ValValue(s'[p]) == ValValue(s[p]) && ValLen(s'[p]) == ValLen(s[p]) + ValLen(s[p + 1])
    ensures !Mergeable(s', i)
  {
    hide WellFormed, Decode, ValSet, IsVal, ValValue, ValLen;
    assert s'[..i] == s[..i];
    BoundaryAt(s, i);
    assert s'[i] == s[i] && (i + 1 < p ==> s'[i + 1] == s[i + 1]);
  }

  lemma PassOne(s: seq<Byte>, start: nat, p: nat)
    requires Boundary(s, p) && p < |s| && NoneMergeable(s, start, p) && !Mergeable(s, p)
    ensures p + OpLen(s, p) <= |s| && Boundary(s, p + OpLen(s, p)) && NoneMergeable(s, start, p + OpLen(s, p))
  {
    SplitAt(s, p);
    if IsXzero(s[p]) {
      InsideXzero(s, p);
    }
  }

  /** Step 4: merges equal neighbouring VAL opcodes, looking at up to five opcodes from `start`; before `end`, where it
      stops, nothing is left to merge. */
  method MergeValues(s0: seq<Byte>, start: nat) returns (s: seq<Byte>, end: nat)
    requires Valid(s0) && Boundary(s0, start)
    ensures Valid(s) && Decode(s) == Decode(s0) && |s| <= |s0|
    ensures start <= end <= |s| && NoneMergeable(s, start, end)
    ensures end == |s| || end - start + |s0| - |s| >= 5
  {
    s := s0;
    var p: nat := start;
    var scanlen: nat := 5;
    assert NoneMergeable(s, start, start) && start <= |s|;
    hide NoneMergeable, Boundary;
    while p < |s| && scanlen > 0
      invariant Valid(s) && Boundary(s, p) && Decode(s) == Decode(s0) && |s| <= |s0|
      invariant start <= p <= |s| && NoneMergeable(s, start, p) && p - start + |s0| - |s| >= 5 - scanlen
      decreases scanlen
    {
      scanlen := scanlen - 1;
      if IsXzero(s[p]) {
        PassOne(s, start, p);
        p := p + 2;
        continue;
      } else if IsZero(s[p]) {
        PassOne(s, start, p);
        p := p + 1;
        continue;
      }
      if p + 1 < |s| && IsVal(s[p + 1]) && ValValue(s[p]) == ValValue(s[p + 1]) {
        var len := ValLen(s[p]) + ValLen(s[p + 1]);
        if len <= VAL_MAX_LEN {
          MergedAt(s, p);
          var merged := s[..p] + [ValSet(ValValue(s[p]), len)] + s[p + 2..];
          StillNone(s, merged, start, p);
          s := merged;
          continue;
        }
      }
      PassOne(s, start, p);
      p := p + 1;
    }
    end := p;
  }

  lemma MergeOk(a: seq<Byte>, x: Byte, y: Byte, c: seq<Byte>)
    requires WellFormed(a) && WellFormed(c) && IsVal(x) && IsVal(y)
    requires ValValue(x) == ValValue(y) && ValLen(x) + ValLen(y) <= VAL_MAX_LEN
    ensures var op := [ValSet(ValValue(x), ValLen(x) + ValLen(y))];
            WellFormed(a + [x, y] + c) && WellFormed(a + op + c) && Decode(a + op + c) == Decode(a + [x, y] + c)
  {
    TwoVals(x, y);
    ValDecodes(ValValue(x), ValLen(x) + ValLen(y));
    Replaced(a, [x, y], [ValSet(ValValue(x), ValLen(x) + ValLen(y))], c);
  }

  lemma MergedAt(s: seq<Byte>, p: nat)
    requires Boundary(s, p) && p + 1 < |s| && IsVal(s[p]) && IsVal(s[p + 1])
    requires ValValue(s[p]) == ValValue(s[p + 1]) && ValLen(s[p]) + ValLen(s[p + 1]) <= VAL_MAX_LEN
    ensures var s' := s[..p] + [ValSet(ValValue(s[p]), ValLen(s[p]) + ValLen(s[p + 1]))] + s[p + 2..];
            WellFormed(s) && Boundary(s', p) && WellFormed(s') && Decode(s') == Decode(s)
  {
    hide WellFormed, Decode, Boundary, ValSet;
    AroundPair(s, p);
    PairInside(s, p);
    MergeOk(s[..p], s[p], s[p + 1], s[p + 2..]);
    var op := [ValSet(ValValue(s[p]), ValLen(s[p]) + ValLen(s[p + 1]))];
    FrontOf(s[..p], op, s[p + 2..]);
    BoundaryAt(s[..p] + op + s[p + 2..], p);
  }

  lemma AroundPair(s: seq<Byte>, p: nat)
    requires Boundary(s, p) && p + 1 < |s| && IsVal(s[p]) && IsVal(s[p + 1])
    ensures WellFormed(s[..p]) && WellFormed(s[p + 2..])
  {
    SplitAt(s, p);
    SplitAt(s, p + 1);
  }

  lemma FrontOf<T>(a: seq<T>, b: seq<T>, c: seq<T>)
    ensures (a + b + c)[..|a|] == a
  {
  }

  lemma PairInside<T>(s: seq<T>, p: nat)
    requires p + 1 < |s|
    ensures s == s[..p] + [s[p], s[p + 1]] + s[p + 2..]
  {
  }

  lemma TwoVals(x: Byte, y: Byte)
    requires IsVal(x) && IsVal(y) && ValValue(x) == ValValue(y)
    ensures WellFormed([x, y]) && Decode([x, y]) == Run(ValValue(x), ValLen(x) + ValLen(y))
  {
    OneOpcode([x]);
    OneOpcode([y]);
    assert [x, y] == [x] + [y];
    Concat([x], [y]);
  }

  datatype Outcome = Unchanged | Changed | Promote

  /** The opcode at `p` covers register `index`. */
  ghost predicate Covers(s: seq<Byte>, p: nat, index: nat) {
    && Boundary(s, p) && p < |s| && p + OpLen(s, p) <= |s|
    && |Decode(s[..p])| <= index < |Decode(s[..p])| + OpSpan(s, p)
  }

  /** The bytes of a run of `len` registers of value `v`. */
  function Pieces(v: nat, len: nat): nat { if len == 0 then 0 else if v == 0 && len > 64 then 2 else 1 }

  /** How many bytes longer the string gets when register `index` leaves the run of the opcode at `p`. */
  ghost function Growth(s: seq<Byte>, p: nat, index: nat): int
    requires Covers(s, p, index)
  {
    var m := index - |Decode(s[..p])|;
    Pieces(OpValue(s, p), m) + 1 + Pieces(OpValue(s, p), OpSpan(s, p) - 1 - m) - OpLen(s, p)
  }

  lemma SplitRunLength(v: nat, m: nat, k: nat, count: nat)
    requires m + k < HLL_REGISTERS && 1 <= count <= VAL_MAX_VALUE
    requires v <= VAL_MAX_VALUE && (v > 0 ==> m + k < VAL_MAX_LEN)
    ensures |SplitRun(v, m, k, count)| == Pieces(v, m) + 1 + Pieces(v, k)
  {
  }

  /** `hllSparseAdd`, up to the promotion: raises register `index` to `count`. */
  method SparseAdd(s0: seq<Byte>, index: nat, count: nat, maxBytes: nat) returns (s: seq<Byte>, r: Outcome)
    requires Valid(s0) && index < HLL_REGISTERS && count >= 1
    ensures r == Unchanged <==> Decode(s0)[index] >= count
    ensures r != Changed ==> s == s0
    ensures r == Changed ==> Valid(s) && Decode(s) == Decode(s0)[index := count]
    ensures r == Changed ==> |s| <= |s0| || 16 + |s| <= maxBytes
    ensures r == Promote ==> count > 32 || 16 + |s0| + 3 > maxBytes
    // promoted exactly when the count is too great, or the string has to grow and would be longer than allowed
    ensures count > 32 ==> r == Promote
    ensures count <= 32 && r != Unchanged ==> exists p ::
      Covers(s0, p, index) &&
      (r == Promote <==> Growth(s0, p, index) > 0 && 16 + |s0| + Growth(s0, p, index) > maxBytes)
  {
    s := s0;
    DecodeBound(s0, index);
    if count > VAL_MAX_VALUE {
      return s, Promote;
    }
    var p, prev, first, span := Locate(s, index);
    var value := OpValue(s, p);
    ValueAt(s, p, index);
    if IsVal(s[p]) && value >= count {
      return s, Unchanged;
    }
    SpanBound(s, p);
    var m, k := index - first, first + span - 1 - index;
    var n := SplitRun(value, m, k, count);
    SplitRunDecodes(value, m, k, count);
    SplitRunLength(value, m, k, count);
    assert m + 1 + k == span;
    assert Covers(s, p, index) && Growth(s, p, index) == |n| - OpLen(s, p);
    Spliced(s, p, n, index, count);
    var oldlen := OpLen(s, p);
    if |n| > oldlen && HLL_HDR_SIZE + |s| + |n| - oldlen > maxBytes {
      return s, Promote;
    }
    s := Substitute(s, p, prev, n);
    r := Changed;
  }

  /** Steps 3 and 4 in place: `n` takes the place of the opcode at `p`, then equal neighbours merge. */
  method Substitute(s0: seq<Byte>, p: nat, prev: int, n: seq<Byte>) returns (s: seq<Byte>)
    requires p < |s0| && p + OpLen(s0, p) <= |s0| && Boundary(s0, p)
    requires prev == -1 || (0 <= prev < p && Boundary(s0, prev))
    requires Valid(s0[..p] + n + s0[p + OpLen(s0, p)..])
    ensures Valid(s) && Decode(s) == Decode(s0[..p] + n + s0[p + OpLen(s0, p)..])
    ensures |s| <= |s0| + |n| - OpLen(s0, p)
  {
    var oldlen := OpLen(s0, p);
    s := s0[..p] + n + s0[p + oldlen..];
    var start := if prev == -1 then 0 else prev;
    assert s[..start] == s0[..start];
    BoundaryAt(s, start);
    var end;
    s, end := MergeValues(s, start);
  }
}
