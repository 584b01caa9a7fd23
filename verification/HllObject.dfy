/** The HyperLogLog object and what it means: the registers are the pointwise maximum of the pattern lengths of
    the elements added, whatever the encoding, the order and the repetitions. */
module HllObject {
  import opened Bytes
  import opened HllSparse
  import opened Hll
  import opened HllSum

  // ---------------------------------------------------------------- the meaning of a sequence of additions

  function Raised(r: Registers, h: Hash): Registers {
    RegisterOfMasked(h);
    var i := RegisterOf(h);
    if r[i] < PatternLength(h) then r[i := PatternLength(h)] else r
  }

  /** The registers after adding some elements, given by their hashes, to `r`. */
  function AfterAdding(r: Registers, hashes: seq<Hash>): Registers
    decreases |hashes|
  {
    if hashes == [] then r else Raised(AfterAdding(r, hashes[..|hashes| - 1]), hashes[|hashes| - 1])
  }

  const EMPTY: Registers := Run(0, HLL_REGISTERS)

  /** `v` is the greatest pattern length among the hashes of `s` that select register `i`, 0 if there is none. */
  ghost predicate IsMaxPattern(s: set<Hash>, i: nat, v: nat) {
    && (forall h :: h in s && RegisterOf(h) == i ==> PatternLength(h) <= v)
    && (v == 0 || exists h :: h in s && RegisterOf(h) == i && PatternLength(h) == v)
  }

  ghost function Elements(hashes: seq<Hash>): set<Hash> {
    set h | h in hashes
  }

  lemma MaxPatternUnique(s: set<Hash>, i: nat, v: nat, w: nat)
    requires IsMaxPattern(s, i, v) && IsMaxPattern(s, i, w)
    ensures v == w
  {
  }

  /** Register `i` is the maximum over the elements that map to it. */
  lemma {:induction false} RegisterIsMaximum(hashes: seq<Hash>, i: nat)
    requires i < HLL_REGISTERS
    ensures IsMaxPattern(Elements(hashes), i, AfterAdding(EMPTY, hashes)[i])
    decreases |hashes|
  {
    if hashes != [] {
      var n := |hashes| - 1;
      var a, x := hashes[..n], hashes[n];
      RegisterIsMaximum(a, i);
      RegisterOfMasked(x);
      assert hashes == a + [x];
      assert Elements(hashes) == Elements(a) + {x};
      var v := AfterAdding(EMPTY, a)[i];
      if RegisterOf(x) == i && v < PatternLength(x) {
        assert x in Elements(hashes);
      } else if v > 0 {
        var h :| h in Elements(a) && RegisterOf(h) == i && PatternLength(h) == v;
        assert h in Elements(hashes);
      }
    }
  }

  /** Neither order nor repetition matters. */
  lemma OrderDoesNotMatter(a: seq<Hash>, b: seq<Hash>)
    requires Elements(a) == Elements(b)
    ensures AfterAdding(EMPTY, a) == AfterAdding(EMPTY, b)
  {
    var r, s := AfterAdding(EMPTY, a), AfterAdding(EMPTY, b);
    forall i | 0 <= i < HLL_REGISTERS
      ensures r[i] == s[i]
    {
      RegisterIsMaximum(a, i);
      RegisterIsMaximum(b, i);
      MaxPatternUnique(Elements(a), i, r[i], s[i]);
    }
  }

  /** Merging the registers of two objects is adding the elements of both to one. */
  lemma MergeIsUnion(a: seq<Hash>, b: seq<Hash>)
    ensures PointwiseMax(AfterAdding(EMPTY, a), AfterAdding(EMPTY, b)) == AfterAdding(EMPTY, a + b)
  {
    var r, s, t := AfterAdding(EMPTY, a), AfterAdding(EMPTY, b), AfterAdding(EMPTY, a + b);
    assert Elements(a + b) == Elements(a) + Elements(b);
    forall i | 0 <= i < HLL_REGISTERS
      ensures PointwiseMax(r, s)[i] == t[i]
    {
      RegisterIsMaximum(a, i);
      RegisterIsMaximum(b, i);
      RegisterIsMaximum(a + b, i);
      MaxOfUnion(Elements(a), Elements(b), i, r[i], s[i]);
      MaxPatternUnique(Elements(a + b), i, PointwiseMax(r, s)[i], t[i]);
    }
  }

  lemma MaxOfUnion(a: set<Hash>, b: set<Hash>, i: nat, v: nat, w: nat)
    requires IsMaxPattern(a, i, v) && IsMaxPattern(b, i, w)
    ensures IsMaxPattern(a + b, i, if v < w then w else v)
  {
    if v < w {
      var h :| h in b && RegisterOf(h) == i && PatternLength(h) == w;
      assert h in a + b;
    } else if v > 0 {
      var h :| h in a && RegisterOf(h) == i && PatternLength(h) == v;
      assert h in a + b;
    }
  }

  // ---------------------------------------------------------------- the object

  /** `hll_sparse_max_bytes` is the server setting. */
  class HllObject {
    var dense: bool
    var bytes: seq<Byte>

    ghost predicate Valid()
      reads this
    {
      if dense then DenseValid(bytes) else HllSparse.Valid(bytes)
    }

    ghost function Contents(): Registers
      requires Valid()
      reads this
    {
      if dense then DenseRegisters(bytes) else Decode(bytes)
    }

    /** `createHLLObject`: one XZERO opcode. */
    constructor ()
      ensures Valid() && !dense && Contents() == EMPTY
    {
      OneOpcode(XzeroSet(HLL_REGISTERS));
      dense, bytes := false, XzeroSet(HLL_REGISTERS);
    }

    /** `hllAdd`: 1 exactly when a register changed. */
    method Add(hash: Hash, maxBytes: nat) returns (changed: bool)
      requires Valid()
      modifies this
      ensures Valid() && Contents() == Raised(old(Contents()), hash)
      ensures changed <==> Contents() != old(Contents())
      ensures old(dense) ==> dense
      ensures dense && !old(dense) ==> PatternLength(hash) > 32 || 16 + |old(bytes)| + 3 > maxBytes
      ensures !old(dense) && changed && PatternLength(hash) > 32 ==> dense
      ensures !old(dense) && changed && PatternLength(hash) <= 32 ==> exists p ::
        && Covers(old(bytes), p, RegisterOf(hash))
        && var growth := Growth(old(bytes), p, RegisterOf(hash));
           (dense <==> growth > 0 && 16 + |old(bytes)| + growth > maxBytes)
      ensures !dense ==> |bytes| <= old(|bytes|) || 16 + |bytes| <= maxBytes
    {
      hide WellFormed, Decode, DenseRegisters, PatternLength, RegisterOf;
      var count, index := PatLen(hash);
      RegisterOfMasked(hash);
      if dense {
        bytes, changed := DenseAdd(bytes, index, count);
        return;
      }
      var s, outcome := SparseAdd(bytes, index, count, maxBytes);
      if outcome == Unchanged {
        return false;
      }
      if outcome == Changed {
        bytes := s;
        return true;
      }
      // promote: the register still has to be raised, so hllDenseAdd cannot return 0
      var d := SparseToDense(bytes);
      var retval;
      d, retval := DenseAdd(d, index, count);
      assert retval;
      dense, bytes := true, d;
      return retval;
    }

    /** `hllMerge` into an array of registers. */
    method Merge(max0: Registers) returns (max: seq<nat>)
      requires Valid()
      ensures max == PointwiseMax(max0, Contents())
    {
      if dense {
        max := MergeDense(max0, bytes);
      } else {
        max := MergeSparse(max0, bytes);
      }
    }

    /** The two sums `hllCount` is computed from. */
    method Sums(pe: Table) returns (e: real, ez: nat)
      requires Valid()
      ensures e == RegSum(pe, Contents()) && ez == ZeroCount(Contents())
    {
      if dense {
        e, ez := DenseSum(bytes, pe);
      } else {
        e, ez := SparseSum(bytes, pe);
      }
    }
  }

  /** A run of additions on a new object, through any promotions on the way. */
  method AddAll(hashes: seq<Hash>, maxBytes: nat) returns (o: HllObject)
    ensures o.Valid() && o.Contents() == AfterAdding(EMPTY, hashes)
  {
    o := new HllObject();
    var n := 0;
    while n < |hashes|
      invariant n <= |hashes| && fresh(o)
      invariant o.Valid() && o.Contents() == AfterAdding(EMPTY, hashes[..n])
    {
      assert hashes[..n + 1][..n] == hashes[..n];
      var changed := o.Add(hashes[n], maxBytes);
      n := n + 1;
    }
    assert hashes[..n] == hashes;
  }
}
