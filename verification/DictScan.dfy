/** `dictScan` over a dictionary that changes between the calls. */
module DictScan {
  import opened Words
  import opened Scan
  import opened DictState

  // ---------------------------------------------------------------- one call

  /** The entries of some buckets, in order. */
  function Gather<V>(t: seq<Chain<V>>, indices: seq<nat>): seq<Entry<V>> {
    if indices == [] then []
    else (if indices[0] < |t| then t[indices[0]] else []) + Gather(t, indices[1..])
  }

  ghost function SmallBits<V>(s: State<V>): nat {
    if s.Rehashing() && |s.t1| < |s.t0| then s.bits1 else s.bits0
  }

  ghost function LargeBits<V>(s: State<V>): nat {
    if !s.Rehashing() then s.bits0 else if |s.t1| < |s.t0| then s.bits0 else s.bits1
  }

  ghost function SmallTable<V>(s: State<V>): seq<Chain<V>> {
    if s.Rehashing() && |s.t1| < |s.t0| then s.t1 else s.t0
  }

  ghost function LargeTable<V>(s: State<V>): seq<Chain<V>> {
    if s.Rehashing() && |s.t1| < |s.t0| then s.t0 else s.t1
  }

  lemma SizesOrdered<V>(s: State<V>)
    requires StateOk(s) && s.t0 != []
    ensures SmallBits(s) <= LargeBits(s) < WIDTH
    ensures |SmallTable(s)| == Pow2(SmallBits(s))
    ensures s.Rehashing() ==> |LargeTable(s)| == Pow2(LargeBits(s)) && SmallBits(s) < LargeBits(s)
  {
    if s.Rehashing() {
      if s.bits0 < s.bits1 {
        Pow2Mono(s.bits0 + 1, s.bits1);
      } else {
        Pow2Mono(s.bits1 + 1, s.bits0);
      }
    }
  }

  ghost predicate IsEmpty<V>(s: State<V>) {
    s.m0 == map[] && s.m1 == map[]
  }

  /** The cursor one call returns. */
  ghost function Next<V>(s: State<V>, v: Hash): (w: Word)
    requires StateOk(s)
    ensures |w| == WIDTH
  {
    if IsEmpty(s) then Zeros(WIDTH) else
    SizesOrdered(s);
    NextCursor(v, SmallBits(s))
  }

  /** The entries one call passes to the callback. */
  ghost function Emitted<V>(s: State<V>, v: Hash): seq<Entry<V>>
    requires StateOk(s)
  {
    if IsEmpty(s) then [] else
    SizesOrdered(s);
    Gather(SmallTable(s), [Index(v, SmallBits(s))]) +
    if s.Rehashing() then Gather(LargeTable(s), Expansions(v, SmallBits(s), LargeBits(s))) else []
  }

  /** What lets a call miss nothing: no rehash, or the guard on the cursor. */
  ghost predicate CallGuard<V>(s: State<V>, v: Hash)
    requires StateOk(s)
  {
    s.Rehashing() && !IsEmpty(s) ==>
      (SizesOrdered(s); ExpansionGuard(v, SmallBits(s), LargeBits(s)))
  }

  ghost predicate Passed<V>(emitted: seq<Entry<V>>, k: Key) {
    exists e :: e in emitted && e.key == k
  }

  lemma {:induction false} Gathered<V>(t: seq<Chain<V>>, indices: seq<nat>, i: nat, e: Entry<V>)
    requires i in indices && i < |t| && e in t[i]
    ensures e in Gather(t, indices)
  {
    if indices[0] != i {
      Gathered(t, indices[1..], i, e);
    }
  }

  lemma {:induction false} GatheredFrom<V>(t: seq<Chain<V>>, indices: seq<nat>, e: Entry<V>) returns (i: nat)
    requires e in Gather(t, indices)
    ensures i in indices && i < |t| && e in t[i]
  {
    if indices[0] < |t| && e in t[indices[0]] {
      i := indices[0];
    } else {
      i := GatheredFrom(t, indices[1..], e);
    }
  }

  /** The entry of a key, in the bucket of its hash. */
  lemma EntryOf<V>(t: seq<Chain<V>>, bits: nat, m: map<Key, V>, k: Key) returns (e: Entry<V>)
    requires TableOk(t, bits, m) && k in m
    ensures Index(k.hash, bits) < |t| && e in t[Index(k.hash, bits)] && e.key == k
  {
    TableFind(t, bits, m, k);
    ChainHas(t[Index(k.hash, bits)], k);
    e :| e in t[Index(k.hash, bits)] && e.key == k;
  }

  lemma KeyOf<V>(t: seq<Chain<V>>, bits: nat, m: map<Key, V>, i: nat, e: Entry<V>)
    requires TableOk(t, bits, m) && i < |t| && e in t[i]
    ensures e.key in m && Index(e.key.hash, bits) == i
  {
    assert BucketOk(t, bits, m, i);
    ChainValue(t[i], e);
    assert e.key in Part(m, bits, i);
  }

  ghost function SmallMap<V>(s: State<V>): map<Key, V> {
    if s.Rehashing() && |s.t1| < |s.t0| then s.m1 else s.m0
  }

  ghost function LargeMap<V>(s: State<V>): map<Key, V> {
    if s.Rehashing() && |s.t1| < |s.t0| then s.m0 else s.m1
  }

  /** The hashes a call answers for: those from its cursor up to the one it returns. */
  ghost predicate AnswersFor<V>(s: State<V>, v: Hash, h: Hash)
    requires StateOk(s)
  {
    IsEmpty(s) || (SizesOrdered(s); InStep(v, SmallBits(s), h))
  }

  /** A call that satisfies the guard passes on every key it answers for. */
  lemma CallCovers<V>(s: State<V>, v: Hash, k: Key)
    requires StateOk(s) && CallGuard(s, v) && k in s.Contents() && AnswersFor(s, v, k.hash)
    ensures Passed(Emitted(s, v), k)
  {
    SizesOrdered(s);
    var small, large := SmallBits(s), LargeBits(s);
    StepSharesLowBits(v, small, k.hash);
    if k in SmallMap(s) {
      var e := EntryOf(SmallTable(s), small, SmallMap(s), k);
      Gathered(SmallTable(s), [Index(v, small)], Index(v, small), e);
      assert e in Emitted(s, v);
    } else {
      var e := EntryOf(LargeTable(s), large, LargeMap(s), k);
      ExpansionsCover(v, small, large, k.hash);
      Gathered(LargeTable(s), Expansions(v, small, large), Index(k.hash, large), e);
      assert e in Emitted(s, v);
    }
  }

  /** A call passes on only keys of the dictionary, and only keys that share the low bits of the cursor; those
      of the larger table only from the buckets the expansion loop visits. */
  lemma CallSound<V>(s: State<V>, v: Hash, k: Key)
    requires StateOk(s) && Passed(Emitted(s, v), k)
    ensures !IsEmpty(s) && k in s.Contents()
    ensures SmallBits(s) <= WIDTH && k.hash[..SmallBits(s)] == v[..SmallBits(s)]
    ensures k in SmallMap(s) || (s.Rehashing() && SmallBits(s) <= LargeBits(s) <= WIDTH &&
              Index(k.hash, LargeBits(s)) in Expansions(v, SmallBits(s), LargeBits(s)))
  {
    SizesOrdered(s);
    var small, large := SmallBits(s), LargeBits(s);
    var e :| e in Emitted(s, v) && e.key == k;
    var direct := Gather(SmallTable(s), [Index(v, small)]);
    if e in direct {
      var i := GatheredFrom(SmallTable(s), [Index(v, small)], e);
      KeyOf(SmallTable(s), small, SmallMap(s), i, e);
      ValInjective(k.hash[..small], v[..small]);
    } else {
      var i := GatheredFrom(LargeTable(s), Expansions(v, small, large), e);
      KeyOf(LargeTable(s), large, LargeMap(s), i, e);
      ExpansionsExact(v, small, large, k.hash);
    }
  }

  // ---------------------------------------------------------------- whole iterations

  datatype Call<V> = Call(state: State<V>, cursor: Hash)

  /** An iteration: the calls made from cursor 0, each with the cursor the one before returned and with the
      dictionary as it then was. Nothing else relates the states: any changes may happen in between. */
  ghost predicate Iteration<V>(calls: seq<Call<V>>) {
    && (forall i :: 0 <= i < |calls| ==> StateOk(calls[i].state))
    && (|calls| > 0 ==> calls[0].cursor == Zeros(WIDTH))
    && (forall i {:trigger Follows(calls, i)} :: 0 < i < |calls| ==> Follows(calls, i))
  }

  ghost predicate Follows<V>(calls: seq<Call<V>>, i: nat)
    requires 0 < i < |calls| && StateOk(calls[i - 1].state)
  {
    calls[i].cursor == Next(calls[i - 1].state, calls[i - 1].cursor) != Zeros(WIDTH)
  }

  /** The last call returned 0. */
  ghost predicate Complete<V>(calls: seq<Call<V>>)
    requires Iteration(calls)
  {
    |calls| > 0 && Next(calls[|calls| - 1].state, calls[|calls| - 1].cursor) == Zeros(WIDTH)
  }

  /** A call before which nothing was passed over leaves a cursor before which nothing was passed over. */
  lemma {:induction false} NoneSkipped<V>(calls: seq<Call<V>>, k: Key, n: nat)
    requires Iteration(calls) && n < |calls|
    requires forall i :: 0 <= i < |calls| ==> CallGuard(calls[i].state, calls[i].cursor)
    requires forall i :: 0 <= i < |calls| ==> k in calls[i].state.Contents()
    requires forall i :: 0 <= i < n ==> !Passed(Emitted(calls[i].state, calls[i].cursor), k)
    ensures Pos(calls[n].cursor) <= Pos(k.hash)
  {
    if n == 0 {
      ZerosVal(WIDTH);
    } else {
      hide Emitted, Passed, CallGuard, Next, StateOk;
      NoneSkipped(calls, k, n - 1);
      assert Follows(calls, n);
      NotPassedOver(calls[n - 1].state, calls[n - 1].cursor, k);
    }
  }

  lemma NotPassedOver<V>(s: State<V>, v: Hash, k: Key)
    requires StateOk(s) && CallGuard(s, v) && k in s.Contents() && Next(s, v) != Zeros(WIDTH)
    requires Pos(v) <= Pos(k.hash) && !Passed(Emitted(s, v), k)
    ensures Pos(Next(s, v)) <= Pos(k.hash)
  {
    if AnswersFor(s, v, k.hash) {
      CallCovers(s, v, k);
      assert false;
    }
    hide Emitted, Passed, CallGuard, StateOk;
    SizesOrdered(s);
  }

  /** Completeness: whatever happens to the dictionary between the calls, a key that is there at every call is
      passed on by one of them. */
  lemma ScanComplete<V>(calls: seq<Call<V>>, k: Key)
    requires Iteration(calls) && Complete(calls)
    requires forall i :: 0 <= i < |calls| ==> CallGuard(calls[i].state, calls[i].cursor)
    requires forall i :: 0 <= i < |calls| ==> k in calls[i].state.Contents()
    ensures exists i :: 0 <= i < |calls| && Passed(Emitted(calls[i].state, calls[i].cursor), k)
  {
    var n := |calls| - 1;
    if forall i :: 0 <= i < n ==> !Passed(Emitted(calls[i].state, calls[i].cursor), k) {
      NoneSkipped(calls, k, n);
      LastCall(calls[n].state, calls[n].cursor, k);
    }
  }

  lemma LastCall<V>(s: State<V>, v: Hash, k: Key)
    requires StateOk(s) && CallGuard(s, v) && k in s.Contents()
    requires Pos(v) <= Pos(k.hash) && Next(s, v) == Zeros(WIDTH)
    ensures Passed(Emitted(s, v), k)
  {
    SizesOrdered(s);
    CallCovers(s, v, k);
  }

  /** The guard holds in every call when no rehash is under way at a call, when the two sizes then differ by a
      factor of two, or when the smaller table is no smaller than it was at the call before: growth by any
      factor never breaks it. */
  lemma GuardedCalls<V>(calls: seq<Call<V>>, i: nat)
    requires Iteration(calls) && i < |calls|
    requires var s := calls[i].state;
             || !s.Rehashing()
             || LargeBits(s) <= SmallBits(s) + 1
             || i == 0
             || NotSmaller(calls, i)
    ensures CallGuard(calls[i].state, calls[i].cursor)
  {
    var s, v := calls[i].state, calls[i].cursor;
    if s.Rehashing() && !IsEmpty(s) {
      SizesOrdered(s);
      var small, large := SmallBits(s), LargeBits(s);
      if large > small + 1 {
        if i > 0 {
          assert Follows(calls, i);
          CursorFits(calls[i - 1].state, calls[i - 1].cursor, small);
        }
        assert v[small..] == Zeros(WIDTH - small);
        ZeroMiddle(v, small, large);
      }
      GuardHolds(v, small, large);
    }
  }

  lemma ZeroMiddle(v: Word, a: nat, b: nat)
    requires a <= b <= |v| && v[a..] == Zeros(|v| - a)
    ensures v[a..b] == Zeros(b - a)
  {
    assert v[a..b] == v[a..][..b - a];
    assert Zeros(|v| - a)[..b - a] == Zeros(b - a);
  }

  /** The cursor a call returns has no bit above the smaller table. */
  lemma CursorFits<V>(s: State<V>, v: Hash, m: nat)
    requires StateOk(s) && !IsEmpty(s) && SmallBits(s) <= m <= WIDTH
    ensures Next(s, v)[m..] == Zeros(WIDTH - m)
  {
    SizesOrdered(s);
    var k := SmallBits(s);
    NextCursorPos(v, k);
    var w := Next(s, v);
    assert w[m..] == w[k..][m - k..];
    assert Zeros(WIDTH - m) == Zeros(WIDTH - k)[m - k..];
  }

  // ---------------------------------------------------------------- when a key is missed

  /** The cursors of an iteration move forward in reverse order. */
  lemma {:induction false} CursorsAdvance<V>(calls: seq<Call<V>>, i: nat, j: nat)
    requires Iteration(calls) && i < j < |calls|
    ensures !IsEmpty(calls[i].state)
    ensures Pos(calls[i].cursor) < Pos(Next(calls[i].state, calls[i].cursor)) <= Pos(calls[j].cursor)
  {
    if i + 1 < j {
      CursorsAdvance(calls, i, j - 1);
    }
    var c := calls[j - 1];
    assert Follows(calls, j);
    CursorAdvances(c.state, c.cursor);
  }

  lemma CursorAdvances<V>(s: State<V>, v: Hash)
    requires StateOk(s) && Next(s, v) != Zeros(WIDTH)
    ensures !IsEmpty(s) && Pos(v) < Pos(Next(s, v))
  {
    SizesOrdered(s);
    LowBitsBeforeNext(v, SmallBits(s), v);
  }

  /** The smaller table of call `j` is no smaller than that of the call before. */
  ghost predicate NotSmaller<V>(calls: seq<Call<V>>, j: nat)
    requires 0 < j < |calls|
  {
    IsEmpty(calls[j].state) || SmallBits(calls[j - 1].state) <= SmallBits(calls[j].state)
  }

  /** Conversely, a call without the guard loses keys for good: unless the smaller table shrinks again later,
      no call of the iteration passes on a key with the hash found here that sits in the larger table at that
      call, however long it stays in the dictionary. */
  lemma ScanMisses<V>(calls: seq<Call<V>>, i: nat) returns (h: Hash)
    requires Iteration(calls) && i < |calls|
    requires !CallGuard(calls[i].state, calls[i].cursor) && !IsEmpty(calls[i].state)
    requires forall j {:trigger NotSmaller(calls, j)} :: i < j < |calls| ==> NotSmaller(calls, j)
    ensures AnswersFor(calls[i].state, calls[i].cursor, h)
    ensures forall k: Key, j :: k.hash == h && k in LargeMap(calls[i].state) && 0 <= j < |calls| ==>
              !Passed(Emitted(calls[j].state, calls[j].cursor), k)
  {
    var s, v := calls[i].state, calls[i].cursor;
    SizesOrdered(s);
    h := ExpansionsMiss(v, SmallBits(s), LargeBits(s));
    forall k: Key, j | k.hash == h && k in LargeMap(s) && 0 <= j < |calls|
      ensures !Passed(Emitted(calls[j].state, calls[j].cursor), k)
    {
      if Passed(Emitted(calls[j].state, calls[j].cursor), k) {
        PassedWhere(calls, i, j, k);
        CallSound(s, v, k);
      }
    }
  }

  /** A key at or past the cursor of call `i` can only be passed on by that call, or by a later one if it lies
      past the cursor that call `i` returns. */
  lemma PassedWhere<V>(calls: seq<Call<V>>, i: nat, j: nat, k: Key)
    requires Iteration(calls) && i < |calls| && j < |calls|
    requires !IsEmpty(calls[i].state) && AnswersFor(calls[i].state, calls[i].cursor, k.hash)
    requires forall l {:trigger NotSmaller(calls, l)} :: i < l < |calls| ==> NotSmaller(calls, l)
    requires Passed(Emitted(calls[j].state, calls[j].cursor), k)
    ensures i == j
  {
    var c := calls[j];
    CallSound(c.state, c.cursor, k);
    SizesOrdered(c.state);
    SizesOrdered(calls[i].state);
    if j < i {
      CursorsAdvance(calls, j, i);
      LowBitsBeforeNext(c.cursor, SmallBits(c.state), k.hash);
      NextNonZero(calls, j);
    } else if i < j {
      assert NotSmaller(calls, j);
      PastIsPast(calls, i, j, k);
    }
  }

  lemma PastIsPast<V>(calls: seq<Call<V>>, i: nat, j: nat, k: Key)
    requires Iteration(calls) && i < j < |calls| && !IsEmpty(calls[j].state)
    requires !IsEmpty(calls[i].state) && AnswersFor(calls[i].state, calls[i].cursor, k.hash)
    requires NotSmaller(calls, j)
    ensures SmallBits(calls[j].state) <= WIDTH
    ensures k.hash[..SmallBits(calls[j].state)] != calls[j].cursor[..SmallBits(calls[j].state)]
  {
    var c := calls[j];
    var small := SmallBits(c.state);
    SizesOrdered(c.state);
    SizesOrdered(calls[i].state);
    CursorsAdvance(calls, i, j);
    CursorsAdvance(calls, j - 1, j);
    assert Follows(calls, j);
    CursorFits(calls[j - 1].state, calls[j - 1].cursor, small);
    ZerosVal(WIDTH - small);
    PosOrder(c.cursor, k.hash, small);
    NextNonZero(calls, i);
  }

  lemma NextNonZero<V>(calls: seq<Call<V>>, i: nat)
    requires Iteration(calls) && i + 1 < |calls|
    ensures Next(calls[i].state, calls[i].cursor) != Zeros(WIDTH)
  {
    assert Follows(calls, i + 1);
  }
}
