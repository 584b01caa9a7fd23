/** A whole iteration of `dictScan` that loses a key. */
module ScanLoss {
  import opened Words
  import opened Scan
  import opened DictState
  import opened DictScan

  function Bits(b: seq<bool>): (w: Word)
    requires |b| <= WIDTH
    ensures |w| == WIDTH
  {
    b + Zeros(WIDTH - |b|)
  }

  /** One key, in bucket 0100 of 16. */
  function Sixteen<V>(k: Key, val: V): State<V> {
    State(EmptyBuckets(16)[4 := [Entry(k, val)]], 4, map[k := val], [], 0, map[], -1)
  }

  /** The same at the beginning of a rehash into 4 buckets. */
  function Shrinking<V>(k: Key, val: V): State<V> { Expanded(Sixteen(k, val), 2) }

  /** The iteration: a call on 16 buckets, the resize, and four calls during the rehash. */
  function Calls<V>(k: Key, val: V): seq<Call<V>> {
    var s := Shrinking(k, val);
    [Call(Sixteen(k, val), Zeros(WIDTH)), Call(s, Bits([false, false, false, true])), Call(s, Bits([false, true])),
     Call(s, Bits([true])), Call(s, Bits([true, true]))]
  }

  lemma Sizes()
    ensures Pow2(2) == 4 && Pow2(4) == 16
  {
  }

  lemma StatesOk<V>(k: Key, val: V)
    requires k.hash == Bits([false, false, true, false])
    ensures StateOk(Sixteen(k, val)) && StateOk(Shrinking(k, val))
    ensures k in Sixteen(k, val).Contents() && k in Shrinking(k, val).Contents()
  {
    Sizes();
    FourBits(true, false, WIDTH - 4);
    assert k.hash[..4] == [false, false, true, false];
    FourBits(true, false, 0);
    assert [false, false, true, false] + Zeros(0) == [false, false, true, false];
    EmptyTable<V>(4);
    TableLink(EmptyBuckets<V>(16), 4, map[], Entry(k, val));
    assert [Entry(k, val)] + [] == [Entry(k, val)];
    ExpandedOk(Sixteen(k, val), 2);
  }

  lemma NextOf(b: seq<bool>, k: nat, next: seq<bool>)
    requires k <= |b| <= WIDTH && |next| == k && Reverse(Inc(Reverse(b[..k]))) == next
    ensures NextCursor(Bits(b), k) == next + Zeros(WIDTH - k)
  {
    NextCursorShape(Bits(b), k);
    assert Bits(b)[..k] == b[..k];
  }

  lemma ReverseTwo(a: bool, b: bool)
    ensures Reverse([a, b]) == [b, a]
  {
  }

  lemma IncTwo(a: bool, b: bool)
    ensures Inc([a, b]) == if a then [false, !b] else [true, b]
  {
    assert [a, b][1..] == [b] && [b][1..] == [];
    assert Inc([b]) == [!b];
  }

  /** The call after one at low bits a, b. */
  lemma TurnTwo(a: bool, b: bool)
    ensures Reverse(Inc(Reverse([a, b]))) == if b then [!a, false] else [a, true]
  {
    hide *;
    ReverseTwo(a, b);
    IncTwo(b, a);
    ReverseTwo(false, !a);
    ReverseTwo(true, a);
  }

  lemma TurnFour()
    ensures Reverse(Inc(Reverse([false, false, false, false]))) == [false, false, false, true]
  {
  }

  lemma NextOfTwo(b: seq<bool>)
    requires 2 <= |b| <= WIDTH
    ensures NextCursor(Bits(b), 2) == Bits(if b[1] then [!b[0], false] else [b[0], true])
  {
    assert b[..2] == [b[0], b[1]];
    TurnTwo(b[0], b[1]);
    hide Reverse, Inc;
    NextOf(b, 2, if b[1] then [!b[0], false] else [b[0], true]);
  }

  /** The cursors are 0, 8, 2, 1 and 3, and then 0 again. */
  lemma Cursors()
    ensures NextCursor(Zeros(WIDTH), 4) == Bits([false, false, false, true])
    ensures NextCursor(Bits([false, false, false, true]), 2) == Bits([false, true])
    ensures NextCursor(Bits([false, true]), 2) == Bits([true])
    ensures NextCursor(Bits([true]), 2) == Bits([true, true])
    ensures NextCursor(Bits([true, true]), 2) == Zeros(WIDTH)
  {
    assert Zeros(WIDTH) == Bits([false, false, false, false]) == Bits([false, false]);
    assert Bits([true]) == Bits([true, false]);
    TurnFour();
    hide Reverse, Inc, NextCursor;
    NextOf([false, false, false, false], 4, [false, false, false, true]);
    assert Bits([false, false, false, true]) == [false, false, false, true] + Zeros(WIDTH - 4);
    NextOfTwo([false, false, false, true]);
    NextOfTwo([false, true]);
    NextOfTwo([true, false]);
    NextOfTwo([true, true]);
  }

  lemma Steps<V>(k: Key, val: V, v: Hash)
    requires k.hash == Bits([false, false, true, false])
    ensures StateOk(Sixteen(k, val)) && StateOk(Shrinking(k, val))
    ensures Next(Sixteen(k, val), v) == NextCursor(v, 4) && Next(Shrinking(k, val), v) == NextCursor(v, 2)
    ensures SmallBits(Sixteen(k, val)) == 4 && SmallBits(Shrinking(k, val)) == 2
  {
    StatesOk(k, val);
    Sizes();
    hide NextCursor, StateOk;
  }

  lemma NotZero(b: seq<bool>, i: nat)
    requires i < |b| <= WIDTH && b[i]
    ensures Bits(b) != Zeros(WIDTH)
  {
    assert Bits(b)[i] && !Zeros(WIDTH)[i];
  }

  ghost predicate Leads<V>(c: Call<V>, d: Call<V>) {
    StateOk(c.state) && d.cursor == Next(c.state, c.cursor) != Zeros(WIDTH)
  }

  lemma FiveCalls<V>(a: Call<V>, b: Call<V>, c: Call<V>, d: Call<V>, e: Call<V>)
    requires a.cursor == Zeros(WIDTH) && Leads(a, b) && Leads(b, c) && Leads(c, d) && Leads(d, e)
    requires StateOk(e.state) && Next(e.state, e.cursor) == Zeros(WIDTH)
    ensures Iteration([a, b, c, d, e]) && Complete([a, b, c, d, e])
  {
    var calls := [a, b, c, d, e];
    hide StateOk, Next;
    assert Follows(calls, 1) && Follows(calls, 2) && Follows(calls, 3) && Follows(calls, 4);
  }

  lemma IsIteration<V>(k: Key, val: V)
    requires k.hash == Bits([false, false, true, false])
    ensures Iteration(Calls(k, val)) && Complete(Calls(k, val))
  {
    var s, s' := Sixteen(k, val), Shrinking(k, val);
    var b, c, d, e := Bits([false, false, false, true]), Bits([false, true]), Bits([true]), Bits([true, true]);
    Steps(k, val, Zeros(WIDTH));
    Steps(k, val, b);
    Steps(k, val, c);
    Steps(k, val, d);
    Steps(k, val, e);
    Cursors();
    NotZero([false, false, false, true], 3);
    NotZero([false, true], 1);
    NotZero([true], 0);
    NotZero([true, true], 0);
    hide StateOk, Next, NextCursor, Iteration, Complete, Bits, Sixteen, Shrinking;
    FiveCalls(Call(s, Zeros(WIDTH)), Call(s', b), Call(s', c), Call(s', d), Call(s', e));
  }

  lemma NotHere<V>(s: State<V>, v: Hash, k: Key)
    requires StateOk(s) && SmallBits(s) <= WIDTH && k.hash[..SmallBits(s)] != v[..SmallBits(s)]
    ensures !Passed(Emitted(s, v), k)
  {
    if Passed(Emitted(s, v), k) {
      CallSound(s, v, k);
      assert false;
    }
  }

  lemma NotExpanded<V>(k: Key, val: V)
    requires k.hash == Bits([false, false, true, false])
    ensures StateOk(Shrinking(k, val))
    ensures !Passed(Emitted(Shrinking(k, val), Bits([false, false, false, true])), k)
    ensures !CallGuard(Shrinking(k, val), Bits([false, false, false, true]))
  {
    StatesOk(k, val);
    Sizes();
    var s, v := Shrinking(k, val), Bits([false, false, false, true]);
    ShrinkByFourMisses(v, k.hash);
    assert SmallBits(s) == 2 && LargeBits(s) == 4 && !IsEmpty(s) && k !in SmallMap(s);
    hide StateOk, ExpansionGuard, Expansions, Emitted;
    if Passed(Emitted(s, v), k) {
      CallSound(s, v, k);
      assert false;
    }
  }

  /** The key is there at this call, and not passed on by it. */
  ghost predicate Skips<V>(c: Call<V>, k: Key) {
    StateOk(c.state) && k in c.state.Contents() && !Passed(Emitted(c.state, c.cursor), k)
  }

  /** From 16 buckets to 4 between the first and the second call: the iteration is complete, the key is there at every
      call, and no call passes it on. */
  lemma ShrinkLosesKey<V>(k: Key, val: V)
    requires k.hash == Bits([false, false, true, false])
    ensures Iteration(Calls(k, val)) && Complete(Calls(k, val))
    ensures forall i :: 0 <= i < |Calls(k, val)| ==> Skips(Calls(k, val)[i], k)
  {
    IsIteration(k, val);
    NotExpanded(k, val);
    NotElsewhere(k, val);
    StatesOk(k, val);
    var s, s' := Sixteen(k, val), Shrinking(k, val);
    var b, c, d, e := Bits([false, false, false, true]), Bits([false, true]), Bits([true]), Bits([true, true]);
    assert Skips(Call(s, Zeros(WIDTH)), k) && Skips(Call(s', b), k) && Skips(Call(s', c), k);
    assert Skips(Call(s', d), k) && Skips(Call(s', e), k);
    hide Skips, Bits, Sixteen, Shrinking, Iteration, Complete;
    AllFive(Call(s, Zeros(WIDTH)), Call(s', b), Call(s', c), Call(s', d), Call(s', e), k);
  }

  lemma AllFive<V>(a: Call<V>, b: Call<V>, c: Call<V>, d: Call<V>, e: Call<V>, k: Key)
    requires Skips(a, k) && Skips(b, k) && Skips(c, k) && Skips(d, k) && Skips(e, k)
    ensures forall i :: 0 <= i < |[a, b, c, d, e]| ==> Skips([a, b, c, d, e][i], k)
  {
    hide Skips;
  }

  lemma NotElsewhere<V>(k: Key, val: V)
    requires k.hash == Bits([false, false, true, false])
    ensures StateOk(Sixteen(k, val)) && !Passed(Emitted(Sixteen(k, val), Zeros(WIDTH)), k)
    ensures StateOk(Shrinking(k, val)) && !Passed(Emitted(Shrinking(k, val), Bits([false, true])), k)
    ensures !Passed(Emitted(Shrinking(k, val), Bits([true])), k)
    ensures !Passed(Emitted(Shrinking(k, val), Bits([true, true])), k)
  {
    Steps(k, val, Zeros(WIDTH));
    assert k.hash[..4][2] && !Zeros(WIDTH)[..4][2];
    assert !k.hash[..2][0] && !k.hash[..2][1];
    assert Bits([false, true])[..2][1] && Bits([true])[..2][0] && Bits([true, true])[..2][0];
    hide StateOk, Emitted, Passed, Bits, SmallBits, Sixteen, Shrinking;
    NotHere(Sixteen(k, val), Zeros(WIDTH), k);
    NotHere(Shrinking(k, val), Bits([false, true]), k);
    NotHere(Shrinking(k, val), Bits([true]), k);
    NotHere(Shrinking(k, val), Bits([true, true]), k);
  }
}
