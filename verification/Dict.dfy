/** The hash table of dict.c as it is written: two bucket arrays updated in place, one bucket migrated at a
    time. */
module Dict {
  import opened Options
  import opened Words
  import opened Scan
  import opened DictState
  import opened DictScan

  /** Tables of up to 2^62 buckets stay clear of the LONG_MAX escape of `_dictNextPower`. */
  const MAX_SIZE: nat := Pow2(WIDTH - 2)

  /** `_dictNextPower`, below its LONG_MAX escape. */
  method NextPower(size: nat) returns (i: nat)
    ensures i == Pow2(PowerBits(size))
    ensures i >= 4 && i >= size && (i > 4 ==> i < 2 * size)
  {
    i := DICT_HT_INITIAL_SIZE;
    ghost var k := 2;
    assert Pow2(2) == 2 * Pow2(1) && Pow2(1) == 2 * Pow2(0);
    while i < size
      invariant i == Pow2(k) && PowerBits(size, k) == PowerBits(size)
    {
      i, k := i * 2, k + 1;
    }
  }

  /** `sizemask = size - 1` */
  method SizeMask(size: nat, ghost k: nat) returns (mask: Word)
    requires size == Pow2(k) && k < WIDTH
    ensures mask == Mask(WIDTH, k)
  {
    MaskIsPow2Minus1(WIDTH, k);
    mask := FromNat(size - 1, WIDTH);
  }

  lemma PowerBitsBound(size: nat)
    requires size <= MAX_SIZE
    ensures PowerBits(size) <= WIDTH - 2
  {
    var b := PowerBits(size);
    if b > WIDTH - 2 {
      Pow2Mono(WIDTH - 2, b - 1);
    }
  }

  /** `dictht`; the empty bucket array is the NULL table. */
  datatype Table<+V> = Table(buckets: seq<Chain<V>>, sizemask: Word, used: nat)

  /** The fields of `dict`. */
  datatype Fields<V> = Fields(ht0: Table<V>, ht1: Table<V>, rehashidx: int, iterators: nat)

  /** What the two tables hold, and the exponents of their sizes. */
  datatype Model<V> = Model(bits0: nat, m0: map<Key, V>, bits1: nat, m1: map<Key, V>)

  ghost function StateOf<V>(d: Fields<V>, model: Model<V>): State<V> {
    State(d.ht0.buckets, model.bits0, model.m0, d.ht1.buckets, model.bits1, model.m1, d.rehashidx)
  }

  ghost predicate TableFieldsOk<V>(t: Table<V>, bits: nat, m: map<Key, V>) {
    && (t.buckets != [] ==> bits < WIDTH && t.sizemask == Mask(WIDTH, bits))
    && t.used == |m|
  }

  ghost predicate FieldsOk<V>(d: Fields<V>, model: Model<V>) {
    && StateOk(StateOf(d, model))
    && TableFieldsOk(d.ht0, model.bits0, model.m0)
    && TableFieldsOk(d.ht1, model.bits1, model.m1)
  }

  class Dict<V(!new)> {
    var d: Fields<V>
    ghost var model: Model<V>

    ghost function View(): State<V>
      reads this
    {
      StateOf(d, model)
    }

    ghost predicate Valid()
      reads this
    {
      FieldsOk(d, model)
    }

    ghost function Contents(): map<Key, V>
      reads this
    {
      View().Contents()
    }

    /** `dictIsRehashing` */
    predicate IsRehashing()
      reads this
    {
      d.rehashidx != -1
    }

    /** `dictCreate` */
    constructor ()
      ensures Valid()
      ensures Contents() == map[] && d.iterators == 0
    {
      var empty := Table([], Zeros(WIDTH), 0);
      d := Fields(empty, empty, -1, 0);
      model := Model(0, map[], 0, map[]);
    }

    /** `dictExpand`: the first call makes `ht[0]`, any other starts a rehash into an empty `ht[1]`. */
    method Expand(size: nat) returns (ok: bool)
      requires Valid() && size <= MAX_SIZE
      modifies this
      ensures ok <==> old(d.rehashidx == -1 && d.ht0.used <= size &&
                          (d.ht0.buckets == [] || |d.ht0.buckets| != Pow2(PowerBits(size))))
      ensures View() == if ok then Expanded(old(View()), PowerBits(size)) else old(View())
      ensures Valid() && d.iterators == old(d.iterators)
    {
      if IsRehashing() || d.ht0.used > size {
        return false;
      }
      var realsize := NextPower(size);
      ghost var k := PowerBits(size);
      PowerBitsBound(size);
      SameSize(model.bits0, k);
      if d.ht0.buckets != [] && realsize == |d.ht0.buckets| {
        return false;
      }
      var mask := SizeMask(realsize, k);
      ExpandedOk(View(), k);
      var n := Table(EmptyBuckets(realsize), mask, 0);
      if d.ht0.buckets == [] {
        d, model := d.(ht0 := n), model.(bits0 := k);
      } else {
        d, model := d.(ht1 := n, rehashidx := 0), model.(bits1 := k, m1 := map[]);
      }
      return true;
    }

    /** `dictResize`: to the least size that holds every key. */
    method Resize(canResize: bool) returns (ok: bool)
      requires Valid() && d.ht0.used <= MAX_SIZE
      modifies this
      ensures var size := old(if d.ht0.used < 4 then 4 else d.ht0.used);
        && (ok <==> old(canResize && d.rehashidx == -1 &&
                        (d.ht0.buckets == [] || |d.ht0.buckets| != Pow2(PowerBits(size)))))
        && View() == if ok then Expanded(old(View()), PowerBits(size)) else old(View())
      ensures Valid() && d.iterators == old(d.iterators)
    {
      if !canResize || IsRehashing() {
        return false;
      }
      var minimal := d.ht0.used;
      if minimal < DICT_HT_INITIAL_SIZE {
        minimal := DICT_HT_INITIAL_SIZE;
      }
      InitialSizeFits();
      ok := Expand(minimal);
    }

    /** `dictRehash`. */
    method Rehash(n: nat) returns (more: bool)
      requires Valid()
      modifies this
      ensures Valid() && d.iterators == old(d.iterators)
      ensures RehashEffect(old(View()), View(), n, more)
      ensures more <==> IsRehashing() && d.ht0.used != 0
      // at most n buckets moved and 10n empty ones passed, and one of the two used up if it is not over
      ensures more ==>
        && 0 <= old(d.rehashidx) <= d.rehashidx <= |old(d.ht0.buckets)|
        && var busy := Busy(old(d.ht0.buckets), old(d.rehashidx), d.rehashidx);
           var empty := d.rehashidx - old(d.rehashidx) - busy;
           busy <= n && empty <= 10 * n && (busy == n || empty == 10 * n)
    {
      if !IsRehashing() {
        return false;
      }
      more := RehashSteps(n);
    }

    method RehashSteps(n: nat) returns (more: bool)
      requires Valid() && IsRehashing()
      modifies this
      ensures Valid() && d.iterators == old(d.iterators)
      ensures RehashEffect(old(View()), View(), n, more)
    {
      var x, stop;
      ghost var m;
      x, m, stop := RehashLoop(d, model, n);
      more := stop || x.ht0.used != 0;
      ghost var s := View();
      assert x.ht0.used == |m.m0|;
      hide Migrated, WorkDone, Finished;
      if more {
        NotOver(s, StateOf(x, m), n);
      } else {
        FinishOk(s, x, m);
        Over(s, StateOf(x, m), StateOf(Switched(x), SwitchedModel(m)), n);
        x, m := Switched(x), SwitchedModel(m);
      }
      d, model := x, m;
    }

    /** `_dictRehashStep`: nothing moves while a safe iterator is at work. */
    method RehashStep()
      requires Valid()
      modifies this
      ensures Valid() && d.iterators == old(d.iterators)
      ensures Stepped(old(View()), View(), d.iterators == 0)
      ensures d.iterators != 0 ==> View() == old(View())
      ensures old(IsRehashing()) && IsRehashing() && d.iterators == 0 ==>
        && 0 <= old(d.rehashidx) < d.rehashidx <= |old(d.ht0.buckets)|
        && var busy := Busy(old(d.ht0.buckets), old(d.rehashidx), d.rehashidx);
           var empty := d.rehashidx - old(d.rehashidx) - busy;
           busy <= 1 && empty <= 10 && (busy == 1 || empty == 10)
    {
      if d.iterators == 0 {
        var more := Rehash(1);
      }
    }

    /** `if (dictIsRehashing(d)) _dictRehashStep(d)`, as every single-key operation starts. */
    method StepIfRehashing()
      requires Valid()
      modifies this
      ensures Valid() && d.iterators == old(d.iterators) && Contents() == old(Contents())
      ensures Stepped(old(View()), View(), d.iterators == 0)
      ensures old(d.ht0.buckets) != [] ==> d.ht0.buckets != []
    {
      ghost var s := View();
      if IsRehashing() {
        RehashStep();
      }
      if d.iterators == 0 {
        StepKeeps(s, View(), 1, IsRehashing());
      }
    }

    /** `_dictExpandIfNeeded` never fails: the doubled size is never the current one. */
    method ExpandIfNeeded(canResize: bool) returns (ok: bool)
      requires Valid() && d.ht0.used * 2 <= MAX_SIZE
      modifies this
      ensures Valid() && d.iterators == old(d.iterators)
      ensures ok && d.ht0.buckets != []
      ensures View() == Grown(old(View()), canResize) && Contents() == old(Contents())
      ensures old(IsRehashing()) ==> View() == old(View())
      ensures old(d.ht0.buckets) == [] ==> !IsRehashing() && |d.ht0.buckets| == 4 && d.ht0.used == 0
      ensures old(!IsRehashing() && d.ht0.buckets != []) ==>
        if old(d.ht0.used >= |d.ht0.buckets| && (canResize || d.ht0.used / |d.ht0.buckets| > 5))
        then && d.rehashidx == 0 && d.ht0 == old(d.ht0) && d.ht1.used == 0
             && |d.ht1.buckets| == Pow2(model.bits1) >= 4 && |d.ht1.buckets| >= 2 * d.ht0.used
             && (|d.ht1.buckets| > 4 ==> |d.ht1.buckets| < 4 * d.ht0.used)
        else View() == old(View())
      ensures canResize && !IsRehashing() ==> d.ht0.used < |d.ht0.buckets|
    {
      PowersOfTwo();
      if IsRehashing() {
        return true;
      }
      if d.ht0.buckets == [] {
        InitialSizeFits();
        ok := Expand(DICT_HT_INITIAL_SIZE);
        return;
      }
      if d.ht0.used >= |d.ht0.buckets| && (canResize || d.ht0.used / |d.ht0.buckets| > DICT_FORCE_RESIZE_RATIO) {
        ok := Expand(d.ht0.used * 2);
        return;
      }
      return true;
    }

    /** The loop over the two tables of `dictFind` and `dictGenericDelete`: where the key is. */
    method Locate(key: Key) returns (found: bool, inNew: bool, i: nat, j: nat)
      requires Valid() && d.ht0.buckets != []
      ensures found <==> key in Contents()
      ensures found ==> At(View(), inNew, i, j, key)
    {
      IndexIsMasked(key.hash, model.bits0);
      TableFind(d.ht0.buckets, model.bits0, model.m0, key);
      inNew, i := false, Val(And(key.hash, d.ht0.sizemask));
      j, found := FindInChain(d.ht0.buckets[i], key);
      if !found && IsRehashing() {
        IndexIsMasked(key.hash, model.bits1);
        TableFind(d.ht1.buckets, model.bits1, model.m1, key);
        inNew, i := true, Val(And(key.hash, d.ht1.sizemask));
        j, found := FindInChain(d.ht1.buckets[i], key);
      }
    }

    /** The entry goes to the head of its bucket, in `ht[1]` during a rehash. */
    method LinkEntry(e: Entry<V>, i: nat)
      requires Valid() && d.ht0.buckets != [] && e.key !in Contents()
      requires i == SlotIndex(View(), e.key)
      modifies this
      ensures Valid() && d.iterators == old(d.iterators) && d.rehashidx == old(d.rehashidx)
      ensures AddedTo(old(View()), View(), e)
      ensures AtHead(d, e, i)
      ensures Contents() == old(Contents())[e.key := e.val]
    {
      ghost var t := View();
      LinkedOk(t, e, i);
      AddedOne(t, e, i);
      hide FieldsOk, StateOf, Linked, AddedTo, StateOk, SlotIndex, AtHead;
      if IsRehashing() {
        LinkedNew(d, model, e, i);
        d, model := WithNew(d, e, i), model.(m1 := model.m1[e.key := e.val]);
      } else {
        LinkedOld(d, model, e, i);
        d, model := WithOld(d, e, i), model.(m0 := model.m0[e.key := e.val]);
      }
    }

    method UnlinkEntry(inNew: bool, i: nat, j: nat, key: Key)
      requires Valid() && d.ht0.buckets != [] && At(View(), inNew, i, j, key)
      modifies this
      ensures Valid() && d.iterators == old(d.iterators)
      ensures View() == Unlinked(old(View()), inNew, i, j)
      ensures Contents() == old(Contents()) - {key}
    {
      UnlinkedOk(View(), inNew, i, j, key);
      hide FieldsOk, StateOf, Unlinked, StateOk, At;
      if inNew {
        UnlinkedNew(d, model, i, j, key);
        d, model := WithoutNew(d, i, j), model.(m1 := model.m1 - {key});
      } else {
        UnlinkedOld(d, model, i, j, key);
        d, model := WithoutOld(d, i, j), model.(m0 := model.m0 - {key});
      }
    }

    /** `dictSetVal` on the entry found. */
    method SetEntry(inNew: bool, i: nat, j: nat, key: Key, val: V)
      requires Valid() && d.ht0.buckets != [] && At(View(), inNew, i, j, key)
      modifies this
      ensures Valid() && d.iterators == old(d.iterators)
      ensures Contents() == old(Contents())[key := val]
    {
      ghost var t := View();
      UpdatedOk(t, inNew, i, j, key, val);
      if inNew {
        d := d.(ht1 := d.ht1.(buckets := d.ht1.buckets[i := d.ht1.buckets[i][j := Entry(key, val)]]));
        model := model.(m1 := model.m1[key := val]);
      } else {
        d := d.(ht0 := d.ht0.(buckets := d.ht0.buckets[i := d.ht0.buckets[i][j := Entry(key, val)]]));
        model := model.(m0 := model.m0[key := val]);
      }
      assert View() == Updated(t, inNew, i, j, val);
    }

    /** `_dictKeyIndex`: grows the table if that is due; `free` is false for -1, and `index` is the bucket for the
        key. */
    method KeyIndex(key: Key, canResize: bool) returns (free: bool, index: nat)
      requires Valid() && |Contents()| * 2 <= MAX_SIZE
      modifies this
      ensures Valid() && d.iterators == old(d.iterators) && d.ht0.buckets != []
      ensures View() == Grown(old(View()), canResize) && Contents() == old(Contents())
      ensures free <==> key !in Contents()
      ensures index == SlotIndex(View(), key)
    {
      UsedBound(View());
      var grown := ExpandIfNeeded(canResize);
      var found, inNew, i, j := Locate(key);
      free := !found;
      IndexIsMasked(key.hash, if IsRehashing() then model.bits1 else model.bits0);
      index := Val(And(key.hash, if IsRehashing() then d.ht1.sizemask else d.ht0.sizemask));
    }

    /** `dictAdd`: NULL from `dictAddRaw`, and so failure, exactly when the key is there already. */
    method Add(key: Key, val: V, canResize: bool) returns (ok: bool)
      requires Valid() && |Contents()| * 2 <= MAX_SIZE
      modifies this
      ensures Valid() && d.iterators == old(d.iterators) && d.ht0.buckets != []
      ensures ok <==> key !in old(Contents())
      ensures Contents() == if ok then old(Contents())[key := val] else old(Contents())
      ensures AddEffect(old(View()), View(), Entry(key, val), canResize, d.iterators == 0)
      ensures ok && IsRehashing() ==> key in model.m1
      // the newest entry of a bucket comes first
      ensures ok ==> exists i :: AtHead(d, Entry(key, val), i)
    {
      StepIfRehashing();
      var index;
      ok, index := KeyIndex(key, canResize);
      if ok {
        LinkEntry(Entry(key, val), index);
      }
    }

    /** `dictFind` */
    method Find(key: Key) returns (r: Option<V>)
      requires Valid()
      modifies this
      ensures Valid() && d.iterators == old(d.iterators) && Contents() == old(Contents())
      ensures r == if key in Contents() then Some(Contents()[key]) else None
      ensures Stepped(old(View()), View(), d.iterators == 0)
    {
      if d.ht0.buckets == [] {
        return None;
      }
      StepIfRehashing();
      var found, inNew, i, j := Locate(key);
      if !found {
        return None;
      }
      AtValue(View(), inNew, i, j, key);
      return Some(if inNew then d.ht1.buckets[i][j].val else d.ht0.buckets[i][j].val);
    }

    /** `dictGenericDelete` */
    method Delete(key: Key) returns (ok: bool)
      requires Valid()
      modifies this
      ensures Valid() && d.iterators == old(d.iterators)
      ensures ok <==> key in old(Contents())
      ensures Contents() == old(Contents()) - {key}
      ensures DeleteEffect(old(View()), View(), key, d.iterators == 0)
    {
      hide Stepped, DeleteEffect, Unlinked, FieldsOk, StateOf, At;
      ghost var s, idle := View(), d.iterators == 0;
      FieldsState(d, model);
      if d.ht0.buckets == [] {
        NoTable(d, model);
        NothingToStep(s, idle);
        DeletedNothing(s, s, key, idle);
        return false;
      }
      StepIfRehashing();
      var found, inNew, i, j := Locate(key);
      ghost var g := View();
      FieldsState(d, model);
      if !found {
        DeletedNothing(s, g, key, idle);
        return false;
      }
      DeletedOne(s, g, inNew, i, j, key, idle);
      UnlinkEntry(inNew, i, j, key);
      return true;
    }

    /** `dictReplace`: 1 when the key is new, 0 when its value was overwritten. */
    method Replace(key: Key, val: V, canResize: bool) returns (added: bool)
      requires Valid() && |Contents()| * 2 <= MAX_SIZE
      modifies this
      ensures Valid() && d.iterators == old(d.iterators)
      ensures added <==> key !in old(Contents())
      ensures Contents() == old(Contents())[key := val]
    {
      added := Add(key, val, canResize);
      if added {
        return;
      }
      StepIfRehashing();
      var found, inNew, i, j := Locate(key);
      SetEntry(inNew, i, j, key, val);
    }

    /** `dictScan`: the entries passed to the callback and the next cursor. */
    method Scan(cursor: Hash) returns (v: Word, emitted: seq<Entry<V>>)
      requires Valid()
      ensures |v| == WIDTH && v == Next(View(), cursor)
      ensures emitted == Emitted(View(), cursor)
    {
      if d.ht0.used + d.ht1.used == 0 {
        return Zeros(WIDTH), [];
      }
      SizesOrdered(View());
      if !IsRehashing() {
        v, emitted := ScanOne(d.ht0, cursor, model.bits0);
      } else {
        var t0, t1 := d.ht0, d.ht1;
        if |t0.buckets| > |t1.buckets| {
          t0, t1 := d.ht1, d.ht0;
        }
        v, emitted := ScanTwo(t0, t1, cursor, SmallBits(View()), LargeBits(View()));
      }
    }
  }

  /** The entry comes first in bucket i of the table that new entries go to. */
  ghost predicate AtHead<V>(d: Fields<V>, e: Entry<V>, i: nat) {
    var b := if d.rehashidx != -1 then d.ht1.buckets else d.ht0.buckets;
    i < |b| && b[i] != [] && b[i][0] == e
  }

  /** An entry at the head of a bucket of `ht[1]`. */
  function WithNew<V>(d: Fields<V>, e: Entry<V>, i: nat): Fields<V>
    requires i < |d.ht1.buckets|
  {
    d.(ht1 := d.ht1.(buckets := d.ht1.buckets[i := [e] + d.ht1.buckets[i]], used := d.ht1.used + 1))
  }

  /** An entry at the head of a bucket of `ht[0]`. */
  function WithOld<V>(d: Fields<V>, e: Entry<V>, i: nat): Fields<V>
    requires i < |d.ht0.buckets|
  {
    d.(ht0 := d.ht0.(buckets := d.ht0.buckets[i := [e] + d.ht0.buckets[i]], used := d.ht0.used + 1))
  }

  lemma LinkedNew<V>(d: Fields<V>, model: Model<V>, e: Entry<V>, i: nat)
    requires FieldsOk(d, model) && d.ht0.buckets != [] && e.key !in StateOf(d, model).Contents() && d.rehashidx != -1
    requires i == Index(e.key.hash, model.bits1)
    ensures i < |d.ht1.buckets|
    ensures AtHead(WithNew(d, e, i), e, i)
    ensures FieldsOk(WithNew(d, e, i), model.(m1 := model.m1[e.key := e.val]))
    ensures StateOf(WithNew(d, e, i), model.(m1 := model.m1[e.key := e.val])) == Linked(StateOf(d, model), e, i)
  {
    LinkedOk(StateOf(d, model), e, i);
    MapAdd(model.m1, e.key, e.val);
    hide StateOk;
    assert StateOf(WithNew(d, e, i), model.(m1 := model.m1[e.key := e.val])) == Linked(StateOf(d, model), e, i);
  }

  lemma LinkedOld<V>(d: Fields<V>, model: Model<V>, e: Entry<V>, i: nat)
    requires FieldsOk(d, model) && d.ht0.buckets != [] && e.key !in StateOf(d, model).Contents() && d.rehashidx == -1
    requires i == Index(e.key.hash, model.bits0)
    ensures i < |d.ht0.buckets|
    ensures AtHead(WithOld(d, e, i), e, i)
    ensures FieldsOk(WithOld(d, e, i), model.(m0 := model.m0[e.key := e.val]))
    ensures StateOf(WithOld(d, e, i), model.(m0 := model.m0[e.key := e.val])) == Linked(StateOf(d, model), e, i)
  {
    LinkedOk(StateOf(d, model), e, i);
    MapAdd(model.m0, e.key, e.val);
    hide StateOk;
    assert StateOf(WithOld(d, e, i), model.(m0 := model.m0[e.key := e.val])) == Linked(StateOf(d, model), e, i);
  }

  /** An entry of `ht[1]` unlinked. */
  function WithoutNew<V>(d: Fields<V>, i: nat, j: nat): Fields<V>
    requires i < |d.ht1.buckets| && j < |d.ht1.buckets[i]| && d.ht1.used > 0
  {
    d.(ht1 := d.ht1.(buckets := d.ht1.buckets[i := Unlink(d.ht1.buckets[i], j)], used := d.ht1.used - 1))
  }

  /** An entry of `ht[0]` unlinked. */
  function WithoutOld<V>(d: Fields<V>, i: nat, j: nat): Fields<V>
    requires i < |d.ht0.buckets| && j < |d.ht0.buckets[i]| && d.ht0.used > 0
  {
    d.(ht0 := d.ht0.(buckets := d.ht0.buckets[i := Unlink(d.ht0.buckets[i], j)], used := d.ht0.used - 1))
  }

  lemma UnlinkedNew<V>(d: Fields<V>, model: Model<V>, i: nat, j: nat, key: Key)
    requires FieldsOk(d, model) && d.ht0.buckets != [] && At(StateOf(d, model), true, i, j, key)
    ensures i < |d.ht1.buckets| && j < |d.ht1.buckets[i]| && d.ht1.used > 0
    ensures FieldsOk(WithoutNew(d, i, j), model.(m1 := model.m1 - {key}))
    ensures StateOf(WithoutNew(d, i, j), model.(m1 := model.m1 - {key})) == Unlinked(StateOf(d, model), true, i, j)
  {
    UnlinkedOk(StateOf(d, model), true, i, j, key);
    MapDrop(model.m1, key);
    hide StateOk;
    assert StateOf(WithoutNew(d, i, j), model.(m1 := model.m1 - {key})) == Unlinked(StateOf(d, model), true, i, j);
  }

  lemma UnlinkedOld<V>(d: Fields<V>, model: Model<V>, i: nat, j: nat, key: Key)
    requires FieldsOk(d, model) && d.ht0.buckets != [] && At(StateOf(d, model), false, i, j, key)
    ensures i < |d.ht0.buckets| && j < |d.ht0.buckets[i]| && d.ht0.used > 0
    ensures FieldsOk(WithoutOld(d, i, j), model.(m0 := model.m0 - {key}))
    ensures StateOf(WithoutOld(d, i, j), model.(m0 := model.m0 - {key})) == Unlinked(StateOf(d, model), false, i, j)
  {
    UnlinkedOk(StateOf(d, model), false, i, j, key);
    MapDrop(model.m0, key);
    hide StateOk;
    assert StateOf(WithoutOld(d, i, j), model.(m0 := model.m0 - {key})) == Unlinked(StateOf(d, model), false, i, j);
  }

  lemma FieldsState<V>(d: Fields<V>, model: Model<V>)
    requires FieldsOk(d, model)
    ensures StateOk(StateOf(d, model))
  {
  }

  lemma NoTable<V>(d: Fields<V>, model: Model<V>)
    requires FieldsOk(d, model) && d.ht0.buckets == []
    ensures !StateOf(d, model).Rehashing() && StateOf(d, model).Contents() == map[]
  {
  }

  /** A call on a single table. */
  method ScanOne<V>(t: Table<V>, cursor: Hash, ghost k: nat) returns (v: Word, emitted: seq<Entry<V>>)
    requires k <= WIDTH && |t.buckets| == Pow2(k) && t.sizemask == Mask(WIDTH, k)
    ensures v == NextCursor(cursor, k)
    ensures emitted == Gather(t.buckets, [Index(cursor, k)])
  {
    IndexIsMasked(cursor, k);
    emitted := t.buckets[Val(And(cursor, t.sizemask))];
    GatherOne(t.buckets, Index(cursor, k));
    v := StepCursor(cursor, t.sizemask, k);
  }

  /** A call on two tables, `t0` the smaller. */
  method ScanTwo<V>(t0: Table<V>, t1: Table<V>, cursor: Hash, ghost k0: nat, ghost k1: nat)
      returns (v: Word, emitted: seq<Entry<V>>)
    requires k0 <= k1 <= WIDTH && |t0.buckets| == Pow2(k0) && |t1.buckets| == Pow2(k1)
    requires t0.sizemask == Mask(WIDTH, k0) && t1.sizemask == Mask(WIDTH, k1)
    ensures v == NextCursor(cursor, k0)
    ensures emitted == Gather(t0.buckets, [Index(cursor, k0)]) + Gather(t1.buckets, Expansions(cursor, k0, k1))
  {
    IndexIsMasked(cursor, k0);
    emitted := t0.buckets[Val(And(cursor, t0.sizemask))];
    GatherOne(t0.buckets, Index(cursor, k0));
    var more;
    v, more := ScanExpansions(t1.buckets, cursor, t0.sizemask, t1.sizemask, k0, k1);
    emitted := emitted + more;
    NextCursorShape(v, k0);
    NextCursorShape(cursor, k0);
    v := StepCursor(v, t0.sizemask, k0);
  }

  lemma GatherOne<V>(t: seq<Chain<V>>, i: nat)
    requires i < |t|
    ensures Gather(t, [i]) == t[i]
  {
    assert [i][1..] == [];
    assert Gather(t, []) == [];
  }

  lemma PowersOfTwo()
    ensures Pow2(2) == 4 && PowerBits(4) == 2
  {
    assert Pow2(2) == 2 * Pow2(1) && Pow2(1) == 2 * Pow2(0);
  }

  lemma InitialSizeFits()
    ensures DICT_HT_INITIAL_SIZE <= MAX_SIZE
  {
    Pow2Mono(2, WIDTH - 2);
    assert Pow2(2) == 2 * Pow2(1) && Pow2(1) == 2 * Pow2(0);
  }

  /** The chain walk of a lookup. */
  method FindInChain<V>(c: Chain<V>, key: Key) returns (j: nat, found: bool)
    ensures found <==> key in ChainMap(c)
    ensures found ==> j < |c| && c[j].key == key
  {
    j := 0;
    while j < |c| && c[j].key != key
      invariant j <= |c| && forall l :: 0 <= l < j ==> c[l].key != key
    {
      j := j + 1;
    }
    found := j < |c|;
    ChainHas(c, key);
  }

  /** The `do ... while` loop over the expansions of the cursor in the larger table. */
  method ScanExpansions<V>(t1: seq<Chain<V>>, v0: Hash, m0: Word, m1: Word, ghost k0: nat, ghost k1: nat)
      returns (v: Word, emitted: seq<Entry<V>>)
    requires k0 <= k1 <= WIDTH && |t1| == Pow2(k1)
    requires m0 == Mask(WIDTH, k0) && m1 == Mask(WIDTH, k1)
    ensures |v| == WIDTH && v[..k0] == v0[..k0]
    ensures emitted == Gather(t1, Expansions(v0, k0, k1))
  {
    v, emitted := v0, [];
    var again := true;
    ghost var left := Expansions(v0, k0, k1);
    while again
      invariant |v| == WIDTH && v[..k0] == v0[..k0]
      invariant again ==> left == Expansions(v, k0, k1)
      invariant !again ==> left == []
      invariant emitted + Gather(t1, left) == Gather(t1, Expansions(v0, k0, k1))
      decreases |left|
    {
      AndMask(v, k1);
      NextExpansionHighBits(v, k0, k1);
      emitted := emitted + t1[Val(And(v, m1))];
      left := left[1..];
      v := Or(And(Inc(Or(v, m0)), Not(m0)), And(v, m0));
      again := And(v, Xor(m0, m1)) != Zeros(WIDTH);
    }
  }

  /** `v |= ~m0; v = rev(v); v++; v = rev(v);` */
  method StepCursor(v0: Word, m0: Word, ghost k: nat) returns (v: Word)
    requires |v0| == WIDTH && k <= WIDTH && m0 == Mask(WIDTH, k)
    ensures v == NextCursor(v0, k)
  {
    v := Or(v0, Not(m0));
    v := Rev(v);
    v := Inc(v);
    v := Rev(v);
  }

  /** `d->ht[0] = d->ht[1]; _dictReset(&d->ht[1]); d->rehashidx = -1;` */
  function Switched<V>(d: Fields<V>): Fields<V> {
    d.(ht0 := d.ht1, ht1 := Table([], Zeros(WIDTH), 0), rehashidx := -1)
  }

  ghost function SwitchedModel<V>(m: Model<V>): Model<V> {
    Model(m.bits1, m.m1, m.bits1, map[])
  }

  lemma FinishOk<V>(s: State<V>, x: Fields<V>, m: Model<V>)
    requires FieldsOk(x, m) && x.rehashidx != -1 && x.ht0.used == 0
    requires Migrated(s, StateOf(x, m))
    ensures FieldsOk(Switched(x), SwitchedModel(m))
    ensures Finished(s, StateOf(Switched(x), SwitchedModel(m)))
  {
    assert m.m0 == map[];
  }

  function Max(a: nat, b: nat): nat {
    if a < b then b else a
  }

  /** The inner loop of `dictRehash`: every entry of bucket `i` goes to the head of its bucket in `ht[1]`. */
  method MoveChain<V>(ht0: Table<V>, ht1: Table<V>, i: nat, ghost s: State<V>)
      returns (a: Table<V>, b: Table<V>, ghost g: State<V>)
    requires BothOk(s) && s.t0 == ht0.buckets && s.t1 == ht1.buckets && i < |s.t0|
    requires TableFieldsOk(ht0, s.bits0, s.m0) && TableFieldsOk(ht1, s.bits1, s.m1)
    ensures PartlyMoved(s, g, i, [])
    ensures a.buckets == s.t0 && b.buckets == g.t1
    ensures TableFieldsOk(a, g.bits0, g.m0) && TableFieldsOk(b, g.bits1, g.m1)
  {
    a, b, g := ht0, ht1, s;
    var de := a.buckets[i];
    while de != []
      invariant a.buckets == s.t0 && b.buckets == g.t1
      invariant PartlyMoved(s, g, i, de)
      invariant TableFieldsOk(a, g.bits0, g.m0) && TableFieldsOk(b, g.bits1, g.m1)
      decreases |de|
    {
      var e := de[0];
      var h := Val(And(e.key.hash, b.sizemask));
      IndexIsMasked(e.key.hash, s.bits1);
      MovePreserves(s, g, i, de, h);
      g := Moved(g, i, h);
      b := b.(buckets := b.buckets[h := [e] + b.buckets[h]], used := b.used + 1);
      a := a.(used := a.used - 1);
      de := de[1..];
    }
  }

  /** One iteration of `dictRehash` on a non-empty bucket. */
  method MigrateBucket<V(!new)>(d: Fields<V>, ghost model: Model<V>) returns (d': Fields<V>, ghost model': Model<V>)
    requires FieldsOk(d, model) && 0 <= d.rehashidx < |d.ht0.buckets|
    ensures FieldsOk(d', model') && d'.iterators == d.iterators && d'.rehashidx == d.rehashidx + 1
    ensures Migrated(StateOf(d, model), StateOf(d', model'))
  {
    ghost var s := StateOf(d, model);
    ghost var g;
    var a, b;
    var i := d.rehashidx;
    a, b, g := MoveChain(d.ht0, d.ht1, i, s);
    MoveFinishes(s, g, i);
    d' := Fields(a.(buckets := a.buckets[i := []]), b, i + 1, d.iterators);
    model' := model.(m0 := g.m0, m1 := g.m1);
    assert StateOf(d', model') == g.(rehashidx := i + 1);
  }

  /** Skips empty buckets, at most `emptyVisits` of them; `stop` says that the visits ran out. */
  method SkipEmptyBuckets<V(!new)>(d0: Fields<V>, ghost model: Model<V>, emptyVisits0: int)
      returns (d: Fields<V>, emptyVisits: int, stop: bool)
    requires FieldsOk(d0, model) && d0.rehashidx != -1 && d0.ht0.used != 0
    ensures d == d0.(rehashidx := d.rehashidx) && FieldsOk(d, model)
    ensures Migrated(StateOf(d0, model), StateOf(d, model))
    ensures 0 <= d0.rehashidx <= d.rehashidx < |d.ht0.buckets|
    ensures forall j :: d0.rehashidx <= j < d.rehashidx ==> d.ht0.buckets[j] == []
    ensures emptyVisits == emptyVisits0 - (d.rehashidx - d0.rehashidx)
    ensures if stop then emptyVisits == 0
            else d.ht0.buckets[d.rehashidx] != [] && (emptyVisits0 > 0 ==> emptyVisits > 0)
  {
    ghost var w := NonEmptyBucket(d0.ht0.buckets, model.bits0, model.m0);
    d, emptyVisits, stop := d0, emptyVisits0, false;
    while !stop && d.ht0.buckets[d.rehashidx] == []
      invariant d == d0.(rehashidx := d.rehashidx)
      invariant d0.rehashidx <= d.rehashidx <= w < |d.ht0.buckets|
      invariant emptyVisits == emptyVisits0 - (d.rehashidx - d0.rehashidx)
      invariant if stop then emptyVisits == 0 else emptyVisits0 > 0 ==> emptyVisits > 0
      invariant forall j :: d0.rehashidx <= j < d.rehashidx ==> d.ht0.buckets[j] == []
      invariant d.ht0.buckets[w] != []
      decreases w + 1 - d.rehashidx
    {
      d := d.(rehashidx := d.rehashidx + 1);
      emptyVisits := emptyVisits - 1;
      stop := emptyVisits == 0;
    }
    SkipEmpty(StateOf(d0, model), d.rehashidx);
  }

  /** The first half of an iteration of the main loop of `dictRehash`, `i` of `n` being left. */
  method SkipOnward<V(!new)>(d0: Fields<V>, ghost model: Model<V>, emptyVisits0: int, ghost s: State<V>, ghost n: nat,
          ghost i: nat)
      returns (d: Fields<V>, emptyVisits: int, stop: bool)
    requires FieldsOk(d0, model) && d0.rehashidx != -1 && d0.ht0.used != 0
    requires Migrated(s, StateOf(d0, model)) && i > 0 && n > 0
    requires Walked(s.t0, s.rehashidx, d0.rehashidx, n, i, emptyVisits0)
    ensures FieldsOk(d, model) && d.rehashidx != -1 && d.iterators == d0.iterators && d.ht0 == d0.ht0
    ensures 0 <= d.rehashidx < |d.ht0.buckets| && Migrated(s, StateOf(d, model))
    ensures if stop then WorkDone(s.t0, s.rehashidx, d.rehashidx, n, true)
            else Walked(s.t0, s.rehashidx, d.rehashidx + 1, n, i - 1, emptyVisits)
  {
    ghost var g := StateOf(d0, model);
    WalkOpen(s.t0, s.rehashidx, d0.rehashidx, n, i, emptyVisits0);
    Aligned(d0, model);
    hide *;
    d, emptyVisits, stop := SkipEmptyBuckets(d0, model, emptyVisits0);
    MigratedTransitive(s, g, StateOf(d, model));
    WalkOn(s, g, d.rehashidx, n, i, emptyVisits0);
  }

  lemma Aligned<V>(d: Fields<V>, model: Model<V>)
    ensures StateOf(d, model).t0 == d.ht0.buckets && StateOf(d, model).rehashidx == d.rehashidx
  {
  }

  /** One iteration of the main loop of `dictRehash`, `i` of `n` being left; `stop` says that it returns. */
  method RehashOne<V(!new)>(d0: Fields<V>, ghost model0: Model<V>, emptyVisits0: int, ghost s: State<V>, ghost n: nat,
          ghost i: nat)
      returns (d: Fields<V>, ghost model: Model<V>, emptyVisits: int, stop: bool)
    requires FieldsOk(d0, model0) && d0.rehashidx != -1 && d0.ht0.used != 0
    requires Migrated(s, StateOf(d0, model0)) && i > 0 && n > 0
    requires Walked(s.t0, s.rehashidx, d0.rehashidx, n, i, emptyVisits0)
    ensures FieldsOk(d, model) && d.rehashidx != -1 && d.iterators == d0.iterators
    ensures Migrated(s, StateOf(d, model)) && (stop ==> d.ht0.used != 0)
    ensures if stop then WorkDone(s.t0, s.rehashidx, d.rehashidx, n, true)
            else Walked(s.t0, s.rehashidx, d.rehashidx, n, i - 1, emptyVisits)
  {
    hide *;
    d, emptyVisits, stop := SkipOnward(d0, model0, emptyVisits0, s, n, i);
    model := model0;
    if stop {
      return;
    }
    ghost var g := StateOf(d, model);
    d, model := MigrateBucket(d, model);
    MigratedTransitive(s, g, StateOf(d, model));
  }

  /** The main loop of `dictRehash`, on a rehash in progress; `stop` says that it returned early. */
  method RehashLoop<V(!new)>(d0: Fields<V>, ghost model0: Model<V>, n: nat)
      returns (d: Fields<V>, ghost model: Model<V>, stop: bool)
    requires FieldsOk(d0, model0) && d0.rehashidx != -1
    ensures FieldsOk(d, model) && d.iterators == d0.iterators && d.rehashidx != -1
    ensures Migrated(StateOf(d0, model0), StateOf(d, model)) && (stop ==> d.ht0.used != 0)
    ensures WorkDone(d0.ht0.buckets, d0.rehashidx, d.rehashidx, n, d.ht0.used != 0)
  {
    d, model, stop := d0, model0, false;
    var emptyVisits := n * 10;
    ghost var s := StateOf(d, model);
    NothingBelow(s);
    WalkStarts(s.t0, s.rehashidx, n);
    var i := n;
    hide Walked, WorkDone, FieldsOk;
    while i > 0 && d.ht0.used != 0
      invariant !stop && 0 <= i <= n
      invariant FieldsOk(d, model) && d.rehashidx != -1 && d.iterators == d0.iterators
      invariant Migrated(s, StateOf(d, model))
      invariant Walked(s.t0, s.rehashidx, d.rehashidx, n, i, emptyVisits)
      decreases i
    {
      d, model, emptyVisits, stop := RehashOne(d, model, emptyVisits, s, n, i);
      if stop {
        return;
      }
      i := i - 1;
    }
    WalkEnds(s.t0, s.rehashidx, d.rehashidx, n, i, emptyVisits, d.ht0.used != 0);
  }

  lemma SameSize(a: nat, b: nat)
    ensures Pow2(a) == Pow2(b) <==> a == b
  {
    if a < b {
      Pow2Mono(a + 1, b);
    } else if b < a {
      Pow2Mono(b + 1, a);
    }
  }
}
