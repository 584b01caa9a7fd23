/** The hash table of dict.c as a value: two chained tables of power-of-two size, the second one present while
    an incremental rehash is under way. */
module DictState {
  import opened Basics
  import opened Words

  type Hash = w: Word | |w| == WIDTH witness Zeros(WIDTH)

  /** A key with the value the hash function gives it. */
  datatype Key = Key(name: string, hash: Hash)

  datatype Entry<+V> = Entry(key: Key, val: V)

  type Chain<+V> = seq<Entry<V>>

  /** `t0` and `t1` are the bucket arrays of `ht[0]` and `ht[1]`, empty for a NULL table; `m0` and `m1` are the
      maps they hold. */
  datatype State<V> = State(
    t0: seq<Chain<V>>, bits0: nat, m0: map<Key, V>,
    t1: seq<Chain<V>>, bits1: nat, m1: map<Key, V>,
    rehashidx: int)
  {
    predicate Rehashing() { rehashidx != -1 }

    function Contents(): map<Key, V> { m0 + m1 }
  }

  /** The bucket of a hash: its low `bits` bits. */
  function Index(h: Hash, bits: nat): (i: nat)
    requires bits <= WIDTH
  {
    Val(h[..bits])
  }

  /** `hash & (2^bits - 1)` */
  lemma IndexIsMasked(h: Hash, bits: nat)
    requires bits <= WIDTH
    ensures Val(And(h, Mask(WIDTH, bits))) == Index(h, bits) < Pow2(bits)
  {
    AndMask(h, bits);
  }

  // ---------------------------------------------------------------- chains

  function ChainMap<V>(c: Chain<V>): map<Key, V> {
    if c == [] then map[] else ChainMap(c[1..])[c[0].key := c[0].val]
  }

  predicate Distinct<V>(c: Chain<V>) {
    c == [] || (c[0].key !in ChainMap(c[1..]) && Distinct(c[1..]))
  }

  lemma {:induction false} ChainHas<V>(c: Chain<V>, k: Key)
    ensures k in ChainMap(c) <==> exists e :: e in c && e.key == k
  {
    if c != [] {
      ChainHas(c[1..], k);
      if c[0].key == k {
        assert c[0] in c;
      }
      if e :| e in c && e.key == k {
        assert e == c[0] || e in c[1..];
      }
    }
  }

  lemma {:induction false} ChainValue<V>(c: Chain<V>, e: Entry<V>)
    requires Distinct(c) && e in c
    ensures e.key in ChainMap(c) && ChainMap(c)[e.key] == e.val
  {
    ChainHas(c, e.key);
    if e != c[0] {
      ChainValue(c[1..], e);
      ChainHas(c[1..], c[0].key);
    } else if e in c[1..] {
      ChainHas(c[1..], c[0].key);
    }
  }

  /** Unlinking the entry at position `j`. */
  function Unlink<V>(c: Chain<V>, j: nat): Chain<V>
    requires j < |c|
  {
    c[..j] + c[j + 1..]
  }

  lemma {:induction false} UnlinkMap<V>(c: Chain<V>, j: nat)
    requires j < |c| && Distinct(c)
    ensures Distinct(Unlink(c, j))
    ensures ChainMap(Unlink(c, j)) == ChainMap(c) - {c[j].key}
  {
    if j == 0 {
      assert Unlink(c, 0) == c[1..];
    } else {
      var d, k := Unlink(c, j), c[j].key;
      UnlinkMap(c[1..], j - 1);
      assert d[0] == c[0] && d[1..] == Unlink(c[1..], j - 1);
      assert k in ChainMap(c[1..]) by {
        assert c[j] in c[1..];
        ChainHas(c[1..], k);
      }
      UpdateThenRemove(ChainMap(c[1..]), k, c[0].key, c[0].val);
    }
  }

  lemma UpdateThenRemove<V>(m: map<Key, V>, k: Key, k0: Key, v0: V)
    requires k != k0
    ensures (m - {k})[k0 := v0] == m[k0 := v0] - {k}
  {
  }

  // ---------------------------------------------------------------- one table

  /** The bindings of `m` whose key belongs in bucket `i`. */
  ghost function Part<V>(m: map<Key, V>, bits: nat, i: nat): map<Key, V>
    requires bits <= WIDTH
  {
    map k | k in m && Index(k.hash, bits) == i :: m[k]
  }

  /** Bucket `i` holds its part of `m`, each key once, and nothing else. */
  ghost predicate BucketOk<V>(t: seq<Chain<V>>, bits: nat, m: map<Key, V>, i: nat)
    requires bits <= WIDTH && i < |t|
  {
    Distinct(t[i]) && ChainMap(t[i]) == Part(m, bits, i)
  }

  ghost predicate TableOk<V>(t: seq<Chain<V>>, bits: nat, m: map<Key, V>) {
    && bits < WIDTH
    && |t| == Pow2(bits)
    && forall i {:trigger BucketOk(t, bits, m, i)} :: 0 <= i < |t| ==> BucketOk(t, bits, m, i)
  }

  lemma TableFind<V>(t: seq<Chain<V>>, bits: nat, m: map<Key, V>, k: Key)
    requires TableOk(t, bits, m)
    ensures Index(k.hash, bits) < |t|
    ensures k in m <==> k in ChainMap(t[Index(k.hash, bits)])
    ensures k in m ==> m[k] == ChainMap(t[Index(k.hash, bits)])[k]
  {
    IndexIsMasked(k.hash, bits);
    assert BucketOk(t, bits, m, Index(k.hash, bits));
  }

  /** Changing one bucket and the bindings that belong in it. */
  lemma TableChange<V>(t: seq<Chain<V>>, bits: nat, m: map<Key, V>,
                                i: nat, c: Chain<V>, m': map<Key, V>)
    requires TableOk(t, bits, m) && i < |t|
    requires Distinct(c) && ChainMap(c) == Part(m', bits, i)
    requires forall k: Key :: Index(k.hash, bits) != i ==> (k in m <==> k in m') && (k in m ==> m[k] == m'[k])
    ensures TableOk(t[i := c], bits, m')
  {
    var t' := t[i := c];
    forall j | 0 <= j < |t'|
      ensures BucketOk(t', bits, m', j)
    {
      assert BucketOk(t, bits, m, j);
      if j != i {
        assert Part(m', bits, j) == Part(m, bits, j);
      }
    }
  }

  lemma TableLink<V>(t: seq<Chain<V>>, bits: nat, m: map<Key, V>, e: Entry<V>)
    requires TableOk(t, bits, m) && e.key !in m
    ensures var i := Index(e.key.hash, bits);
            i < |t| && TableOk(t[i := [e] + t[i]], bits, m[e.key := e.val])
  {
    TableFind(t, bits, m, e.key);
    var i := Index(e.key.hash, bits);
    var c, m' := [e] + t[i], m[e.key := e.val];
    assert BucketOk(t, bits, m, i);
    assert c[1..] == t[i];
    assert Part(m', bits, i) == Part(m, bits, i)[e.key := e.val];
    TableChange(t, bits, m, i, c, m');
  }

  lemma TableUnlink<V>(t: seq<Chain<V>>, bits: nat, m: map<Key, V>, i: nat, j: nat)
    requires TableOk(t, bits, m) && i < |t| && j < |t[i]|
    ensures TableOk(t[i := Unlink(t[i], j)], bits, m - {t[i][j].key})
    ensures t[i][j].key in m && m[t[i][j].key] == t[i][j].val && Index(t[i][j].key.hash, bits) == i
  {
    var e := t[i][j];
    assert BucketOk(t, bits, m, i);
    ChainValue(t[i], e);
    assert e.key in Part(m, bits, i);
    UnlinkMap(t[i], j);
    var m' := m - {e.key};
    assert Part(m', bits, i) == Part(m, bits, i) - {e.key};
    TableChange(t, bits, m, i, Unlink(t[i], j), m');
  }

  lemma TableUpdate<V>(t: seq<Chain<V>>, bits: nat, m: map<Key, V>, i: nat, j: nat, v: V)
    requires TableOk(t, bits, m) && i < |t| && j < |t[i]|
    ensures var k := t[i][j].key;
            k in m && TableOk(t[i := t[i][j := Entry(k, v)]], bits, m[k := v])
  {
    var k := t[i][j].key;
    assert BucketOk(t, bits, m, i);
    ChainValue(t[i], t[i][j]);
    assert k in Part(m, bits, i);
    ChainUpdate(t[i], j, v);
    assert Part(m[k := v], bits, i) == Part(m, bits, i)[k := v];
    TableChange(t, bits, m, i, t[i][j := Entry(k, v)], m[k := v]);
  }

  lemma {:induction false} ChainUpdate<V>(c: Chain<V>, j: nat, v: V)
    requires j < |c| && Distinct(c)
    ensures Distinct(c[j := Entry(c[j].key, v)])
    ensures ChainMap(c[j := Entry(c[j].key, v)]) == ChainMap(c)[c[j].key := v]
  {
    var d := c[j := Entry(c[j].key, v)];
    if j == 0 {
      assert d[1..] == c[1..];
    } else {
      ChainUpdate(c[1..], j - 1, v);
      assert d[1..] == c[1..][j - 1 := Entry(c[j].key, v)];
      assert c[j] in c[1..];
      ChainHas(c[1..], c[j].key);
    }
  }

  lemma EmptyTable<V>(bits: nat)
    requires bits < WIDTH
    ensures TableOk<V>(EmptyBuckets(Pow2(bits)), bits, map[])
  {
  }

  /** A table that still holds a key has a non-empty bucket for it. */
  lemma NonEmptyBucket<V>(t: seq<Chain<V>>, bits: nat, m: map<Key, V>) returns (i: nat)
    requires TableOk(t, bits, m) && |m| > 0
    ensures i < |t| && t[i] != []
  {
    var k :| k in m;
    TableFind(t, bits, m, k);
    i := Index(k.hash, bits);
  }

  // ---------------------------------------------------------------- the two tables together

  ghost predicate StateOk<V>(s: State<V>) {
    && s.rehashidx >= -1
    && (s.t0 == [] ==> s.m0 == map[] && s.rehashidx == -1)
    && (s.t0 != [] ==> TableOk(s.t0, s.bits0, s.m0))
    && (!s.Rehashing() ==> s.t1 == [] && s.m1 == map[])
    && (s.Rehashing() ==>
          && TableOk(s.t1, s.bits1, s.m1)
          && s.m0.Keys !! s.m1.Keys
          && s.bits0 != s.bits1
          && s.rehashidx <= |s.t0|
          && forall i :: 0 <= i < s.rehashidx ==> s.t0[i] == [])
  }

  /** The exponent of `_dictNextPower(size)`: the least power of two from 4 upwards that is at least `size`. */
  function PowerBits(size: nat, k: nat := 2): (b: nat)
    ensures k <= b && size <= Pow2(b)
    ensures b > k ==> Pow2(b - 1) < size
    decreases if Pow2(k) >= size then 0 else size - Pow2(k)
  {
    if Pow2(k) >= size then k else PowerBits(size, k + 1)
  }

  function EmptyBuckets<V>(size: nat): (t: seq<Chain<V>>)
    ensures |t| == size
  {
    seq(size, _ => [])
  }

  /** The first table, or the start of a rehash into an empty second table. */
  function Expanded<V>(s: State<V>, bits: nat): State<V> {
    if s.t0 == [] then s.(t0 := EmptyBuckets(Pow2(bits)), bits0 := bits)
    else s.(t1 := EmptyBuckets(Pow2(bits)), bits1 := bits, m1 := map[], rehashidx := 0)
  }

  lemma ExpandedOk<V>(s: State<V>, bits: nat)
    requires StateOk(s) && !s.Rehashing() && bits < WIDTH
    requires s.t0 != [] ==> bits != s.bits0
    ensures StateOk(Expanded(s, bits)) && Expanded(s, bits).Contents() == s.Contents()
  {
    EmptyTable<V>(bits);
  }

  const DICT_HT_INITIAL_SIZE: nat := 4
  const DICT_FORCE_RESIZE_RATIO: nat := 5

  /** `_dictExpandIfNeeded`: the first table at the first insertion; after that a rehash into a table for twice the
      keys, once there are as many keys as buckets and resizing is allowed or the ratio is past the safe one. */
  ghost function Grown<V>(s: State<V>, canResize: bool): State<V> {
    if s.Rehashing() then s
    else if s.t0 == [] then Expanded(s, PowerBits(DICT_HT_INITIAL_SIZE))
    else if |s.m0| >= |s.t0| && (canResize || |s.m0| / |s.t0| > DICT_FORCE_RESIZE_RATIO) then
      Expanded(s, PowerBits(|s.m0| * 2))
    else s
  }

  // ---------------------------------------------------------------- migration

  /** Two tables of a rehash, without the bookkeeping. */
  ghost predicate BothOk<V>(s: State<V>) {
    && TableOk(s.t0, s.bits0, s.m0)
    && TableOk(s.t1, s.bits1, s.m1)
    && s.m0.Keys !! s.m1.Keys
  }

  /** The first entry of bucket `i` of the old table, moved to the head of bucket `h` of the new one. */
  function Moved<V>(s: State<V>, i: nat, h: nat): State<V>
    requires i < |s.t0| && s.t0[i] != [] && h < |s.t1|
  {
    var e := s.t0[i][0];
    s.(t0 := s.t0[i := s.t0[i][1..]], m0 := s.m0 - {e.key},
       t1 := s.t1[h := [e] + s.t1[h]], m1 := s.m1[e.key := e.val])
  }

  lemma MovedOk<V>(s: State<V>, i: nat, h: nat)
    requires BothOk(s) && i < |s.t0| && s.t0[i] != [] && h == Index(s.t0[i][0].key.hash, s.bits1)
    ensures h < |s.t1| && BothOk(Moved(s, i, h))
    ensures s.t0[i][0].key in s.m0 && s.t0[i][0].key !in s.m1
    ensures s.m0[s.t0[i][0].key] == s.t0[i][0].val && Index(s.t0[i][0].key.hash, s.bits0) == i
  {
    TableUnlink(s.t0, s.bits0, s.m0, i, 0);
    assert Unlink(s.t0[i], 0) == s.t0[i][1..];
    TableLink(s.t1, s.bits1, s.m1, s.t0[i][0]);
  }

  lemma MapMove<V>(m0: map<Key, V>, m1: map<Key, V>, k: Key)
    requires k in m0 && k !in m1
    ensures |m0 - {k}| == |m0| - 1
    ensures |m1[k := m0[k]]| == |m1| + 1
    ensures (m0 - {k}) + m1[k := m0[k]] == m0 + m1
  {
    MapDrop(m0, k);
    MapAdd(m1, k, m0[k]);
  }

  lemma MapDrop<V>(m: map<Key, V>, k: Key)
    requires k in m
    ensures |m - {k}| == |m| - 1
  {
    assert (m - {k}).Keys == m.Keys - {k};
  }

  lemma MapAdd<V>(m: map<Key, V>, k: Key, v: V)
    requires k !in m
    ensures |m[k := v]| == |m| + 1
  {
    assert m[k := v].Keys == m.Keys + {k};
  }

  /** What some migration steps that do not finish the rehash do: the buckets from the old index up to the new
      one have moved, the others are untouched. */
  ghost predicate Migrated<V>(s: State<V>, s': State<V>) {
    && s.Rehashing() && s'.Rehashing()
    && s.bits0 == s'.bits0 <= WIDTH && s.bits1 == s'.bits1
    && 0 <= s.rehashidx <= s'.rehashidx <= |s.t0| == |s'.t0|
    && (forall j {:trigger s'.t0[j]} :: s'.rehashidx <= j < |s.t0| ==> s'.t0[j] == s.t0[j])
    && (forall k :: k in s'.m0 <==> k in s.m0 && Index(k.hash, s.bits0) >= s'.rehashidx)
    && (forall k :: k in s'.m0 ==> s'.m0[k] == s.m0[k])
    && s'.Contents() == s.Contents()
  }

  /** `g` is `s` with part of bucket `i` moved. */
  ghost predicate PartlyMoved<V>(s: State<V>, g: State<V>, i: nat, de: Chain<V>)
  {
    && BothOk(g)
    && i < |s.t0| && g.t0 == s.t0[i := de]
    && g.bits0 == s.bits0 && g.bits1 == s.bits1 && g.rehashidx == s.rehashidx
    && g.Contents() == s.Contents()
    && (forall k :: k in g.m0 ==> k in s.m0 && g.m0[k] == s.m0[k])
    && (forall k :: k in s.m0 && Index(k.hash, s.bits0) != i ==> k in g.m0)
  }

  lemma MovePreserves<V>(s: State<V>, g: State<V>, i: nat, de: Chain<V>, h: nat)
    requires PartlyMoved(s, g, i, de) && de != [] && h == Index(de[0].key.hash, s.bits1)
    ensures h < |g.t1| && PartlyMoved(s, Moved(g, i, h), i, de[1..])
    ensures |Moved(g, i, h).m0| == |g.m0| - 1 && |Moved(g, i, h).m1| == |g.m1| + 1
  {
    MovedOk(g, i, h);
    MapMove(g.m0, g.m1, de[0].key);
    assert g.t0[i := de[1..]] == s.t0[i := de[1..]];
  }

  lemma MoveFinishes<V>(s: State<V>, g: State<V>, i: nat)
    requires StateOk(s) && s.rehashidx == i && PartlyMoved(s, g, i, [])
    ensures StateOk(g.(rehashidx := i + 1)) && Migrated(s, g.(rehashidx := i + 1))
  {
    var s' := g.(rehashidx := i + 1);
    NothingBelow(s);
    NothingBelow(s');
  }

  /** The old table of a rehash holds nothing below the index. */
  lemma NothingBelow<V>(s: State<V>)
    requires StateOk(s) && s.Rehashing()
    ensures Migrated(s, s)
  {
    forall k | k in s.m0
      ensures Index(k.hash, s.bits0) >= s.rehashidx
    {
      TableFind(s.t0, s.bits0, s.m0, k);
    }
  }

  /** Stepping over empty buckets is migration too. */
  lemma SkipEmpty<V>(s: State<V>, i: int)
    requires StateOk(s) && s.Rehashing() && s.rehashidx <= i <= |s.t0|
    requires forall j :: s.rehashidx <= j < i ==> s.t0[j] == []
    ensures StateOk(s.(rehashidx := i)) && Migrated(s, s.(rehashidx := i))
  {
    NothingBelow(s.(rehashidx := i));
  }

  lemma MigratedTransitive<V>(s: State<V>, g: State<V>, g': State<V>)
    requires Migrated(s, g) && Migrated(g, g')
    ensures Migrated(s, g')
  {
  }

  lemma BusySkipped<V>(s: State<V>, g: State<V>, hi: int)
    requires Migrated(s, g) && g.rehashidx <= hi <= |g.t0|
    requires forall j :: g.rehashidx <= j < hi ==> g.t0[j] == []
    ensures Busy(s.t0, s.rehashidx, hi) == Busy(s.t0, s.rehashidx, g.rehashidx)
  {
    forall j | g.rehashidx <= j < hi
      ensures s.t0[j] == []
    {
      assert g.t0[j] == s.t0[j];
    }
    BusyNone(s.t0, s.rehashidx, g.rehashidx, hi);
  }

  /** The rehash is over: the new table has become the only one, with everything in it. */
  ghost predicate Finished<V>(s: State<V>, s': State<V>) {
    && !s'.Rehashing()
    && s'.bits0 == s.bits1 && s'.t0 != [] && s'.m0 == s.Contents() && s'.m1 == map[]
  }

  /** How many of the buckets from `lo` up to `hi` hold something. */
  function Busy<V>(t: seq<Chain<V>>, lo: int, hi: int): (b: nat)
    requires 0 <= lo <= hi <= |t|
    ensures b <= hi - lo
    decreases hi - lo
  {
    if lo == hi then 0 else Busy(t, lo, hi - 1) + if t[hi - 1] == [] then 0 else 1
  }

  lemma {:induction false} BusyNone<V>(t: seq<Chain<V>>, lo: int, mid: int, hi: int)
    requires 0 <= lo <= mid <= hi <= |t| && forall j :: mid <= j < hi ==> t[j] == []
    ensures Busy(t, lo, hi) == Busy(t, lo, mid)
    decreases hi
  {
    if mid < hi {
      BusyNone(t, lo, mid, hi - 1);
    }
  }

  /** The buckets one call of `dictRehash(n)` walks over from `lo` to `hi`: at most `n` with entries and at most
      `10 * n` without, and one of the two limits reached if the call gives up before the end. */
  ghost predicate WorkDone<V>(t: seq<Chain<V>>, lo: int, hi: int, n: nat, gaveUp: bool)
    requires 0 <= lo <= hi <= |t|
  {
    var busy := Busy(t, lo, hi);
    && busy <= n && hi - lo - busy <= 10 * n
    && (gaveUp ==> busy == n || hi - lo - busy == 10 * n)
  }

  /** What `dictRehash(n)` does. */
  ghost predicate RehashEffect<V>(s: State<V>, s': State<V>, n: nat, more: bool) {
    && more == s'.Rehashing()
    && (!s.Rehashing() ==> s' == s)
    && (s.Rehashing() ==>
          if more then s'.m0 != map[] && Migrated(s, s') && WorkDone(s.t0, s.rehashidx, s'.rehashidx, n, true)
          else Finished(s, s') && 0 <= s.rehashidx <= |s.t0| && Busy(s.t0, s.rehashidx, |s.t0|) <= n)
  }

  /** The walk from `lo` to `hi`, with `i` of the `n` buckets and `emptyVisits` of the `10 * n` visits left. */
  ghost predicate Walked<V>(t: seq<Chain<V>>, lo: int, hi: int, n: nat, i: nat, emptyVisits: int)
    requires 0 <= lo <= hi <= |t|
  {
    && i <= n && Busy(t, lo, hi) == n - i && hi - lo - (n - i) == 10 * n - emptyVisits
    && if n > 0 then emptyVisits > 0 else emptyVisits == 0
  }

  lemma WalkStarts<V>(t: seq<Chain<V>>, lo: int, n: nat)
    requires 0 <= lo <= |t|
    ensures Walked(t, lo, lo, n, n, 10 * n)
  {
  }

  lemma WalkOpen<V>(t: seq<Chain<V>>, lo: int, hi: int, n: nat, i: nat, emptyVisits: int)
    requires 0 <= lo <= hi <= |t| && n > 0 && Walked(t, lo, hi, n, i, emptyVisits)
    ensures emptyVisits > 0
  {
  }

  lemma WalkEnds<V>(t: seq<Chain<V>>, lo: int, hi: int, n: nat, i: nat, emptyVisits: int, gaveUp: bool)
    requires 0 <= lo <= hi <= |t| && Walked(t, lo, hi, n, i, emptyVisits) && (gaveUp ==> i == 0)
    ensures WorkDone(t, lo, hi, n, gaveUp)
  {
  }

  lemma WalkOn<V>(s: State<V>, g: State<V>, hi: int, n: nat, i: nat, emptyVisits: int)
    requires Migrated(s, g) && Walked(s.t0, s.rehashidx, g.rehashidx, n, i, emptyVisits) && i > 0
    requires g.rehashidx <= hi < |g.t0| && forall j :: g.rehashidx <= j < hi ==> g.t0[j] == []
    ensures emptyVisits == hi - g.rehashidx ==> WorkDone(s.t0, s.rehashidx, hi, n, true)
    ensures emptyVisits > hi - g.rehashidx && g.t0[hi] != [] ==>
      Walked(s.t0, s.rehashidx, hi + 1, n, i - 1, emptyVisits - (hi - g.rehashidx))
  {
    BusySkipped(s, g, hi);
    assert g.t0[hi] == s.t0[hi];
  }

  lemma NotOver<V>(s: State<V>, g: State<V>, n: nat)
    requires g.m0 != map[] && Migrated(s, g) && WorkDone(s.t0, s.rehashidx, g.rehashidx, n, true)
    ensures RehashEffect(s, g, n, true)
  {
  }

  lemma Over<V>(s: State<V>, g: State<V>, s': State<V>, n: nat)
    requires BothOk(g) && g.m0 == map[] && Migrated(s, g) && Finished(s, s')
    requires WorkDone(s.t0, s.rehashidx, g.rehashidx, n, false)
    ensures RehashEffect(s, s', n, false)
  {
    forall j | g.rehashidx <= j < |s.t0|
      ensures s.t0[j] == []
    {
      NoEntries(g.t0, g.bits0, j);
    }
    BusyNone(s.t0, s.rehashidx, g.rehashidx, |s.t0|);
  }

  lemma NoEntries<V>(t: seq<Chain<V>>, bits: nat, j: nat)
    requires TableOk(t, bits, map[]) && j < |t|
    ensures t[j] == []
  {
    if t[j] != [] {
      TableUnlink(t, bits, map[], j, 0);
      assert false;
    }
  }

  /** What `_dictRehashStep` does; `idle` says that no safe iterator is at work. */
  ghost predicate Stepped<V>(s: State<V>, s': State<V>, idle: bool) {
    if idle then RehashEffect(s, s', 1, s'.Rehashing()) else s' == s
  }

  /** A step of a rehash in progress either ends it or brings its end nearer. */
  lemma StepProgress<V>(s: State<V>, s': State<V>)
    requires s.Rehashing() && Stepped(s, s', true) && s'.Rehashing()
    ensures s.rehashidx < s'.rehashidx <= |s.t0| == |s'.t0|
  {
  }

  // ---------------------------------------------------------------- single-key changes

  /** A new entry at the head of its bucket: in the new table during a rehash, in the only one otherwise. */
  function Linked<V>(s: State<V>, e: Entry<V>, i: nat): State<V>
    requires i < if s.Rehashing() then |s.t1| else |s.t0|
  {
    if s.Rehashing() then s.(t1 := s.t1[i := [e] + s.t1[i]], m1 := s.m1[e.key := e.val])
    else s.(t0 := s.t0[i := [e] + s.t0[i]], m0 := s.m0[e.key := e.val])
  }

  lemma LinkedOk<V>(s: State<V>, e: Entry<V>, i: nat)
    requires StateOk(s) && s.t0 != [] && e.key !in s.Contents()
    requires i == Index(e.key.hash, if s.Rehashing() then s.bits1 else s.bits0)
    ensures i < (if s.Rehashing() then |s.t1| else |s.t0|)
    ensures StateOk(Linked(s, e, i)) && Linked(s, e, i).Contents() == s.Contents()[e.key := e.val]
  {
    if s.Rehashing() {
      TableLink(s.t1, s.bits1, s.m1, e);
    } else {
      TableLink(s.t0, s.bits0, s.m0, e);
    }
  }

  /** The bucket a new key goes to: in the new table during a rehash. */
  function SlotIndex<V>(s: State<V>, k: Key): nat
    requires (if s.Rehashing() then s.bits1 else s.bits0) <= WIDTH
  {
    Index(k.hash, if s.Rehashing() then s.bits1 else s.bits0)
  }

  /** What `dictAdd` does: a rehash step, growth if it is due, and the new entry if the key was not there. */
  ghost predicate AddEffect<V(!new)>(s: State<V>, s': State<V>, e: Entry<V>, canResize: bool, idle: bool) {
    exists g: State<V> :: StateOk(g) && Stepped(s, g, idle) && AddedTo(Grown(g, canResize), s', e)
  }

  ghost predicate AddedTo<V>(g: State<V>, s': State<V>, e: Entry<V>) {
    if e.key in g.Contents() then s' == g
    else (if g.Rehashing() then g.bits1 else g.bits0) <= WIDTH &&
         SlotIndex(g, e.key) < (if g.Rehashing() then |g.t1| else |g.t0|) &&
         s' == Linked(g, e, SlotIndex(g, e.key))
  }

  /** What `dictGenericDelete` does: a rehash step, and the entry of the key unlinked if there is one. */
  ghost predicate DeleteEffect<V(!new)>(s: State<V>, s': State<V>, k: Key, idle: bool) {
    exists g: State<V> :: StateOk(g) && Stepped(s, g, idle) && DeletedFrom(g, s', k)
  }

  lemma AddedOne<V>(g: State<V>, e: Entry<V>, i: nat)
    requires (if g.Rehashing() then g.bits1 else g.bits0) <= WIDTH && e.key !in g.Contents() && i == SlotIndex(g, e.key)
    requires i < if g.Rehashing() then |g.t1| else |g.t0|
    ensures AddedTo(g, Linked(g, e, i), e)
  {
  }

  lemma DeletedNothing<V(!new)>(s: State<V>, g: State<V>, k: Key, idle: bool)
    requires StateOk(g) && Stepped(s, g, idle) && k !in g.Contents()
    ensures DeleteEffect(s, g, k, idle)
  {
    hide Stepped;
    assert DeletedFrom(g, g, k);
  }

  lemma DeletedOne<V(!new)>(s: State<V>, g: State<V>, inNew: bool, i: nat, j: nat, k: Key, idle: bool)
    requires StateOk(g) && Stepped(s, g, idle) && At(g, inNew, i, j, k) && k in g.Contents()
    ensures DeleteEffect(s, Unlinked(g, inNew, i, j), k, idle)
  {
    hide Stepped;
    assert DeletedFrom(g, Unlinked(g, inNew, i, j), k);
  }

  lemma NothingToStep<V>(s: State<V>, idle: bool)
    requires !s.Rehashing()
    ensures Stepped(s, s, idle)
  {
  }

  ghost predicate DeletedFrom<V>(g: State<V>, s': State<V>, k: Key) {
    if k in g.Contents() then exists inNew, i, j :: At(g, inNew, i, j, k) && s' == Unlinked(g, inNew, i, j)
    else s' == g
  }

  /** The entry at position `j` of bucket `i` of one of the tables, unlinked. */
  function Unlinked<V>(s: State<V>, inNew: bool, i: nat, j: nat): State<V>
    requires if inNew then i < |s.t1| && j < |s.t1[i]| else i < |s.t0| && j < |s.t0[i]|
  {
    if inNew then s.(t1 := s.t1[i := Unlink(s.t1[i], j)], m1 := s.m1 - {s.t1[i][j].key})
    else s.(t0 := s.t0[i := Unlink(s.t0[i], j)], m0 := s.m0 - {s.t0[i][j].key})
  }

  lemma UnlinkedOk<V>(s: State<V>, inNew: bool, i: nat, j: nat, k: Key)
    requires StateOk(s) && s.t0 != [] && (inNew ==> s.Rehashing())
    requires if inNew then i < |s.t1| && j < |s.t1[i]| && s.t1[i][j].key == k
             else i < |s.t0| && j < |s.t0[i]| && s.t0[i][j].key == k
    ensures StateOk(Unlinked(s, inNew, i, j))
    ensures k in (if inNew then s.m1 else s.m0)
    ensures Unlinked(s, inNew, i, j).Contents() == s.Contents() - {k}
  {
    if inNew {
      TableUnlink(s.t1, s.bits1, s.m1, i, j);
    } else {
      TableUnlink(s.t0, s.bits0, s.m0, i, j);
    }
  }

  /** The value at position `j` of bucket `i` of one of the tables, replaced. */
  function Updated<V>(s: State<V>, inNew: bool, i: nat, j: nat, v: V): State<V>
    requires if inNew then i < |s.t1| && j < |s.t1[i]| else i < |s.t0| && j < |s.t0[i]|
  {
    if inNew then
      var k := s.t1[i][j].key;
      s.(t1 := s.t1[i := s.t1[i][j := Entry(k, v)]], m1 := s.m1[k := v])
    else
      var k := s.t0[i][j].key;
      s.(t0 := s.t0[i := s.t0[i][j := Entry(k, v)]], m0 := s.m0[k := v])
  }

  lemma UpdatedOk<V>(s: State<V>, inNew: bool, i: nat, j: nat, k: Key, v: V)
    requires StateOk(s) && s.t0 != [] && (inNew ==> s.Rehashing())
    requires if inNew then i < |s.t1| && j < |s.t1[i]| && s.t1[i][j].key == k
             else i < |s.t0| && j < |s.t0[i]| && s.t0[i][j].key == k
    ensures StateOk(Updated(s, inNew, i, j, v))
    ensures k in (if inNew then s.m1 else s.m0)
    ensures Updated(s, inNew, i, j, v).Contents() == s.Contents()[k := v]
  {
    if inNew {
      TableUpdate(s.t1, s.bits1, s.m1, i, j, v);
    } else {
      TableUpdate(s.t0, s.bits0, s.m0, i, j, v);
      assert k !in s.m1;
    }
  }

  ghost predicate At<V>(s: State<V>, inNew: bool, i: nat, j: nat, k: Key) {
    && (inNew ==> s.Rehashing())
    && if inNew then i < |s.t1| && j < |s.t1[i]| && s.t1[i][j].key == k
       else i < |s.t0| && j < |s.t0[i]| && s.t0[i][j].key == k
  }

  lemma AtValue<V>(s: State<V>, inNew: bool, i: nat, j: nat, k: Key)
    requires StateOk(s) && s.t0 != [] && At(s, inNew, i, j, k)
    ensures k in s.Contents() && s.Contents()[k] == if inNew then s.t1[i][j].val else s.t0[i][j].val
  {
    if inNew {
      TableUnlink(s.t1, s.bits1, s.m1, i, j);
    } else {
      TableUnlink(s.t0, s.bits0, s.m0, i, j);
      assert k !in s.m1;
    }
  }

  lemma UsedBound<V>(s: State<V>)
    ensures |s.m0| <= |s.Contents()|
  {
    SubsetSize(s.m0.Keys, s.Contents().Keys);
  }

  /** What a rehash step leaves alone: the contents, the presence of a table, and the keys of the new one. */
  lemma StepKeeps<V>(s: State<V>, s': State<V>, n: nat, more: bool)
    requires StateOk(s) && StateOk(s') && RehashEffect(s, s', n, more)
    ensures s'.Contents() == s.Contents()
    ensures s.t0 != [] ==> s'.t0 != []
  {
  }
}
