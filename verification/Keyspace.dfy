/** The keys of a database in cluster mode (db.c): the dictionary, the table of expires and the index of keys
    by slot. */
module Keyspace {
  import opened Options

  /** A key with the slot its name hashes to; names are ordered as their bytes are. */
  datatype Key = Key(name: nat, slot: nat)

  // ---------------------------------------------------------------- the index

  /** The order of the skip list: by score, which is the slot, and then by name. */
  predicate Before(a: Key, b: Key) { a.slot < b.slot || (a.slot == b.slot && a.name < b.name) }

  predicate Ordered(index: seq<Key>) { forall i, j :: 0 <= i < j < |index| ==> Before(index[i], index[j]) }

  function Keys(index: seq<Key>): set<Key> { set k | k in index }

  /** How many keys come before k. */
  function Place(index: seq<Key>, k: Key): (p: nat)
    ensures p <= |index|
    ensures forall i :: 0 <= i < p ==> Before(index[i], k)
    ensures p < |index| ==> !Before(index[p], k)
  {
    if index == [] || !Before(index[0], k) then 0 else 1 + Place(index[1..], k)
  }

  /** `zslInsert` */
  function Inserted(index: seq<Key>, k: Key): seq<Key> {
    var p := Place(index, k);
    index[..p] + [k] + index[p..]
  }

  /** `zslDelete` */
  function Deleted(index: seq<Key>, k: Key): seq<Key> {
    var p := Place(index, k);
    if p < |index| && index[p] == k then index[..p] + index[p + 1..] else index
  }

  lemma KeysOfInserted(index: seq<Key>, k: Key)
    ensures Keys(Inserted(index, k)) == Keys(index) + {k}
  {
    var p := Place(index, k);
    assert index == index[..p] + index[p..];
    forall x ensures x in Inserted(index, k) <==> x in index || x == k {
      assert x in index <==> x in index[..p] || x in index[p..];
    }
  }

  lemma InsertedOrdered(index: seq<Key>, k: Key)
    requires Ordered(index) && k !in Keys(index)
    ensures Ordered(Inserted(index, k))
  {
    var p, r := Place(index, k), Inserted(index, k);
    forall i, j | 0 <= i < j < |r| ensures Before(r[i], r[j]) {
      if j == p {
      } else if i == p {
        assert r[j] == index[j - 1];
        assert index[p] in Keys(index);
        assert Before(k, index[p]);
      }
    }
  }

  lemma {:induction false} PlaceIs(index: seq<Key>, k: Key, p: nat)
    requires p <= |index| && (forall i :: 0 <= i < p ==> Before(index[i], k))
    requires p < |index| ==> !Before(index[p], k)
    ensures Place(index, k) == p
  {
    if p > 0 {
      PlaceIs(index[1..], k, p - 1);
    }
  }

  lemma PlaceOf(index: seq<Key>, i: nat)
    requires Ordered(index) && i < |index|
    ensures Place(index, index[i]) == i
  {
    PlaceIs(index, index[i], i);
  }

  lemma DeletedIs(index: seq<Key>, k: Key)
    requires Ordered(index)
    ensures Ordered(Deleted(index, k)) && Keys(Deleted(index, k)) == Keys(index) - {k}
  {
    var r := Deleted(index, k);
    if k in index {
      var i :| 0 <= i < |index| && index[i] == k;
      PlaceOf(index, i);
      forall x ensures x in r <==> x in index && x != k {
        DeletedMember(index, i, x);
      }
    } else {
      assert r == index;
    }
  }

  lemma Absent(index: seq<Key>, k: Key)
    ensures k !in Keys(index) ==> Deleted(index, k) == index
  {
  }

  lemma DeletedMember(index: seq<Key>, p: nat, x: Key)
    requires Ordered(index) && p < |index|
    ensures x in index[..p] + index[p + 1..] <==> x in index && x != index[p]
  {
    var r := index[..p] + index[p + 1..];
    if x in index && x != index[p] {
      var i :| 0 <= i < |index| && index[i] == x;
      assert r[if i < p then i else i - 1] == x;
    }
    if x in r {
      var i :| 0 <= i < |r| && r[i] == x;
      assert index[if i < p then i else i + 1] == x;
    }
  }

  // ---------------------------------------------------------------- the keys of a slot

  /** How many keys have a smaller slot. */
  function Lower(index: seq<Key>, slot: nat): (p: nat)
    ensures p <= |index|
    ensures forall i :: 0 <= i < p ==> index[i].slot < slot
    ensures p < |index| ==> index[p].slot >= slot
  {
    if index == [] || index[0].slot >= slot then 0 else 1 + Lower(index[1..], slot)
  }

  /** `zslFirstInRange`, as a position. */
  function FirstInSlot(index: seq<Key>, slot: nat): Option<nat> {
    var p := Lower(index, slot);
    if p < |index| && index[p].slot == slot then Some(p) else None
  }

  /** `zslLastInRange`, as a position. */
  function LastInSlot(index: seq<Key>, slot: nat): Option<nat> {
    var p := Lower(index, slot + 1);
    if p > 0 && index[p - 1].slot == slot then Some(p - 1) else None
  }

  function InSlot(keys: set<Key>, slot: nat): set<Key> { set k | k in keys && k.slot == slot }

  lemma {:induction false} LowerMonotone(index: seq<Key>, a: nat, b: nat)
    requires a <= b
    ensures Lower(index, a) <= Lower(index, b)
  {
    if index != [] && index[0].slot < a {
      LowerMonotone(index[1..], a, b);
    }
  }

  lemma SlotsOrdered(index: seq<Key>, slot: nat)
    requires Ordered(index)
    ensures Lower(index, slot) <= Lower(index, slot + 1)
    ensures forall i :: 0 <= i < |index| ==>
      (index[i].slot == slot <==> Lower(index, slot) <= i < Lower(index, slot + 1))
  {
    var p, q := Lower(index, slot), Lower(index, slot + 1);
    LowerMonotone(index, slot, slot + 1);
    forall i | 0 <= i < |index| ensures index[i].slot == slot <==> p <= i < q {
      if i >= q && q < i {
        assert Before(index[q], index[i]);
      }
      if p < i {
        assert Before(index[p], index[i]);
      }
    }
  }

  lemma {:induction false} OrderedSize(index: seq<Key>)
    requires Ordered(index)
    ensures |Keys(index)| == |index|
  {
    if index != [] {
      var front, last := index[..|index| - 1], index[|index| - 1];
      assert index == front + [last];
      OrderedSize(front);
      assert last !in front;
      assert Keys(index) == Keys(front) + {last};
    }
  }

  /** The keys of a slot are the stretch between the two bounds. */
  lemma SlotStretch(index: seq<Key>, slot: nat)
    requires Ordered(index)
    ensures Lower(index, slot) <= Lower(index, slot + 1)
    ensures InSlot(Keys(index), slot) == Keys(index[Lower(index, slot)..Lower(index, slot + 1)])
    ensures |InSlot(Keys(index), slot)| == Lower(index, slot + 1) - Lower(index, slot)
  {
    SlotsOrdered(index, slot);
    var p, q := Lower(index, slot), Lower(index, slot + 1);
    var stretch := index[p..q];
    forall k ensures k in InSlot(Keys(index), slot) <==> k in Keys(stretch) {
      if k in InSlot(Keys(index), slot) {
        var i :| 0 <= i < |index| && index[i] == k;
        assert stretch[i - p] == k;
      }
    }
    assert Ordered(stretch) by {
      forall i, j | 0 <= i < j < |stretch| ensures Before(stretch[i], stretch[j]) {
        assert Before(index[p + i], index[p + j]);
      }
    }
    OrderedSize(stretch);
  }

  lemma NothingListed(index: seq<Key>, slot: nat)
    requires Ordered(index)
    ensures Keys([]) == {} && {} <= InSlot(Keys(index), slot)
    ensures FirstInSlot(index, slot).None? ==> InSlot(Keys(index), slot) == {}
  {
    SlotStretch(index, slot);
    SlotsOrdered(index, slot);
  }

  /** A stretch of the keys of a slot lists different keys of the slot. */
  lemma Listed(index: seq<Key>, p: nat, q: nat, slot: nat)
    requires Ordered(index) && Lower(index, slot) == p <= q <= Lower(index, slot + 1)
    ensures Keys(index[p..q]) <= InSlot(Keys(index), slot) && |Keys(index[p..q])| == q - p
    ensures q == Lower(index, slot + 1) ==> Keys(index[p..q]) == InSlot(Keys(index), slot)
  {
    SlotStretch(index, slot);
    SlotsOrdered(index, slot);
    var part := index[p..q];
    assert Ordered(part) by {
      forall i, j | 0 <= i < j < |part| ensures Before(part[i], part[j]) {
        assert Before(index[p + i], index[p + j]);
      }
    }
    OrderedSize(part);
    forall k | k in part ensures k in index && k.slot == slot {
      var i :| 0 <= i < |part| && part[i] == k;
      assert index[p + i] == k;
    }
  }

  /** Deleting the first key of a slot leaves the next one in its place. */
  lemma NextInPlace(index: seq<Key>, p: nat, slot: nat)
    requires Ordered(index) && p == Lower(index, slot) < |index| && index[p].slot == slot
    ensures Deleted(index, index[p]) == index[..p] + index[p + 1..]
    ensures Lower(Deleted(index, index[p]), slot) == p
  {
    PlaceOf(index, p);
    LowerOf(index[..p] + index[p + 1..], p, slot);
  }

  lemma {:induction false} LowerOf(index: seq<Key>, p: nat, slot: nat)
    requires p <= |index| && (forall i :: 0 <= i < p ==> index[i].slot < slot)
    requires p < |index| ==> index[p].slot >= slot
    ensures Lower(index, slot) == p
  {
    if p > 0 {
      LowerOf(index[1..], p - 1, slot);
    }
  }

  /** No key of the slot is left when the one in its place is of another. */
  lemma NoneLeft(index: seq<Key>, p: nat, slot: nat)
    requires Ordered(index) && p == Lower(index, slot) && (p < |index| ==> index[p].slot != slot)
    ensures InSlot(Keys(index), slot) == {}
  {
    SlotStretch(index, slot);
    SlotsOrdered(index, slot);
  }

  // ---------------------------------------------------------------- the database

  /** The clock and the role of the server when a key is looked up. */
  datatype World = World(now: int, loading: bool, slave: bool)

  /** The index holds exactly the keys, and only keys expire. */
  ghost predicate Agree<V>(dict: map<Key, V>, expires: map<Key, int>, index: seq<Key>) {
    Ordered(index) && Keys(index) == dict.Keys && expires.Keys <= dict.Keys
  }

  /** The tables of `dbDelete`. */
  method DeleteFrom<V>(dict: map<Key, V>, expires: map<Key, int>, index: seq<Key>, key: Key)
    returns (d: map<Key, V>, e: map<Key, int>, i: seq<Key>, deleted: bool)
    requires Agree(dict, expires, index)
    ensures Agree(d, e, i) && deleted == (key in dict)
    ensures d == dict - {key} && e == expires - {key} && i == Deleted(index, key)
  {
    DeletedIs(index, key);
    Absent(index, key);
    NoneToDelete(expires, key);
    NoneToDelete(dict, key);
    hide Ordered, Keys, Deleted;
    d, e, i := dict, expires, index;
    if |expires| > 0 {
      e := e - {key};
    }
    deleted := key in dict;
    if deleted {
      d, i := d - {key}, Deleted(i, key);
    }
  }

  /** Whether a look-up of the key for writing deletes it first: it has expired, and this is a master not loading. */
  predicate Gone(expires: map<Key, int>, key: Key, w: World) {
    key in expires && expires[key] >= 0 && !w.loading && !w.slave && w.now > expires[key]
  }

  class Database<V> {
    var dict: map<Key, V>
    var expires: map<Key, int>
    var index: seq<Key>

    ghost predicate Valid()
      reads this
    {
      Agree(dict, expires, index)
    }

    constructor ()
      ensures Valid() && dict == map[] && expires == map[]
    {
      dict, expires, index := map[], map[], [];
    }

    /** `dbAdd`, of a key that is not there. */
    method DbAdd(key: Key, val: V)
      requires Valid() && key !in dict
      modifies this
      ensures Valid() && dict == old(dict)[key := val] && expires == old(expires)
    {
      InsertedOrdered(index, key);
      KeysOfInserted(index, key);
      dict, index := dict[key := val], Inserted(index, key);
    }

    /** `dbOverwrite`, of a key that is there. */
    method DbOverwrite(key: Key, val: V)
      requires Valid() && key in dict
      modifies this`dict
      ensures Valid() && dict == old(dict)[key := val]
    {
      dict := dict[key := val];
      assert dict.Keys == old(dict).Keys;
    }

    /** `dbDelete` */
    method DbDelete(key: Key) returns (deleted: bool)
      requires Valid()
      modifies this
      ensures Valid() && deleted == (key in old(dict))
      ensures dict == old(dict) - {key} && expires == old(expires) - {key} && index == Deleted(old(index), key)
    {
      hide Agree, Deleted;
      dict, expires, index, deleted := DeleteFrom(dict, expires, index, key);
    }

    /** `getExpire`: -1 when the key does not expire; an expire of a missing key cannot be. */
    method GetExpire(key: Key) returns (when: int)
      requires Valid()
      ensures when == if key in expires then expires[key] else -1
    {
      if key !in expires {
        return -1;
      }
      assert key in dict;
      return expires[key];
    }

    /** `expireIfNeeded`: whether the key is expired; only a master that is not loading deletes it. */
    method ExpireIfNeeded(key: Key, w: World) returns (expired: bool)
      requires Valid()
      modifies this
      ensures Valid()
      ensures var due := key in old(expires) && old(expires)[key] >= 0 && !w.loading && w.now > old(expires)[key];
        && expired == due
        && dict == (if due && !w.slave then old(dict) - {key} else old(dict))
        && expires == (if due && !w.slave then old(expires) - {key} else old(expires))
    {
      var when := GetExpire(key);
      if when < 0 {
        return false;
      }
      if w.loading {
        return false;
      }
      if w.slave {
        return w.now > when;
      }
      if w.now <= when {
        return false;
      }
      expired := DbDelete(key);
    }

    /** `lookupKeyWrite` */
    method LookupKeyWrite(key: Key, w: World) returns (val: Option<V>)
      requires Valid()
      modifies this
      ensures Valid() && val == if key in dict then Some(dict[key]) else None
      ensures dict == if Gone(old(expires), key, w) then old(dict) - {key} else old(dict)
      ensures expires == if Gone(old(expires), key, w) then old(expires) - {key} else old(expires)
    {
      var expired := ExpireIfNeeded(key, w);
      val := if key in dict then Some(dict[key]) else None;
    }

    /** `removeExpire`, of a key that is there. */
    method RemoveExpire(key: Key)
      requires Valid() && key in dict
      modifies this`expires
      ensures Valid() && expires == old(expires) - {key}
    {
      expires := expires - {key};
    }

    /** `setExpire`, of a key that is there. */
    method SetExpire(key: Key, when: int)
      requires Valid() && key in dict
      modifies this`expires
      ensures Valid() && expires == old(expires)[key := when]
    {
      expires := expires[key := when];
    }

    /** `setKey`: the key is there afterwards, with the value and without an expire. */
    method SetKey(key: Key, val: V, w: World)
      requires Valid()
      modifies this
      ensures Valid() && dict == old(dict)[key := val] && expires == old(expires) - {key}
    {
      var found := LookupKeyWrite(key, w);
      if found.None? {
        DbAdd(key, val);
      } else {
        DbOverwrite(key, val);
      }
      assert dict == old(dict)[key := val];
      RemoveExpire(key);
      assert expires == old(expires) - {key};
    }

    /** The end of `renameGenericCommand`. */
    method MoveKey(src: Key, dst: Key, val: V, expire: int)
      requires Valid() && src in dict && dst !in dict
      modifies this
      ensures Valid() && dict == old(dict)[dst := val] - {src}
      ensures expires == (if expire != -1 then old(expires)[dst := expire] else old(expires)) - {src}
    {
      DbAdd(dst, val);
      if expire != -1 {
        SetExpire(dst, expire);
      }
      var deleted := DbDelete(src);
    }

    /** `renameGenericCommand`: nothing between a name and itself, when the source is missing or has expired, or when
        the target is there and must not be; otherwise the value and the expire move to the target, whose own are
        gone. */
    method Rename(src: Key, dst: Key, nx: bool, w: World) returns (done: bool)
      requires Valid()
      modifies this
      ensures Valid()
      ensures done <==>
        && src != dst && src in old(dict) && !Gone(old(expires), src, w)
        && !(nx && dst in old(dict) && !Gone(old(expires), dst, w))
      ensures done ==> dict == old(dict)[dst := old(dict)[src]] - {src}
      ensures done ==> expires == ExpiresRenamed(old(expires), src, dst)
      ensures !done ==> dict == if src != dst && Gone(old(expires), src, w) then old(dict) - {src} else old(dict)
      ensures !done ==>
        expires == if src != dst && Gone(old(expires), src, w) then old(expires) - {src} else old(expires)
    {
      hide Ordered, Keys;
      if src == dst {
        return false;
      }
      var o := LookupKeyWrite(src, w);
      if o.None? {
        return false;
      }
      var expire := GetExpire(src);
      var target := LookupKeyWrite(dst, w);
      if target.Some? {
        if nx {
          return false;
        }
        var deleted := DbDelete(dst);
      }
      TargetFree(old(dict), dict, src, dst, o.value);
      RenamedExpires(old(expires), expires, src, dst, expire);
      MoveKey(src, dst, o.value, expire);
      done := true;
    }

    /** `flushdbCommand`, on the only database. */
    method Flush()
      modifies this
      ensures Valid() && dict == map[] && expires == map[]
    {
      dict, expires, index := map[], map[], [];
    }

    /** `countKeysInSlot`: the arithmetic on ranks counts the keys of the slot. */
    method CountKeysInSlot(slot: nat) returns (count: int)
      requires Valid()
      ensures count == |InSlot(dict.Keys, slot)|
    {
      SlotStretch(index, slot);
      SlotsOrdered(index, slot);
      count := 0;
      var first := FirstInSlot(index, slot);
      if first.Some? {
        var rank := first.value + 1;
        count := |index| - (rank - 1);
        var last := LastInSlot(index, slot);
        if last.Some? {
          rank := last.value + 1;
          count := count - (|index| - rank);
        }
      }
    }

    /** `getKeysInSlot`: at most so many keys of the slot, and all of them when there are no more. */
    method GetKeysInSlot(slot: nat, count: nat) returns (keys: seq<Key>)
      requires Valid()
      ensures Keys(keys) <= InSlot(dict.Keys, slot) && |keys| <= count
      ensures |Keys(keys)| == |keys|
      ensures |keys| == count || Keys(keys) == InSlot(dict.Keys, slot)
    {
      hide Ordered, Keys, InSlot;
      SlotStretch(index, slot);
      SlotsOrdered(index, slot);
      var n, left := FirstInSlot(index, slot), count;
      keys := [];
      NothingListed(index, slot);
      if n.None? {
        return;
      }
      var p := n.value;
      while p < |index| && index[p].slot == slot && left > 0
        invariant n.value <= p <= Lower(index, slot + 1) && left == count - (p - n.value) && keys == index[n.value..p]
      {
        keys, p, left := keys + [index[p]], p + 1, left - 1;
      }
      Listed(index, n.value, p, slot);
    }

    /** `delKeysInSlot`: exactly the keys of the slot go. */
    method DelKeysInSlot(slot: nat) returns (deleted: nat)
      requires Valid()
      modifies this
      ensures Valid()
      ensures dict == old(dict) - InSlot(old(dict).Keys, slot)
      ensures expires == old(expires) - InSlot(old(dict).Keys, slot)
      ensures deleted == |InSlot(old(dict).Keys, slot)|
    {
      hide Ordered, Keys, InSlot, Deleted;
      ghost var doomed := InSlot(dict.Keys, slot);
      ghost var dict0, expires0, index0 := dict, expires, index;
      ghost var gone: set<Key> := {};
      deleted := 0;
      var n := FirstInSlot(index, slot);
      var p := if n.Some? then n.value else |index|;
      NothingGone(dict0, expires0);
      while p < |index| && index[p].slot == slot
        invariant Valid() && (n.Some? ==> p == Lower(index, slot)) && (n.None? ==> p == |index| && index == index0)
        invariant deleted == |gone| && gone !! dict.Keys && Doomed(dict0.Keys, gone, slot)
        invariant dict == dict0 - gone && expires == expires0 - gone
        decreases |dict|
      {
        var key := index[p];
        NextInPlace(index, p, slot);
        IsKey(index, p);
        OneGone(dict0, expires0, gone, key, slot);
        var ok := DbDelete(key);
        deleted, gone := deleted + 1, gone + {key};
      }
      if n.None? {
        NothingListed(index, slot);
      } else {
        NoneLeft(index, p, slot);
      }
      assert dict.Keys == dict0.Keys - gone;
      AllGone(dict0.Keys, dict.Keys, gone, slot);
    }
  }

  lemma NoneToDelete<V>(m: map<Key, V>, key: Key)
    ensures |m| == 0 || key !in m ==> m - {key} == m
    ensures (m - {key}).Keys == m.Keys - {key}
  {
  }

  function ExpiresRenamed(expires: map<Key, int>, src: Key, dst: Key): map<Key, int> {
    (if src in expires && expires[src] != -1 then expires[dst := expires[src]] else expires - {dst}) - {src}
  }

  lemma TargetFree<V>(m: map<Key, V>, m': map<Key, V>, src: Key, dst: Key, v: V)
    requires m' == m - {dst}
    ensures m'[dst := v] - {src} == m[dst := v] - {src}
  {
  }

  lemma RenamedExpires(m: map<Key, int>, m': map<Key, int>, src: Key, dst: Key, expire: int)
    requires src != dst && m' == m - {dst} && expire == if src in m then m[src] else -1
    ensures (if expire != -1 then m'[dst := expire] else m') - {src} == ExpiresRenamed(m, src, dst)
  {
  }

  predicate Doomed(keys: set<Key>, gone: set<Key>, slot: nat) { gone <= InSlot(keys, slot) }

  lemma NothingGone<V>(dict: map<Key, V>, expires: map<Key, int>)
    ensures dict - {} == dict && expires - {} == expires
  {
  }

  lemma IsKey(index: seq<Key>, p: nat)
    requires p < |index|
    ensures index[p] in Keys(index)
  {
  }

  lemma OneGone<V>(dict: map<Key, V>, expires: map<Key, int>, gone: set<Key>, key: Key, slot: nat)
    requires Doomed(dict.Keys, gone, slot) && key in dict && key !in gone && key.slot == slot
    ensures dict - gone - {key} == dict - (gone + {key}) && expires - gone - {key} == expires - (gone + {key})
    ensures Doomed(dict.Keys, gone + {key}, slot) && |gone + {key}| == |gone| + 1
    ensures |dict - gone - {key}| < |dict - gone|
  {
    assert (dict - gone).Keys == (dict - gone - {key}).Keys + {key};
    assert |(dict - gone).Keys| == |(dict - gone - {key}).Keys| + 1;
    assert |(dict - gone).Keys| == |dict - gone| && |(dict - gone - {key}).Keys| == |dict - gone - {key}|;
  }

  lemma AllGone(keys: set<Key>, left: set<Key>, gone: set<Key>, slot: nat)
    requires Doomed(keys, gone, slot) && left == keys - gone && InSlot(left, slot) == {}
    ensures gone == InSlot(keys, slot)
  {
    assert forall k :: k in InSlot(keys, slot) && k !in gone ==> k in InSlot(left, slot);
  }
}
