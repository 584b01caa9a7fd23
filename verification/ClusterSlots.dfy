/** The slots of cluster.c as they are stored: a table of owners, and in each node a bitmap of 2048 bytes and a
    count, updated slot by slot. */
module ClusterSlots {
  import opened Options
  import opened Bytes
  import opened ClusterNode

  const BYTES: nat := SLOTS / 8

  // ---------------------------------------------------------------- bitmaps

  type Bitmap = b: seq<bv8> | |b| == BYTES witness seq(BYTES, _ => 0)

  predicate TestIn(x: bv8, k: nat)
    requires k < 8
  {
    x & OneBit(k) != 0
  }

  function SetIn(x: bv8, k: nat): bv8
    requires k < 8
  {
    x | OneBit(k)
  }

  function ClearIn(x: bv8, k: nat): bv8
    requires k < 8
  {
    x & !OneBit(k)
  }

  lemma TestInByte(x: bv8, i: nat, k: nat)
    requires i < 8 && k < 8
    ensures TestIn(SetIn(x, i), k) <==> i == k || TestIn(x, k)
    ensures TestIn(ClearIn(x, i), k) <==> i != k && TestIn(x, k)
  {
  }

  /** `bitmapTestBit` */
  predicate TestBit(b: Bitmap, pos: nat)
    requires pos < SLOTS
  {
    TestIn(b[pos / 8], pos % 8)
  }

  /** `bitmapSetBit` */
  function SetBit(b: Bitmap, pos: nat): Bitmap
    requires pos < SLOTS
  {
    b[pos / 8 := SetIn(b[pos / 8], pos % 8)]
  }

  /** `bitmapClearBit` */
  function ClearBit(b: Bitmap, pos: nat): Bitmap
    requires pos < SLOTS
  {
    b[pos / 8 := ClearIn(b[pos / 8], pos % 8)]
  }

  /** Eight slots to a byte, the first of them in the lowest bit. */
  lemma BitOfSlot(b: Bitmap, pos: nat)
    requires pos < SLOTS
    ensures TestBit(b, pos) <==> (b[pos / 8] >> (pos % 8) as bv4) & 1 == 1
  {
    ShiftedBit(b[pos / 8], pos % 8);
  }

  lemma ShiftedBit(x: bv8, k: nat)
    requires k < 8
    ensures TestIn(x, k) <==> (x >> k as bv4) & 1 == 1
  {
  }

  lemma SamePosition(pos: nat, k: nat)
    ensures pos == k <==> pos / 8 == k / 8 && pos % 8 == k % 8
  {
  }

  /** A bit set or cleared changes no other. */
  lemma TestAfterSet(b: Bitmap, pos: nat, k: nat)
    requires pos < SLOTS && k < SLOTS
    ensures TestBit(SetBit(b, pos), k) <==> k == pos || TestBit(b, k)
    ensures TestBit(ClearBit(b, pos), k) <==> k != pos && TestBit(b, k)
  {
    hide TestIn, SetIn, ClearIn;
    SamePosition(pos, k);
    TestInByte(b[pos / 8], pos % 8, k % 8);
  }

  /** The slots of a bitmap. */
  function Bits(b: Bitmap): set<nat> { set j: nat | j < SLOTS && TestBit(b, j) }

  lemma InBits(b: Bitmap, j: nat)
    requires j < SLOTS
    ensures j in Bits(b) <==> TestBit(b, j)
  {
  }

  lemma BitsAfterSet(b: Bitmap, pos: nat)
    requires pos < SLOTS
    ensures Bits(SetBit(b, pos)) == Bits(b) + {pos}
    ensures Bits(ClearBit(b, pos)) == Bits(b) - {pos}
  {
    forall k: nat | k < SLOTS
      ensures TestBit(SetBit(b, pos), k) <==> k == pos || TestBit(b, k)
      ensures TestBit(ClearBit(b, pos), k) <==> k != pos && TestBit(b, k)
    {
      TestAfterSet(b, pos, k);
    }
  }

  // ---------------------------------------------------------------- the table

  /** What a `clusterNode` knows of its slots. */
  datatype Served = Served(bitmap: Bitmap, numslots: nat)

  datatype Table = Table(slots: seq<Option<Id>>, served: map<Id, Served>)

  /** The bitmap of node i holds the slots the table gives it, and its count is their number. */
  ghost predicate ServedOk(t: Table, i: Id)
    requires i in t.served && |t.slots| == SLOTS
  {
    && t.served[i].numslots == |Bits(t.served[i].bitmap)|
    && forall j: nat :: j < SLOTS ==> (TestBit(t.served[i].bitmap, j) <==> t.slots[j] == Some(i))
  }

  ghost predicate Coherent(t: Table) {
    && |t.slots| == SLOTS
    && (forall j :: 0 <= j < SLOTS && t.slots[j].Some? ==> t.slots[j].value in t.served)
    && (forall i :: i in t.served ==> ServedOk(t, i))
  }

  lemma ServedBits(t: Table, i: Id)
    requires Coherent(t) && i in t.served
    ensures Bits(t.served[i].bitmap) == set j | 0 <= j < SLOTS && t.slots[j] == Some(i)
  {
    assert ServedOk(t, i);
  }

  /** `clusterNodeClearSlotBit` */
  method ClearSlotBit(n: Served, slot: nat) returns (r: Served, wasSet: bool)
    requires slot < SLOTS && n.numslots == |Bits(n.bitmap)|
    ensures wasSet == TestBit(n.bitmap, slot)
    ensures r.bitmap == ClearBit(n.bitmap, slot) && r.numslots == |Bits(r.bitmap)|
  {
    wasSet := TestBit(n.bitmap, slot);
    BitsAfterSet(n.bitmap, slot);
    r := n.(bitmap := ClearBit(n.bitmap, slot));
    if wasSet {
      assert slot in Bits(n.bitmap);
      r := r.(numslots := n.numslots - 1);
    } else {
      assert Bits(n.bitmap) - {slot} == Bits(n.bitmap);
    }
  }

  /** `clusterNodeSetSlotBit` */
  method SetSlotBit(n: Served, slot: nat) returns (r: Served, wasSet: bool)
    requires slot < SLOTS && n.numslots == |Bits(n.bitmap)|
    ensures wasSet == TestBit(n.bitmap, slot)
    ensures r.bitmap == SetBit(n.bitmap, slot) && r.numslots == |Bits(r.bitmap)|
  {
    wasSet := TestBit(n.bitmap, slot);
    BitsAfterSet(n.bitmap, slot);
    r := n.(bitmap := SetBit(n.bitmap, slot));
    if !wasSet {
      assert slot !in Bits(n.bitmap);
      r := r.(numslots := n.numslots + 1);
    } else {
      assert Bits(n.bitmap) + {slot} == Bits(n.bitmap);
    }
  }

  lemma ClearedOk(t: Table, slot: nat, s: Served)
    requires Coherent(t) && slot < SLOTS && t.slots[slot].Some?
    requires s.bitmap == ClearBit(t.served[t.slots[slot].value].bitmap, slot) && s.numslots == |Bits(s.bitmap)|
    ensures Coherent(Table(t.slots[slot := None], t.served[t.slots[slot].value := s]))
  {
    var i := t.slots[slot].value;
    var r := Table(t.slots[slot := None], t.served[i := s]);
    forall k | k in r.served ensures ServedOk(r, k) {
      assert ServedOk(t, k);
      forall j: nat | j < SLOTS ensures TestBit(r.served[k].bitmap, j) <==> r.slots[j] == Some(k) {
        if k == i {
          TestAfterSet(t.served[i].bitmap, slot, j);
        }
      }
    }
  }

  lemma SetOk(t: Table, slot: nat, i: Id, s: Served)
    requires Coherent(t) && slot < SLOTS && t.slots[slot].None? && i in t.served
    requires s.bitmap == SetBit(t.served[i].bitmap, slot) && s.numslots == |Bits(s.bitmap)|
    ensures Coherent(Table(t.slots[slot := Some(i)], t.served[i := s]))
  {
    var r := Table(t.slots[slot := Some(i)], t.served[i := s]);
    forall k | k in r.served ensures ServedOk(r, k) {
      assert ServedOk(t, k);
      forall j: nat | j < SLOTS ensures TestBit(r.served[k].bitmap, j) <==> r.slots[j] == Some(k) {
        if k == i {
          TestAfterSet(t.served[i].bitmap, slot, j);
        }
      }
    }
  }

  /** `clusterDelSlot`: the bit it clears was set. */
  method DelSlot(t: Table, slot: nat) returns (r: Table, ok: bool)
    requires Coherent(t) && slot < SLOTS
    ensures Coherent(r) && r.served.Keys == t.served.Keys
    ensures ok == t.slots[slot].Some? && r.slots == t.slots[slot := None]
  {
    r, ok := t, t.slots[slot].Some?;
    if ok {
      var i := t.slots[slot].value;
      assert ServedOk(t, i);
      var s, was := ClearSlotBit(t.served[i], slot);
      assert was;
      ClearedOk(t, slot, s);
      r := Table(t.slots[slot := None], t.served[i := s]);
    }
  }

  /** `clusterAddSlot` */
  method AddSlot(t: Table, i: Id, slot: nat) returns (r: Table, ok: bool)
    requires Coherent(t) && slot < SLOTS && i in t.served
    ensures Coherent(r) && r.served.Keys == t.served.Keys
    ensures ok == t.slots[slot].None? && r.slots == if ok then t.slots[slot := Some(i)] else t.slots
  {
    r, ok := t, t.slots[slot].None?;
    if ok {
      assert ServedOk(t, i);
      var s, was := SetSlotBit(t.served[i], slot);
      SetOk(t, slot, i, s);
      r := Table(t.slots[slot := Some(i)], t.served[i := s]);
    }
  }

  lemma BitIsOwner(t: Table, i: Id, j: nat)
    requires Coherent(t) && i in t.served && j < SLOTS
    ensures |t.slots| == SLOTS && (TestBit(t.served[i].bitmap, j) <==> t.slots[j] == Some(i))
  {
    assert ServedOk(t, i);
  }

  lemma TableLength(t: Table)
    requires Coherent(t)
    ensures |t.slots| == SLOTS
  {
  }

  // ---------------------------------------------------------------- loops over the slots

  /** The loop of `clusterUpdateSlotsConfigWith`; `keys` counts the keys in each slot. */
  method RebindLoop(n: Node, t0: Table, s: Id, epoch: nat, claim: Bitmap, keys: seq<nat>)
    returns (t: Table, taken: bool, dirty: seq<nat>)
    requires Coherent(t0) && t0.slots == n.owner && t0.served.Keys == n.peers.Keys && |keys| == SLOTS
    requires s in n.peers && n.peers[s].master && s != n.id
    ensures Coherent(t) && t.served.Keys == t0.served.Keys
    ensures t.slots == Rebound(n, s, epoch, Bits(claim)).owner
    ensures taken == TakesFromMaster(n, s, epoch, Bits(claim))
    ensures forall j: nat :: j in dirty <==>
      j < SLOTS && Rebinds(n, s, epoch, Bits(claim), j) && n.owner[j] == Some(n.id) && keys[j] > 0
  {
    hide Coherent, TestBit, Bits;
    t, taken, dirty := t0, false, [];
    var m := CurrentMaster(n);
    ghost var goal := Rebound(n, s, epoch, Bits(claim)).owner;
    var j := 0;
    while j < SLOTS
      invariant j <= SLOTS
      invariant Coherent(t) && t.served.Keys == t0.served.Keys && |t.slots| == SLOTS
      invariant forall k :: 0 <= k < SLOTS ==> t.slots[k] == if k < j then goal[k] else n.owner[k]
      invariant taken <==> exists k :: 0 <= k < j && Rebinds(n, s, epoch, Bits(claim), k) && n.owner[k] == Some(m)
      invariant forall k: nat :: k in dirty <==>
        k < j && Rebinds(n, s, epoch, Bits(claim), k) && n.owner[k] == Some(n.id) && keys[k] > 0
    {
      InBits(claim, j);
      if TestBit(claim, j) && t.slots[j] != Some(s) && j !in n.importing
         && (t.slots[j].None? || n.peers[t.slots[j].value].configEpoch < epoch)
      {
        assert Rebinds(n, s, epoch, Bits(claim), j);
        if t.slots[j] == Some(n.id) && keys[j] > 0 {
          dirty := dirty + [j];
        }
        if t.slots[j] == Some(m) {
          taken := true;
        }
        var ok;
        t, ok := DelSlot(t, j);
        t, ok := AddSlot(t, s, j);
        assert ok;
      } else {
        assert !Rebinds(n, s, epoch, Bits(claim), j);
      }
      j := j + 1;
    }
    assert t.slots == goal;
  }

  /** `clusterDelNodeSlots` */
  method DelSlotsLoop(t0: Table, i: Id) returns (t: Table)
    requires Coherent(t0) && i in t0.served
    ensures Coherent(t) && t.served.Keys == t0.served.Keys && |t.slots| == |t0.slots| == SLOTS
    ensures forall k :: 0 <= k < SLOTS ==> t.slots[k] == if t0.slots[k] == Some(i) then None else t0.slots[k]
  {
    hide Coherent, TestBit;
    TableLength(t0);
    t := t0;
    var j := 0;
    while j < SLOTS
      invariant j <= SLOTS
      invariant Coherent(t) && t.served.Keys == t0.served.Keys && |t.slots| == SLOTS
      invariant forall k :: 0 <= k < SLOTS ==>
        t.slots[k] == if k < j && t0.slots[k] == Some(i) then None else t0.slots[k]
    {
      BitIsOwner(t, i, j);
      if TestBit(t.served[i].bitmap, j) {
        var ok;
        t, ok := DelSlot(t, j);
      }
      j := j + 1;
    }
  }

  /** The loop of `clusterFailoverReplaceYourMaster`. */
  method TakeOverLoop(t0: Table, i: Id, m: Id) returns (t: Table)
    requires Coherent(t0) && i in t0.served && m in t0.served && i != m
    ensures Coherent(t) && t.served.Keys == t0.served.Keys && |t.slots| == |t0.slots| == SLOTS
    ensures forall k :: 0 <= k < SLOTS ==> t.slots[k] == if t0.slots[k] == Some(m) then Some(i) else t0.slots[k]
  {
    hide Coherent, TestBit;
    TableLength(t0);
    t := t0;
    var j := 0;
    while j < SLOTS
      invariant j <= SLOTS
      invariant Coherent(t) && t.served.Keys == t0.served.Keys && |t.slots| == SLOTS
      invariant forall k :: 0 <= k < SLOTS ==>
        t.slots[k] == if k < j && t0.slots[k] == Some(m) then Some(i) else t0.slots[k]
    {
      BitIsOwner(t, m, j);
      if TestBit(t.served[m].bitmap, j) {
        var ok;
        t, ok := DelSlot(t, j);
        t, ok := AddSlot(t, i, j);
        assert ok;
      }
      j := j + 1;
    }
  }

  /** A node that serves nothing can leave the table. */
  lemma LeaveOk(t: Table, i: Id)
    requires Coherent(t) && forall j :: 0 <= j < SLOTS ==> t.slots[j] != Some(i)
    ensures Coherent(t.(served := t.served - {i}))
  {
    var r := t.(served := t.served - {i});
    forall k | k in r.served ensures ServedOk(r, k) {
      assert ServedOk(t, k);
    }
  }

  /** The count of a node says whether it serves a slot. */
  lemma CountsSlots(t: Table, n: Node, i: Id)
    requires Coherent(t) && t.slots == n.owner && i in t.served
    ensures t.served[i].numslots == |Claimed(n, i)|
    ensures t.served[i].numslots == 0 <==> Claimed(n, i) == {}
  {
    ServedBits(t, i);
    assert ServedOk(t, i);
    assert Bits(t.served[i].bitmap) == Claimed(n, i);
  }

  /** `clusterSetMaster` on a claim that emptied the master of this node; `ok` is false when an assertion fails. A claim
      of the node itself was discarded, so it is the second one that may: a slave that serves a slot itself. */
  method Demote(n: Node, t: Table, s: Id) returns (r: Node, ok: bool)
    requires Coherent(t) && t.slots == n.owner && t.served.Keys == n.peers.Keys && s in n.peers
    ensures ok <==> s != n.id && Claimed(n, n.id) == {}
    ensures ok ==> r == SetMaster(n, s)
  {
    CountsSlots(t, n, n.id);
    r, ok := n, s != n.id && t.served[n.id].numslots == 0;
    if ok {
      r := SetMaster(n, s);
    }
  }

  /** `clusterUpdateSlotsConfigWith`, but for a claim of the node itself: the new view and table, and the slots whose
      keys are to be deleted. */
  method ApplyClaim(n: Node, t0: Table, s: Id, epoch: nat, claim: Bitmap, keys: seq<nat>)
    returns (r: Node, t: Table, dirty: seq<nat>, ok: bool)
    requires Coherent(t0) && t0.slots == n.owner && t0.served.Keys == n.peers.Keys && |keys| == SLOTS
    requires s in n.peers && n.peers[s].master && s != n.id
    ensures ok <==> !ClaimAborts(n, s, epoch, Bits(claim))
    ensures ok ==> Coherent(t) && t.slots == r.owner && t.served.Keys == r.peers.Keys
    ensures ok ==> r == UpdateSlots(n, s, epoch, Bits(claim))
    ensures ok ==> forall j: nat :: j in dirty <==>
      Self(r) == Self(n) && j < SLOTS && Rebinds(n, s, epoch, Bits(claim), j) && n.owner[j] == Some(n.id) && keys[j] > 0
  {
    hide Coherent, Bits, TestBit;
    var taken;
    t, taken, dirty := RebindLoop(n, t0, s, epoch, claim, keys);
    r, ok := n.(owner := t.slots), true;
    assert r == Rebound(n, s, epoch, Bits(claim));
    CountsSlots(t, r, CurrentMaster(n));
    if taken && t.served[CurrentMaster(n)].numslots == 0 {
      r, ok := Demote(r, t, s);
      dirty := [];
    }
  }

  // ---------------------------------------------------------------- the state of a node

  /** The view of a node and the bitmaps beside it. */
  class ClusterState {
    var me: Node
    var served: map<Id, Served>

    ghost predicate Valid()
      reads this
    {
      Coherent(Table(me.owner, served)) && served.Keys == me.peers.Keys
    }

    /** A node that knows only itself. */
    constructor (id: Id)
      ensures Valid() && me == Alone(id)
    {
      me := Alone(id);
      served := map[id := Served(seq(BYTES, _ => 0), 0)];
      new;
      assert forall j: nat :: j < SLOTS ==> !TestBit(served[id].bitmap, j);
      assert Bits(served[id].bitmap) == {};
      assert ServedOk(Table(me.owner, served), id);
    }

    /** `clusterUpdateSlotsConfigWith` */
    method UpdateSlotsConfigWith(s: Id, epoch: nat, claim: Bitmap, keys: seq<nat>) returns (dirty: seq<nat>, ok: bool)
      requires Valid() && s in me.peers && me.peers[s].master && |keys| == SLOTS
      modifies this
      ensures ok <==> !ClaimAborts(old(me), s, epoch, Bits(claim))
      ensures ok ==> Valid() && me == UpdateSlots(old(me), s, epoch, Bits(claim))
      ensures ok ==> forall j: nat :: j in dirty <==>
        && s != me.id && Self(me) == Self(old(me)) && j < SLOTS
        && Rebinds(old(me), s, epoch, Bits(claim), j) && old(me).owner[j] == Some(me.id) && keys[j] > 0
    {
      if s == me.id {
        return [], true;
      }
      hide Coherent, Bits, TestBit, UpdateSlots, Rebinds, ClaimAborts;
      var n, t;
      n, t, dirty, ok := ApplyClaim(me, Table(me.owner, served), s, epoch, claim, keys);
      if ok {
        me, served := n, t.served;
        assert t == Table(me.owner, served);
      }
    }

    /** `clusterDelNodeSlots` */
    method DeleteNodeSlots(i: Id)
      requires Valid() && i in me.peers
      modifies this
      ensures Valid() && me == DelNodeSlots(old(me), i)
    {
      hide Coherent;
      var t := DelSlotsLoop(Table(me.owner, served), i);
      me, served := me.(owner := t.slots), t.served;
      assert t == Table(me.owner, served);
    }

    /** `clusterFailoverReplaceYourMaster`, of a slave. */
    method ReplaceYourMaster()
      requires Valid() && !Self(me).master
      modifies this
      ensures Valid() && me == ReplaceMaster(old(me))
    {
      hide Coherent;
      var t := TakeOverLoop(Table(me.owner, served), me.id, Self(me).slaveof.value);
      me, served := SetAsMaster(me, me.id).(owner := t.slots), t.served;
      assert t == Table(me.owner, served);
    }

    /** `clusterDelNode` */
    method DeleteNode(i: Id)
      requires Valid() && i in me.peers && i != me.id && Self(me).slaveof != Some(i)
      modifies this
      ensures Valid() && me == DelNode(old(me), i)
    {
      hide Coherent;
      var t := DelSlotsLoop(Table(me.owner, served), i);
      LeaveOk(t, i);
      var n := DelNode(me, i);
      assert n.owner == t.slots;
      me, served := n, t.served - {i};
      assert t.(served := t.served - {i}) == Table(me.owner, served);
    }
  }
}
