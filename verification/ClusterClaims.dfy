/** Claims of slots: in whatever order they arrive, each slot ends with its greatest claimant. */
module ClusterClaims {
  import opened Options
  import opened ClusterNode
  import opened ClusterSystem

  // ---------------------------------------------------------------- owners only get newer

  /** Every slot n has an owner for has one in r, with an epoch that is not smaller. */
  ghost predicate Newer(n: Node, r: Node) {
    forall j :: 0 <= j < SLOTS && n.owner[j].Some? ==>
      r.owner[j].Some? && r.peers[r.owner[j].value].configEpoch >= n.peers[n.owner[j].value].configEpoch
  }

  lemma NewerTwice(a: Node, b: Node, c: Node)
    requires Newer(a, b) && Newer(b, c)
    ensures Newer(a, c)
  {
    forall j | 0 <= j < SLOTS && a.owner[j].Some?
      ensures c.owner[j].Some? && c.peers[c.owner[j].value].configEpoch >= a.peers[a.owner[j].value].configEpoch
    {
      assert b.owner[j].Some?;
    }
  }

  /** The slots are the same and no epoch is smaller. */
  lemma RaisedNewer(n: Node, r: Node)
    requires r.owner == n.owner
    requires forall i :: i in n.peers ==> i in r.peers && r.peers[i].configEpoch >= n.peers[i].configEpoch
    ensures Newer(n, r)
  {
  }

  lemma ReboundNewer(n: Node, s: Id, epoch: nat, slots: set<nat>)
    requires s in n.peers && n.peers[s].master && n.peers[s].configEpoch >= epoch
    ensures Newer(n, Rebound(n, s, epoch, slots))
  {
  }

  lemma UpdateSlotsNewer(n: Node, s: Id, epoch: nat, slots: set<nat>)
    requires s in n.peers && n.peers[s].master && n.peers[s].configEpoch >= epoch
    ensures Newer(n, UpdateSlots(n, s, epoch, slots)) && s in UpdateSlots(n, s, epoch, slots).peers
  {
    var m := Rebound(n, s, epoch, slots);
    var r := UpdateSlots(n, s, epoch, slots);
    if s == n.id {
      RaisedNewer(n, r);
    } else {
      ReboundNewer(n, s, epoch, slots);
      RaisedNewer(m, r);
      NewerTwice(n, m, r);
    }
  }

  lemma SwitchRoleNewer(n: Node, h: Header)
    requires h.sender in n.peers && h.sender != n.id && h.slaveof.None?
    ensures var a := SwitchRole(n, h); Newer(n, a) && a.owner == n.owner && a.importing == n.importing
    ensures h.sender in SwitchRole(n, h).peers && SwitchRole(n, h).peers[h.sender].master
    ensures SwitchRole(n, h).peers[h.sender].configEpoch == n.peers[h.sender].configEpoch
    ensures SwitchRole(n, h).currentEpoch == n.currentEpoch && (NodeBounded(n) ==> NodeBounded(SwitchRole(n, h)))
  {
    RaisedNewer(n, SwitchRole(n, h));
  }

  lemma CollisionNewer(n: Node, h: Header)
    requires h.sender in n.peers && NodeBounded(n)
    ensures Newer(n, ResolveCollision(n, h))
  {
    RaisedNewer(n, ResolveCollision(n, h));
  }

  lemma ConfigNewer(n: Node, h: Header)
    requires h.sender in n.peers && h.sender != n.id && h.slaveof.None? && NodeBounded(n)
    requires n.peers[h.sender].configEpoch >= h.configEpoch
    ensures Newer(n, ReceiveConfig(n, h).0)
  {
    hide Newer, SwitchRole, UpdateSlots, ResolveCollision, NodeBounded, StaleReply;
    SwitchRoleNewer(n, h);
    var a := SwitchRole(n, h);
    if Dirty(a, h) {
      var b := UpdateSlots(a, h.sender, h.configEpoch, h.slots);
      UpdateSlotsNewer(a, h.sender, h.configEpoch, h.slots);
      UpdateSlotsKeeps(a, h.sender, h.configEpoch, h.slots);
      CollisionNewer(b, h);
      NewerTwice(n, a, b);
      NewerTwice(n, b, ResolveCollision(b, h));
    } else {
      CollisionNewer(a, h);
      NewerTwice(n, a, ResolveCollision(a, h));
    }
  }

  lemma UpdateNewer(n: Node, about: Id, epoch: nat, slots: set<nat>)
    ensures Newer(n, ReceiveUpdate(n, about, epoch, slots))
  {
    if about in n.peers && n.peers[about].configEpoch < epoch {
      var a := SetAsMaster(n, about);
      var b := SetPeer(a, about, a.peers[about].(configEpoch := epoch));
      RaisedNewer(n, b);
      UpdateSlotsNewer(b, about, epoch, slots);
      NewerTwice(n, b, UpdateSlots(b, about, epoch, slots));
    } else {
      RaisedNewer(n, n);
    }
  }

  /** The ping of a node that has become a slave, while it is a master here and serves a slot. */
  predicate Releases(n: Node, p: Packet) {
    && p.body.Config? && p.hdr.sender in n.peers && p.hdr.slaveof.Some?
    && n.peers[p.hdr.sender].master && Claimed(n, p.hdr.sender) != {}
  }

  /** The ping of a slave that serves nothing here. */
  lemma SlaveNewer(n: Node, h: Header)
    requires h.sender in n.peers && h.sender != n.id && h.slaveof.Some? && NodeBounded(n)
    requires !n.peers[h.sender].master || Claimed(n, h.sender) == {}
    ensures Newer(n, ReceiveConfig(n, h).0)
  {
    var a := SwitchRole(n, h);
    if n.peers[h.sender].master {
      assert forall j: nat :: j < SLOTS && n.owner[j] == Some(h.sender) ==> j in Claimed(n, h.sender);
    }
    assert a.owner == n.owner;
    RaisedNewer(n, ReceiveConfig(n, h).0);
  }

  lemma ReleaseLosesOwners(n: Node, h: Header, j: nat)
    requires h.sender in n.peers && h.sender != n.id && h.slaveof.Some?
    requires n.peers[h.sender].master && j in Claimed(n, h.sender)
    ensures j < SLOTS && ReceiveConfig(n, h).0.owner[j].None?
  {
    var a := SwitchRole(n, h);
    assert a.owner[j].None? && !a.peers[h.sender].master;
  }

  /** Exactly one kind of packet takes an owner from a slot or gives it one with a smaller epoch: the ping by which a
      master that serves a slot here announces that it is a slave now. */
  lemma OwnersGetNewer(n: Node, p: Packet, timely: bool)
    requires p.hdr.sender != n.id && NodeBounded(n) && PacketBounded(p)
    ensures Newer(n, Receive(n, p, timely).0) <==> !Releases(n, p)
  {
    if p.hdr.sender !in n.peers {
      RaisedNewer(n, n);
      return;
    }
    var a := SeeEpochs(n, p.hdr);
    RaisedNewer(n, a);
    SeeEpochsKeeps(n, p);
    match p.body
    case Config => ConfigOwners(n, a, p.hdr);
    case Update(about, epoch, slots) =>
      UpdateNewer(a, about, epoch, slots);
      NewerTwice(n, a, ReceiveUpdate(a, about, epoch, slots));
    case _ => RaisedNewer(a, Receive(n, p, timely).0);
  }

  lemma ConfigOwners(n: Node, a: Node, h: Header)
    requires h.sender in n.peers && h.sender != n.id && a == SeeEpochs(n, h) && NodeBounded(a) && Newer(n, a)
    ensures h.sender in a.peers
    ensures Newer(n, ReceiveConfig(a, h).0) <==>
      !(h.slaveof.Some? && n.peers[h.sender].master && Claimed(n, h.sender) != {})
  {
    var r := ReceiveConfig(a, h).0;
    assert a.owner == n.owner && Claimed(a, h.sender) == Claimed(n, h.sender);
    assert a.peers[h.sender].master == n.peers[h.sender].master && a.peers[h.sender].configEpoch >= h.configEpoch;
    hide ReceiveConfig, SeeEpochs;
    if h.slaveof.None? {
      ConfigNewer(a, h);
      NewerTwice(n, a, r);
    } else if n.peers[h.sender].master && Claimed(n, h.sender) != {} {
      var j :| j in Claimed(n, h.sender);
      ReleaseLosesOwners(a, h, j);
    } else {
      SlaveNewer(a, h);
      NewerTwice(n, a, r);
    }
  }

  // ---------------------------------------------------------------- claims

  /** What a master publishes: its epoch and its slots. */
  datatype Claim = Claim(epoch: nat, slots: set<nat>)

  ghost predicate Claims(claims: map<Id, Claim>, c: Id, j: nat) { c in claims && j in claims[c].slots }

  /** Claimant c of slot j has the greatest epoch among those that claim j. */
  ghost predicate Greatest(claims: map<Id, Claim>, c: Id, j: nat) {
    Claims(claims, c, j) && forall d :: Claims(claims, d, j) && d != c ==> claims[d].epoch < claims[c].epoch
  }

  predicate DistinctEpochs(claims: map<Id, Claim>) {
    forall c, d :: c in claims && d in claims && claims[c].epoch == claims[d].epoch ==> c == d
  }

  /** The claims; the owners that make none, with a bound of their epochs; the nodes that ping as slaves; and the owners
      at the start. */
  datatype Contest =
    Contest(claims: map<Id, Claim>, stale: map<Id, nat>, slaves: set<Id>, before: seq<Option<Id>>)

  /** An owner that makes no claim, with an epoch below that of every claim of the slot. */
  ghost predicate OldOwner(f: Contest, o: Id, j: nat) {
    o !in f.claims && o in f.stale && forall c :: Claims(f.claims, c, j) ==> f.stale[o] < f.claims[c].epoch
  }

  /** What may arrive: a ping of a claimant or an UPDATE about one, a ping of a slave, and any packet that is no claim.
      The header of a claimant carries its epoch, and that of an old owner an old one unless it says that it is a slave
      now. */
  predicate Carries(f: Contest, p: Packet) {
    && PacketBounded(p)
    && (p.hdr.sender in f.claims ==> p.hdr.configEpoch == f.claims[p.hdr.sender].epoch)
    && (p.hdr.sender in f.stale && p.hdr.sender !in f.claims && !SlavePing(p) ==>
          p.hdr.configEpoch <= f.stale[p.hdr.sender])
    && match p.body
       case Config =>
         if SlavePing(p) then p.hdr.sender in f.slaves
         else p.hdr.sender in f.claims && p.hdr.slots == f.claims[p.hdr.sender].slots
       case Update(about, epoch, slots) =>
         about in f.claims && epoch == f.claims[about].epoch && slots == f.claims[about].slots
       case _ => true
  }

  predicate SlavePing(p: Packet) { p.body.Config? && p.hdr.slaveof.Some? }

  /** A packet that arrives, and whether it is late enough after the last vote. */
  datatype Arrival = Arrival(p: Packet, timely: bool)

  function Received(n: Node, arrivals: seq<Arrival>): (r: Node)
    requires forall k :: 0 <= k < |arrivals| ==> arrivals[k].p.hdr.sender != n.id
    decreases arrivals
  {
    if arrivals == [] then n else Received(Receive(n, arrivals[0].p, arrivals[0].timely).0, arrivals[1..])
  }

  /** The nodes that pinged. */
  function Pinged(arrivals: seq<Arrival>): set<Id> { set a | a in arrivals && a.p.body.Config? :: a.p.hdr.sender }

  /** The owner of a slot that nobody claims: the one it had, unless that said that it is a slave. */
  function Kept(f: Contest, heard: set<Id>, j: nat): Option<Id>
    requires j < |f.before|
  {
    if f.before[j].Some? && f.before[j].value in f.slaves && f.before[j].value in heard then None else f.before[j]
  }

  /** An owner is a claimant or an old owner, and known by an epoch no less than that of any claimant heard of; it is a
      master that did not say yet that it is a slave, or will never. */
  ghost predicate SlotOk(n: Node, f: Contest, heard: set<Id>, j: nat)
    requires j < SLOTS
  {
    && (n.owner[j].Some? ==> OwnerOk(n, f, heard, n.owner[j].value, j))
    && (forall c :: c in heard && Claims(f.claims, c, j) ==>
          n.owner[j].Some? && n.peers[n.owner[j].value].configEpoch >= f.claims[c].epoch)
    && ((forall c :: !Claims(f.claims, c, j)) ==> |f.before| == SLOTS && n.owner[j] == Kept(f, heard, j))
  }

  ghost predicate OwnerOk(n: Node, f: Contest, heard: set<Id>, o: Id, j: nat)
    requires o in n.peers
  {
    && o != n.id && (Claims(f.claims, o, j) || OldOwner(f, o, j))
    && (o in f.slaves ==> o !in heard && n.peers[o].master)
  }

  /** No epoch known is above that of the claim or of the old owner. */
  ghost predicate EpochsOk(n: Node, f: Contest, heard: set<Id>) {
    && (forall c :: c in f.claims ==> c in n.peers && n.peers[c].configEpoch <= f.claims[c].epoch)
    && (forall o :: o in f.stale && o !in f.claims && o in n.peers && !(o in f.slaves && o in heard) ==>
          n.peers[o].configEpoch <= f.stale[o])
    && (forall o :: Some(o) in f.before ==> o in n.peers)
  }

  ghost predicate Settling(n: Node, f: Contest, heard: set<Id>) {
    && Here(n, f)
    && EpochsOk(n, f, heard)
    && (forall j :: 0 <= j < SLOTS ==> SlotOk(n, f, heard, j))
  }

  /** A master that imports nothing and takes no part. */
  ghost predicate Here(n: Node, f: Contest) {
    && n.importing == map[] && Self(n).master && n.id !in f.claims && n.id !in f.stale && NodeBounded(n)
    && f.slaves !! f.claims.Keys
  }

  /** A master that owns and imports nothing. Every slot is free, or its owner claims it too or has an older epoch; the
      claimants in `heard` had their say: whoever has a slot of theirs is known by an epoch no less than theirs. The
      slaves have not pinged yet; those that own a slot are masters here. */
  ghost predicate Ready(n: Node, f: Contest, heard: set<Id>) {
    && Here(n, f) && f.before == n.owner && heard <= f.claims.Keys
    && EpochsOk(n, f, heard)
    && (forall j :: 0 <= j < SLOTS && n.owner[j].Some? ==> OwnerOk(n, f, heard, n.owner[j].value, j))
    && (forall c, j: nat :: c in heard && Claims(f.claims, c, j) && j < SLOTS ==>
          n.owner[j].Some? && n.peers[n.owner[j].value].configEpoch >= f.claims[c].epoch)
  }

  // ---------------------------------------------------------------- what each packet keeps

  /** The owners are the same and as well known as before. */
  lemma SameSlots(n: Node, r: Node, f: Contest, heard: set<Id>)
    requires Settling(n, f, heard) && r.owner == n.owner && r.id == n.id
    requires forall o :: o in n.peers ==> o in r.peers && r.peers[o].configEpoch >= n.peers[o].configEpoch
    requires forall o :: o in n.peers && n.peers[o].master ==> r.peers[o].master
    ensures forall j :: 0 <= j < SLOTS ==> SlotOk(r, f, heard, j)
  {
    forall j | 0 <= j < SLOTS ensures SlotOk(r, f, heard, j) {
      assert SlotOk(n, f, heard, j);
    }
  }

  lemma SeeEpochsSettles(n: Node, f: Contest, heard: set<Id>, p: Packet)
    requires Settling(n, f, heard) && Carries(f, p) && p.hdr.sender in n.peers && p.hdr.sender != n.id && !SlavePing(p)
    ensures Settling(SeeEpochs(n, p.hdr), f, heard)
    ensures p.hdr.sender in f.claims ==>
      SeeEpochs(n, p.hdr).peers[p.hdr.sender].configEpoch == f.claims[p.hdr.sender].epoch
  {
    SeeEpochsKeeps(n, p);
    SameSlots(n, SeeEpochs(n, p.hdr), f, heard);
  }

  /** A claim takes no slot from the node itself. */
  lemma ClaimRebinds(n: Node, f: Contest, heard: set<Id>, c: Id)
    requires Settling(n, f, heard) && c in f.claims && n.peers[c].master && n.peers[c].configEpoch == f.claims[c].epoch
    ensures UpdateSlots(n, c, f.claims[c].epoch, f.claims[c].slots) ==
      Rebound(n, c, f.claims[c].epoch, f.claims[c].slots)
  {
    forall j | 0 <= j < SLOTS ensures n.owner[j] != Some(n.id) {
      assert SlotOk(n, f, heard, j);
    }
  }

  lemma ClaimSettles(n: Node, f: Contest, heard: set<Id>, c: Id)
    requires Settling(n, f, heard) && c in f.claims && n.peers[c].master && n.peers[c].configEpoch == f.claims[c].epoch
    ensures Settling(UpdateSlots(n, c, f.claims[c].epoch, f.claims[c].slots), f, heard + {c})
  {
    ClaimRebinds(n, f, heard, c);
    var r := Rebound(n, c, f.claims[c].epoch, f.claims[c].slots);
    forall j | 0 <= j < SLOTS ensures SlotOk(r, f, heard + {c}, j) {
      assert SlotOk(n, f, heard, j);
    }
  }

  /** A ping whose slots the claimant already has here has been heard. */
  lemma CleanSettles(n: Node, f: Contest, heard: set<Id>, c: Id)
    requires Settling(n, f, heard) && c in f.claims && Claimed(n, c) == f.claims[c].slots
    requires n.peers[c].configEpoch == f.claims[c].epoch
    ensures Settling(n, f, heard + {c})
  {
    forall j | 0 <= j < SLOTS ensures SlotOk(n, f, heard + {c}, j) {
      assert SlotOk(n, f, heard, j);
      if j in f.claims[c].slots {
        assert j in Claimed(n, c);
      }
    }
  }

  lemma CollisionSettles(n: Node, f: Contest, heard: set<Id>, h: Header)
    requires Settling(n, f, heard) && h.sender in n.peers
    ensures Settling(ResolveCollision(n, h), f, heard)
  {
    SameSlots(n, ResolveCollision(n, h), f, heard);
  }

  lemma SetAsMasterSettles(n: Node, f: Contest, heard: set<Id>, c: Id)
    requires Settling(n, f, heard) && c in n.peers && c != n.id
    ensures Settling(SetAsMaster(n, c), f, heard)
    ensures c in SetAsMaster(n, c).peers && SetAsMaster(n, c).peers[c].configEpoch == n.peers[c].configEpoch
  {
    SameSlots(n, SetAsMaster(n, c), f, heard);
  }

  lemma ConfigSettles(n: Node, f: Contest, heard: set<Id>, h: Header)
    requires Settling(n, f, heard) && h.sender in f.claims && h.sender in n.peers && h.sender != n.id
    requires h.slaveof.None? && h.slots == f.claims[h.sender].slots
    requires h.configEpoch == f.claims[h.sender].epoch == n.peers[h.sender].configEpoch
    ensures Settling(ReceiveConfig(n, h).0, f, heard + {h.sender})
  {
    var c := h.sender;
    SetAsMasterSettles(n, f, heard, c);
    var b := SetAsMaster(n, c);
    hide Settling, UpdateSlots, ResolveCollision, StaleReply;
    if Dirty(b, h) {
      ClaimSettles(b, f, heard, c);
      UpdateSlotsKnows(b, c, h.configEpoch, h.slots);
      CollisionSettles(UpdateSlots(b, c, h.configEpoch, h.slots), f, heard + {c}, h);
    } else {
      CleanSettles(b, f, heard, c);
      CollisionSettles(b, f, heard + {c}, h);
    }
  }

  lemma NothingHeard(n: Node, f: Contest, heard: set<Id>, c: Id)
    requires Settling(n, f, heard + {c}) && c in f.claims
    ensures Settling(n, f, heard)
  {
    forall j | 0 <= j < SLOTS ensures SlotOk(n, f, heard, j) {
      assert SlotOk(n, f, heard + {c}, j);
    }
  }

  lemma EpochSettles(a: Node, f: Contest, heard: set<Id>, c: Id)
    requires Settling(a, f, heard) && c in f.claims && c != a.id
    requires a.peers[c].configEpoch <= f.claims[c].epoch <= a.currentEpoch
    ensures Settling(SetPeer(a, c, a.peers[c].(configEpoch := f.claims[c].epoch)), f, heard)
  {
    SameSlots(a, SetPeer(a, c, a.peers[c].(configEpoch := f.claims[c].epoch)), f, heard);
  }

  lemma UpdateSettles(n: Node, f: Contest, heard: set<Id>, about: Id)
    requires Settling(n, f, heard) && about in f.claims && f.claims[about].epoch <= n.currentEpoch
    ensures Settling(ReceiveUpdate(n, about, f.claims[about].epoch, f.claims[about].slots), f, heard)
  {
    var e, slots := f.claims[about].epoch, f.claims[about].slots;
    if n.peers[about].configEpoch < e {
      SetAsMasterSettles(n, f, heard, about);
      var a := SetAsMaster(n, about);
      EpochSettles(a, f, heard, about);
      var b := SetPeer(a, about, a.peers[about].(configEpoch := e));
      ClaimSettles(b, f, heard, about);
      NothingHeard(UpdateSlots(b, about, e, slots), f, heard, about);
      hide Settling, UpdateSlots;
    }
  }

  /** A ping of a slave does no more than the switch of its role. */
  lemma SlavePingIs(n: Node, h: Header)
    requires h.sender in n.peers && h.sender != n.id && h.slaveof.Some?
    ensures ReceiveConfig(n, h).0 == SwitchRole(n, h)
  {
    assert !SwitchRole(n, h).peers[h.sender].master;
  }

  /** What the ping of a slave makes of the view. */
  lemma RoleSwitched(n: Node, h: Header)
    requires h.sender in n.peers && h.sender != n.id && h.slaveof.Some?
    ensures var r := SwitchRole(SeeEpochs(n, h), h);
      && r.id == n.id && Self(r) == Self(n) && r.importing == n.importing && r.peers.Keys == n.peers.Keys
      && (forall o :: o in n.peers && o != h.sender ==> r.peers[o] == n.peers[o])
      && (forall j :: 0 <= j < SLOTS ==>
            r.owner[j] == if n.owner[j] == Some(h.sender) && n.peers[h.sender].master then None else n.owner[j])
  {
  }

  lemma SlaveSlot(n: Node, r: Node, f: Contest, heard: set<Id>, c: Id, j: nat)
    requires j < SLOTS && SlotOk(n, f, heard, j) && EpochsOk(n, f, heard) && c in f.slaves && f.slaves !! f.claims.Keys
    requires r.id == n.id && r.peers.Keys == n.peers.Keys
    requires forall o :: o in n.peers && o != c ==> r.peers[o] == n.peers[o]
    requires c in n.peers
    requires r.owner[j] == if n.owner[j] == Some(c) && n.peers[c].master then None else n.owner[j]
    ensures SlotOk(r, f, heard + {c}, j)
  {
    if n.owner[j] == Some(c) {
      assert OldOwner(f, c, j) && n.peers[c].configEpoch <= f.stale[c];
    }
  }

  lemma SlaveSettles(n: Node, f: Contest, heard: set<Id>, p: Packet)
    requires Settling(n, f, heard) && SlavePing(p) && p.hdr.sender in f.slaves && PacketBounded(p)
    requires p.hdr.sender in n.peers && p.hdr.sender != n.id
    ensures Settling(SwitchRole(SeeEpochs(n, p.hdr), p.hdr), f, heard + {p.hdr.sender})
  {
    SeeEpochsKeeps(n, p);
    SwitchRoleKeeps(SeeEpochs(n, p.hdr), p.hdr);
    RoleSwitched(n, p.hdr);
    var r := SwitchRole(SeeEpochs(n, p.hdr), p.hdr);
    hide SwitchRole, SeeEpochs;
    forall j | 0 <= j < SLOTS ensures SlotOk(r, f, heard + {p.hdr.sender}, j) {
      hide SlotOk;
      SlaveSlot(n, r, f, heard, p.hdr.sender, j);
    }
    hide SlotOk;
  }

  /** The other packets leave slots and epochs alone. */
  lemma FailSettles(a: Node, f: Contest, heard: set<Id>, about: Id)
    requires Settling(a, f, heard)
    ensures Settling(ReceiveFail(a, about), f, heard)
  {
    SameSlots(a, ReceiveFail(a, about), f, heard);
  }

  lemma RequestSettles(a: Node, f: Contest, heard: set<Id>, h: Header, timely: bool)
    requires Settling(a, f, heard) && h.sender in a.peers
    ensures Settling(ReceiveAuthRequest(a, h, timely).0, f, heard)
  {
    SameSlots(a, ReceiveAuthRequest(a, h, timely).0, f, heard);
  }

  lemma AckSettles(a: Node, f: Contest, heard: set<Id>, h: Header)
    requires Settling(a, f, heard) && h.sender in a.peers
    ensures Settling(ReceiveAuthAck(a, h), f, heard)
  {
    SameSlots(a, ReceiveAuthAck(a, h), f, heard);
  }

  /** Hearing from a node. */
  function Heard(heard: set<Id>, p: Packet): set<Id> { if p.body.Config? then heard + {p.hdr.sender} else heard }

  /** A ping of a node that is not known changes nothing; it is no claimant and owned nothing. */
  lemma UnknownSettles(n: Node, f: Contest, heard: set<Id>, c: Id)
    requires Settling(n, f, heard) && c !in n.peers
    ensures Settling(n, f, heard + {c})
  {
    forall j | 0 <= j < SLOTS ensures SlotOk(n, f, heard + {c}, j) {
      assert SlotOk(n, f, heard, j);
    }
  }

  lemma PacketSettles(n: Node, f: Contest, heard: set<Id>, p: Packet, timely: bool)
    requires Settling(n, f, heard) && Carries(f, p) && p.hdr.sender != n.id
    ensures Settling(Receive(n, p, timely).0, f, Heard(heard, p))
  {
    if p.hdr.sender !in n.peers {
      UnknownSettles(n, f, heard, p.hdr.sender);
    } else if SlavePing(p) {
      SlaveSettles(n, f, heard, p);
      SlavePingIs(SeeEpochs(n, p.hdr), p.hdr);
    } else {
      SeeEpochsSettles(n, f, heard, p);
      SeeEpochsKeeps(n, p);
      var a := SeeEpochs(n, p.hdr);
      hide Settling, SeeEpochs, ReceiveConfig, ReceiveUpdate, ReceiveFail, ReceiveAuthRequest, ReceiveAuthAck;
      SettlingKnows(n, a, p);
      match p.body
      case Config => ConfigSettles(a, f, heard, p.hdr);
      case Update(about, epoch, slots) => UpdateSettles(a, f, heard, about);
      case Fail(about) => FailSettles(a, f, heard, about);
      case AuthRequest => RequestSettles(a, f, heard, p.hdr, timely);
      case AuthAck => AckSettles(a, f, heard, p.hdr);
    }
  }

  lemma SettlingKnows(n: Node, a: Node, p: Packet)
    requires p.hdr.sender in n.peers && a == SeeEpochs(n, p.hdr)
    ensures p.hdr.sender in a.peers && a.id == n.id && a.currentEpoch >= p.hdr.currentEpoch
  {
  }

  lemma PingedFirst(heard: set<Id>, arrivals: seq<Arrival>)
    requires arrivals != []
    ensures Heard(heard, arrivals[0].p) + Pinged(arrivals[1..]) == heard + Pinged(arrivals)
  {
    assert arrivals == [arrivals[0]] + arrivals[1..];
  }

  lemma {:induction false} ReceivedSettles(n: Node, f: Contest, heard: set<Id>, arrivals: seq<Arrival>)
    requires Settling(n, f, heard)
    requires forall k :: 0 <= k < |arrivals| ==> arrivals[k].p.hdr.sender != n.id && Carries(f, arrivals[k].p)
    ensures Settling(Received(n, arrivals), f, heard + Pinged(arrivals))
    decreases arrivals
  {
    hide Settling, Carries, Pinged;
    if arrivals == [] {
      NobodyPinged();
      assert heard + {} == heard;
    } else {
      var p := arrivals[0].p;
      PacketSettles(n, f, heard, p, arrivals[0].timely);
      ReceivedSettles(Receive(n, p, arrivals[0].timely).0, f, Heard(heard, p), arrivals[1..]);
      PingedFirst(heard, arrivals);
    }
  }

  lemma NobodyPinged()
    ensures Pinged([]) == {}
  {
  }

  // ---------------------------------------------------------------- convergence

  lemma ReadySettles(n: Node, f: Contest, heard: set<Id>)
    requires Ready(n, f, heard)
    ensures Settling(n, f, heard)
  {
  }

  /** Convergence, from any such table: whatever the order and the repetitions, once every claimant was heard each slot
      belongs to its greatest claimant, and a slot nobody claims to the owner it had, unless that pinged as a slave. */
  lemma ClaimsConverge(n: Node, f: Contest, heard: set<Id>, arrivals: seq<Arrival>, j: nat)
    requires Ready(n, f, heard) && DistinctEpochs(f.claims) && j < SLOTS
    requires forall k :: 0 <= k < |arrivals| ==> arrivals[k].p.hdr.sender != n.id && Carries(f, arrivals[k].p)
    requires f.claims.Keys <= heard + Pinged(arrivals)
    ensures var o := Received(n, arrivals).owner[j];
      if exists c :: Claims(f.claims, c, j) then forall c: Id :: o == Some(c) <==> Greatest(f.claims, c, j)
      else o == if n.owner[j].Some? && n.owner[j].value in f.slaves * Pinged(arrivals) then None else n.owner[j]
  {
    ReadySettles(n, f, heard);
    ReceivedSettles(n, f, heard, arrivals);
    var r, all := Received(n, arrivals), heard + Pinged(arrivals);
    assert SlotOk(r, f, all, j) && EpochsOk(r, f, all);
    hide Carries, Received, Pinged;
    if d0 :| Claims(f.claims, d0, j) {
      var o := r.owner[j].value;
      OwnerIsGreatest(r, f, all, j, o, d0);
    }
  }

  /** A master that knows no owner of any slot yet, and no claimant by a newer epoch. */
  ghost predicate Blank(n: Node, claims: map<Id, Claim>) {
    && n.importing == map[] && Self(n).master && n.id !in claims && NodeBounded(n)
    && (forall c :: c in claims ==> c in n.peers && n.peers[c].configEpoch <= claims[c].epoch)
    && (forall j :: 0 <= j < SLOTS ==> n.owner[j].None?)
  }

  /** From a blank table each slot ends with its greatest claimant, and a slot nobody claims with nobody. */
  lemma BlankConverges(n: Node, claims: map<Id, Claim>, slaves: set<Id>, arrivals: seq<Arrival>, j: nat)
    requires Blank(n, claims) && DistinctEpochs(claims) && slaves !! claims.Keys && j < SLOTS
    requires forall k :: 0 <= k < |arrivals| ==>
      arrivals[k].p.hdr.sender != n.id && Carries(Contest(claims, map[], slaves, n.owner), arrivals[k].p)
    requires claims.Keys <= Pinged(arrivals)
    ensures var o := Received(n, arrivals).owner[j];
      && (forall c: Id :: o == Some(c) <==> Greatest(claims, c, j))
      && (o.None? <==> forall c: Id :: !Claims(claims, c, j))
  {
    ClaimsConverge(n, Contest(claims, map[], slaves, n.owner), {}, arrivals, j);
    hide Carries, Received, Pinged;
    var o := Received(n, arrivals).owner[j];
    if d :| Claims(claims, d, j) {
      HasGreatest(claims, d, j);
    }
  }

  /** Among claims with different epochs one is the greatest. */
  lemma HasGreatest(claims: map<Id, Claim>, d: Id, j: nat)
    requires Claims(claims, d, j) && DistinctEpochs(claims)
    ensures exists c :: Greatest(claims, c, j)
  {
    var keys := set c | c in claims && Claims(claims, c, j);
    var c := MaxOf(claims, keys, d);
    assert Greatest(claims, c, j);
  }

  lemma {:induction false} MaxOf(claims: map<Id, Claim>, keys: set<Id>, d: Id) returns (c: Id)
    requires keys <= claims.Keys && d in keys
    ensures c in keys && forall e :: e in keys ==> claims[e].epoch <= claims[c].epoch
  {
    if e :| e in keys && e != d {
      c := MaxOf(claims, keys - {d}, e);
      if claims[c].epoch < claims[d].epoch {
        c := d;
      }
    } else {
      assert keys == {d};
      c := d;
    }
  }

  lemma OwnerIsGreatest(r: Node, f: Contest, all: set<Id>, j: nat, o: Id, d0: Id)
    requires j < SLOTS && SlotOk(r, f, all, j) && EpochsOk(r, f, all) && DistinctEpochs(f.claims)
    requires f.claims.Keys <= all && r.owner[j] == Some(o) && Claims(f.claims, d0, j)
    ensures forall c: Id :: r.owner[j] == Some(c) <==> Greatest(f.claims, c, j)
  {
    assert d0 in all && r.peers[o].configEpoch >= f.claims[d0].epoch;
    assert Claims(f.claims, o, j);
    forall d | Claims(f.claims, d, j) && d != o ensures f.claims[d].epoch < f.claims[o].epoch {
      assert d in all;
    }
    assert Greatest(f.claims, o, j);
  }
}
