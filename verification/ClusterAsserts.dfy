/** The assertion of `clusterSetMaster` that a node about to become the slave of another serves no slot: when it holds,
    and how an operator can make it fail. */
module ClusterAsserts {
  import opened Options
  import opened ClusterNode
  import opened ClusterSystem

  /** The next packet or command makes the server exit. */
  predicate Exits(n: Node, step: Step) {
    match step
    case Deliver(p, _) => p.hdr.sender != n.id && Aborts(n, p)
    case Replicate(_, to) =>
      to in n.peers && to != n.id && n.peers[to].master && !Self(n).master && Claimed(n, n.id) != {}
    case _ => false
  }

  /** A slave serves nothing in this view: the node itself, or with `all` any slave. */
  predicate SlavesIdle(n: Node, all: bool) {
    forall j :: 0 <= j < SLOTS && n.owner[j].Some? && (all || n.owner[j].value == n.id) ==>
      n.peers[n.owner[j].value].master
  }

  // ---------------------------------------------------------------- when a node exits

  /** Only a slave that serves a slot while its master serves some, none of them being imported, is in danger, and only
      from the claim of a third node. */
  ghost predicate Endangered(n: Node) {
    && !Self(n).master && Claimed(n, n.id) != {} && Claimed(n, CurrentMaster(n)) != {}
    && (forall j :: j in Claimed(n, CurrentMaster(n)) ==> j !in n.importing)
    && exists x :: x in n.peers && x != n.id && x != CurrentMaster(n)
  }

  /** The view after the role and the epoch of another node were set. */
  ghost predicate SameNode(n: Node, a: Node) {
    && a.id == n.id && a.owner == n.owner && a.importing == n.importing
    && Self(a) == Self(n) && a.peers.Keys == n.peers.Keys
  }

  lemma ClaimEndangers(n: Node, a: Node, s: Id, epoch: nat, slots: set<nat>)
    requires SameNode(n, a) && s in a.peers && a.peers[s].master && ClaimAborts(a, s, epoch, slots)
    ensures Endangered(n)
  {
    var m, r := CurrentMaster(n), Rebound(a, s, epoch, slots);
    var j :| 0 <= j < SLOTS && Rebinds(a, s, epoch, slots, j) && a.owner[j] == Some(m);
    assert j in Claimed(n, m);
    forall k | k in Claimed(n, m) ensures k !in n.importing {
      assert k !in Claimed(r, m);
    }
    var k :| k in Claimed(r, n.id);
    assert k in Claimed(n, n.id);
    assert s in n.peers && s != n.id && s != m;
  }

  lemma SeeEpochsSame(n: Node, h: Header)
    requires h.sender in n.peers && h.sender != n.id
    ensures SameNode(n, SeeEpochs(n, h))
  {
  }

  lemma SwitchRoleSame(n: Node, h: Header)
    requires h.sender in n.peers && h.sender != n.id && SwitchRole(n, h).peers[h.sender].master
    ensures SameNode(n, SwitchRole(n, h))
  {
  }

  lemma AbortEndangers(n: Node, p: Packet)
    requires p.hdr.sender != n.id && Aborts(n, p)
    ensures Endangered(n)
  {
    SeeEpochsSame(n, p.hdr);
    var a := SeeEpochs(n, p.hdr);
    hide Endangered, ClaimAborts, SeeEpochs, Dirty;
    match p.body
    case Config =>
      SwitchRoleSame(a, p.hdr);
      ClaimEndangers(n, SwitchRole(a, p.hdr), p.hdr.sender, p.hdr.configEpoch, p.hdr.slots);
    case Update(about, epoch, slots) =>
      UpdateSame(a, about, epoch, slots);
      ClaimEndangers(n, Updated(a, about, epoch), about, epoch, slots);
  }

  /** The view on which an UPDATE makes its claim. */
  function Updated(n: Node, about: Id, epoch: nat): Node
    requires about in n.peers
  {
    var a := SetAsMaster(n, about);
    SetPeer(a, about, a.peers[about].(configEpoch := epoch))
  }

  lemma UpdateSame(n: Node, about: Id, epoch: nat, slots: set<nat>)
    requires UpdateAborts(n, about, epoch, slots)
    ensures about in n.peers && about != n.id && SameNode(n, Updated(n, about, epoch))
    ensures Updated(n, about, epoch).peers[about].master && ClaimAborts(Updated(n, about, epoch), about, epoch, slots)
  {
    hide TakesFromMaster;
  }

  /** The UPDATE about node x that claims every slot of the master of n. */
  function Takeover(n: Node, x: Id): Packet
    requires x in n.peers
  {
    var m := CurrentMaster(n);
    var epoch := n.peers[m].configEpoch + n.peers[x].configEpoch + 1;
    Packet(n.id, Header(m, epoch, 0, {}, None, false), Update(x, epoch, Claimed(n, m)))
  }

  lemma TakeoverTakes(n: Node, a: Node, x: Id, epoch: nat, j: nat)
    requires Endangered(n) && SameNode(n, a) && x in n.peers && x != n.id && x != CurrentMaster(n)
    requires a.peers[x].master && a.peers[CurrentMaster(n)].configEpoch < epoch
    requires j in Claimed(n, CurrentMaster(n))
    ensures Rebinds(a, x, epoch, Claimed(n, CurrentMaster(n)), j) && a.owner[j] == Some(CurrentMaster(a))
  {
  }

  lemma TakeoverClaims(n: Node, a: Node, x: Id, epoch: nat)
    requires Endangered(n) && SameNode(n, a) && x in n.peers && x != n.id && x != CurrentMaster(n)
    requires a.peers[x].master && a.peers[CurrentMaster(n)].configEpoch < epoch
    ensures ClaimAborts(a, x, epoch, Claimed(n, CurrentMaster(n)))
  {
    var m, slots := CurrentMaster(n), Claimed(n, CurrentMaster(n));
    forall j | j in slots ensures Rebinds(a, x, epoch, slots, j) && a.owner[j] == Some(CurrentMaster(a)) {
      TakeoverTakes(n, a, x, epoch, j);
    }
    var j :| j in slots;
    assert TakesFromMaster(a, x, epoch, slots);
    var r := Rebound(a, x, epoch, slots);
    forall k: nat | k < SLOTS ensures r.owner[k] != Some(m) {
      if a.owner[k] == Some(m) {
        assert k in slots;
      }
    }
    var k :| k in Claimed(n, n.id);
    assert k !in slots && !Rebinds(a, x, epoch, slots, k);
    assert k in Claimed(r, n.id);
  }

  lemma UpdatedSame(n: Node, a: Node, x: Id, epoch: nat)
    requires SameNode(n, a) && x in n.peers && x != n.id && CurrentMaster(n) in n.peers && x != CurrentMaster(n)
    ensures var b := Updated(a, x, epoch);
      SameNode(n, b) && b.peers[x].master && b.peers[CurrentMaster(n)] == a.peers[CurrentMaster(n)]
  {
  }

  lemma TakeoverSeen(n: Node, x: Id)
    requires !Self(n).master && x in n.peers && x != n.id && x != CurrentMaster(n)
    ensures var p := Takeover(n, x);
      && p.hdr.sender != n.id && p.hdr.sender in n.peers && PacketBounded(p) && SameNode(n, SeeEpochs(n, p.hdr))
      && forall i :: i in n.peers ==> SeeEpochs(n, p.hdr).peers[i].configEpoch == n.peers[i].configEpoch
  {
    SeeEpochsSame(n, Takeover(n, x).hdr);
  }

  lemma TakeoverAborts(n: Node, x: Id)
    requires Endangered(n) && x in n.peers && x != n.id && x != CurrentMaster(n)
    ensures var p := Takeover(n, x); p.hdr.sender != n.id && PacketBounded(p) && Aborts(n, p)
  {
    var p := Takeover(n, x);
    TakeoverSeen(n, x);
    var a, epoch := SeeEpochs(n, p.hdr), p.body.configEpoch;
    UpdatedSame(n, a, x, epoch);
    hide Endangered, ClaimAborts, SameNode, SeeEpochs;
    TakeoverClaims(n, Updated(a, x, epoch), x, epoch);
  }

  /** Exactly the endangered nodes can be made to exit by a packet. */
  lemma AbortsExactly(n: Node)
    ensures (exists p: Packet :: p.hdr.sender != n.id && Aborts(n, p)) <==> Endangered(n)
  {
    if p: Packet :| p.hdr.sender != n.id && Aborts(n, p) {
      AbortEndangers(n, p);
    }
    if Endangered(n) {
      var x :| x in n.peers && x != n.id && x != CurrentMaster(n);
      TakeoverAborts(n, x);
    }
  }

  /** A node that serves nothing as a slave does not exit. */
  lemma IdleGoesOn(n: Node, step: Step)
    requires SlavesIdle(n, false)
    ensures !Exits(n, step)
  {
    assert !Self(n).master ==> forall j :: j !in Claimed(n, n.id);
    if step.Deliver? && step.p.hdr.sender != n.id && Aborts(n, step.p) {
      AbortEndangers(n, step.p);
    }
    hide Aborts;
  }

  // ---------------------------------------------------------------- what each step keeps

  /** An operator gives a slot to a slave: to the node itself by ADDSLOTS, or with `all` to any slave,
      by SETSLOT too. */
  predicate Gives(n: Node, step: Step, all: bool) {
    && step.Assign? && step.owner.Some? && step.owner.value in n.peers && !n.peers[step.owner.value].master
    && (all || step.owner.value == n.id)
  }

  lemma UpdateSlotsIdle(n: Node, s: Id, epoch: nat, slots: set<nat>, all: bool)
    requires s in n.peers && n.peers[s].master && SlavesIdle(n, all) && !ClaimAborts(n, s, epoch, slots)
    ensures SlavesIdle(UpdateSlots(n, s, epoch, slots), all)
  {
    var r := UpdateSlots(n, s, epoch, slots);
    var b := Rebound(n, s, epoch, slots);
    if s != n.id && TakesFromMaster(n, s, epoch, slots) && Claimed(b, CurrentMaster(n)) == {} {
      forall j | 0 <= j < SLOTS && b.owner[j].Some? ensures b.owner[j].value != n.id {
        assert b.owner[j] == Some(n.id) ==> j in Claimed(b, n.id);
      }
    }
  }

  lemma MadeMasterIdle(n: Node, i: Id, all: bool)
    requires i in n.peers && SlavesIdle(n, all)
    ensures SlavesIdle(SetAsMaster(n, i), all)
  {
  }

  lemma MadeSlaveIdle(n: Node, h: Header, all: bool)
    requires h.sender in n.peers && h.sender != n.id && h.slaveof.Some? && SlavesIdle(n, all)
    ensures SlavesIdle(SwitchRole(n, h), all)
  {
    var r := SwitchRole(n, h);
    assert forall j :: 0 <= j < SLOTS && r.owner[j].Some? ==>
      r.owner[j] == n.owner[j] && (r.owner[j].value == h.sender ==> !n.peers[h.sender].master);
    assert forall i :: i in n.peers && i != h.sender ==> r.peers[i] == n.peers[i];
  }

  lemma SwitchRoleIdle(n: Node, h: Header, all: bool)
    requires h.sender in n.peers && h.sender != n.id && SlavesIdle(n, all)
    ensures SlavesIdle(SwitchRole(n, h), all)
  {
    if h.slaveof.None? {
      MadeMasterIdle(n, h.sender, all);
    } else {
      MadeSlaveIdle(n, h, all);
    }
    hide SlavesIdle, SetAsMaster, DelNodeSlots;
  }

  lemma ConfigIdle(n: Node, h: Header, all: bool)
    requires h.sender in n.peers && h.sender != n.id && SlavesIdle(n, all) && !ConfigAborts(n, h)
    ensures SlavesIdle(ReceiveConfig(n, h).0, all)
  {
    SwitchRoleIdle(n, h, all);
    var a := SwitchRole(n, h);
    var b := a;
    hide SwitchRole, UpdateSlots, Dirty, StaleReply, ClaimAborts, SlavesIdle, ResolveCollision;
    if a.peers[h.sender].master && Dirty(a, h) {
      UpdateSlotsIdle(a, h.sender, h.configEpoch, h.slots, all);
      UpdateSlotsKnows(a, h.sender, h.configEpoch, h.slots);
      b := UpdateSlots(a, h.sender, h.configEpoch, h.slots);
    }
    CollisionIdle(b, h, all);
  }

  lemma CollisionIdle(n: Node, h: Header, all: bool)
    requires h.sender in n.peers && SlavesIdle(n, all)
    ensures SlavesIdle(ResolveCollision(n, h), all)
  {
  }

  lemma UpdateIdle(n: Node, about: Id, epoch: nat, slots: set<nat>, all: bool)
    requires SlavesIdle(n, all) && !UpdateAborts(n, about, epoch, slots)
    ensures SlavesIdle(ReceiveUpdate(n, about, epoch, slots), all)
  {
    if about in n.peers && n.peers[about].configEpoch < epoch {
      assert SlavesIdle(Updated(n, about, epoch), all);
      UpdateSlotsIdle(Updated(n, about, epoch), about, epoch, slots, all);
    }
  }

  lemma ReceiveIdle(n: Node, p: Packet, timely: bool, all: bool)
    requires p.hdr.sender != n.id && SlavesIdle(n, all) && !Aborts(n, p)
    ensures SlavesIdle(Receive(n, p, timely).0, all)
  {
    if p.hdr.sender in n.peers {
      var a := SeeEpochs(n, p.hdr);
      assert SlavesIdle(a, all);
      hide ReceiveConfig, ReceiveUpdate, ConfigAborts, UpdateAborts, SeeEpochs;
      match p.body
      case Config => ConfigIdle(a, p.hdr, all);
      case Update(about, epoch, slots) => UpdateIdle(a, about, epoch, slots, all);
      case _ =>
    }
  }

  lemma ReplaceIdle(n: Node, all: bool)
    requires !Self(n).master && SlavesIdle(n, all)
    ensures SlavesIdle(ReplaceMaster(n), all)
  {
  }

  lemma OwnIdle(n: Node, step: Step, all: bool)
    requires step in Moves(n) && !step.Deliver? && SlavesIdle(n, all) && !Gives(n, step, all)
    requires !(step.Win? || step.TakeOver?)
    ensures SlavesIdle(NodeAfter(n, step), all)
  {
    if step.Replicate? {
      forall j | 0 <= j < SLOTS ensures n.owner[j] != Some(n.id) {
        assert n.owner[j] == Some(n.id) ==> j in Claimed(n, n.id);
      }
    }
  }

  lemma TakeOverIdle(n: Node, step: Step, all: bool)
    requires step in Moves(n) && (step.Win? || step.TakeOver?) && SlavesIdle(n, all)
    ensures SlavesIdle(NodeAfter(n, step), all)
  {
    if step.Win? {
      var me := Self(n);
      var epoch := if me.configEpoch < n.authEpoch then n.authEpoch else me.configEpoch;
      ReplaceIdle(SetPeer(n, n.id, me.(configEpoch := epoch)), all);
    } else {
      ReplaceIdle(if NeedsBump(n) then BumpEpoch(n) else n, all);
    }
    hide ReplaceMaster;
  }

  lemma StepIdle(n: Node, step: Step, all: bool)
    requires step in Moves(n) && SlavesIdle(n, all) && !Gives(n, step, all)
    ensures SlavesIdle(NodeAfter(n, step), all)
  {
    if step.Deliver? {
      ReceiveIdle(n, step.p, step.timely, all);
    } else if step.Win? || step.TakeOver? {
      TakeOverIdle(n, step, all);
    } else {
      OwnIdle(n, step, all);
    }
    hide Receive, Aborts, Gives, SlavesIdle, WinElection, ReplaceMaster;
  }

  // ---------------------------------------------------------------- runs

  ghost predicate NeverGives(s: System, steps: seq<Step>, all: bool)
    requires IsRun(s, steps)
    decreases steps
  {
    steps == [] ||
    (!Gives(s.nodes[Actor(steps[0])], steps[0], all) && NeverGives(Next(s, steps[0]), steps[1..], all))
  }

  ghost predicate AllIdle(s: System, all: bool) { forall i :: i in s.nodes ==> SlavesIdle(s.nodes[i], all) }

  lemma NextIdle(s: System, step: Step, all: bool)
    requires step in Steps(s) && AllIdle(s, all) && !Gives(s.nodes[Actor(step)], step, all)
    ensures AllIdle(Next(s, step), all)
  {
    StepIdle(s.nodes[Actor(step)], step, all);
    hide SlavesIdle, Gives, NodeAfter, Moves, Sent;
  }

  lemma {:induction false} RunIdle(s: System, steps: seq<Step>, all: bool)
    requires IsRun(s, steps) && AllIdle(s, all) && NeverGives(s, steps, all)
    ensures AllIdle(After(s, steps), all)
    decreases steps
  {
    hide Next, AllIdle, Gives;
    if steps != [] {
      NextIdle(s, steps[0], all);
      RunIdle(Next(s, steps[0]), steps[1..], all);
    }
  }

  /** Over every run in which no operator gives a slot to a slave, no slave serves a slot in any view. */
  lemma SlavesServeNothing(s: System, steps: seq<Step>, i: Id, o: Id)
    requires IsRun(s, steps) && AllIdle(s, true) && NeverGives(s, steps, true) && i in s.nodes
    ensures var n := After(s, steps).nodes[i]; o in n.peers && !n.peers[o].master ==> Claimed(n, o) == {}
  {
    RunIdle(s, steps, true);
    var n := After(s, steps).nodes[i];
    assert SlavesIdle(n, true);
    hide IsRun, After, NeverGives, AllIdle;
    if j :| j in Claimed(n, o) {
      assert n.owner[j] == Some(o);
    }
  }

  /** Over every run in which ADDSLOTS is not sent to a slave, no server exits. */
  lemma AssertionsHold(s: System, steps: seq<Step>, i: Id, step: Step)
    requires IsRun(s, steps) && AllIdle(s, false) && NeverGives(s, steps, false) && i in s.nodes
    ensures !Exits(After(s, steps).nodes[i], step)
  {
    RunIdle(s, steps, false);
    assert SlavesIdle(After(s, steps).nodes[i], false);
    hide *;
    IdleGoesOn(After(s, steps).nodes[i], step);
  }

  // ---------------------------------------------------------------- how it fails

  /** ADDSLOTS of a free slot puts any slave in danger whose master serves slots and that knows a third node. */
  lemma AddSlotsEndangers(n: Node, slot: nat, x: Id)
    requires !Self(n).master && slot < SLOTS && n.owner[slot].None? && n.importing == map[]
    requires Claimed(n, CurrentMaster(n)) != {} && x in n.peers && x != n.id && x != CurrentMaster(n)
    ensures var step := Assign(n.id, slot, Some(n.id)); step in Moves(n) && Endangered(NodeAfter(n, step))
  {
    var step := Assign(n.id, slot, Some(n.id));
    var r := NodeAfter(n, step);
    assert slot in Claimed(r, n.id);
    var j :| j in Claimed(n, CurrentMaster(n));
    assert j in Claimed(r, CurrentMaster(r));
  }

  lemma RunOne(s: System, step: Step)
    requires step in Steps(s)
    ensures IsRun(s, [step]) && After(s, [step]) == Next(s, step)
  {
    hide Next, Steps;
    assert [step][1..] == [];
    assert IsRun(Next(s, step), []);
  }

  /** One node, one packet on its way to it, and a step of the node that sends nothing. */
  lemma AssignOne(n: Node, p: Packet, slot: nat, o: Option<Id>) returns (s: System)
    requires Assign(n.id, slot, o) in Moves(n)
    ensures s == Nodes(map[n.id := n], multiset{p}) && IsRun(s, [Assign(n.id, slot, o)])
    ensures var s' := After(s, [Assign(n.id, slot, o)]);
      n.id in s'.nodes && s'.nodes[n.id] == NodeAfter(n, Assign(n.id, slot, o)) && p in s'.net
  {
    hide NodeAfter, Moves;
    s := Nodes(map[n.id := n], multiset{p});
    RunOne(s, Assign(n.id, slot, o));
  }

  lemma AssignKeeps(n: Node, slot: nat, o: Option<Id>)
    requires Assign(n.id, slot, o) in Moves(n)
    ensures var r := NodeAfter(n, Assign(n.id, slot, o));
      r.id == n.id && r.peers == n.peers && CurrentMaster(r) == CurrentMaster(n)
  {
  }

  lemma StartOk(n: Node, p: Packet)
    requires NodeBounded(n) && PacketBounded(p) && SlavesIdle(n, true)
    ensures var s := Nodes(map[n.id := n], multiset{p}); Named(s) && Bounded(s) && AllIdle(s, true)
  {
  }

  lemma ExitsOn(n: Node, p: Packet, timely: bool)
    requires p.hdr.sender != n.id && Aborts(n, p)
    ensures Exits(n, Deliver(p, timely))
  {
  }

  /** A slave whose master serves slots and that knows a third node: it is sent ADDSLOTS of a free slot, and exits when
      the third node is said to have taken over its master. */
  lemma SlotOnSlaveExits(n: Node, slot: nat, x: Id) returns (s: System, step: Step, p: Packet)
    requires !Self(n).master && slot < SLOTS && n.owner[slot].None? && n.importing == map[]
    requires Claimed(n, CurrentMaster(n)) != {} && x in n.peers && x != n.id && x != CurrentMaster(n)
    requires NodeBounded(n) && SlavesIdle(n, true)
    ensures n.id in s.nodes && s.nodes[n.id] == n && Bounded(s) && AllIdle(s, true)
    ensures step == Assign(n.id, slot, Some(n.id)) && IsRun(s, [step])
    ensures n.id in After(s, [step]).nodes && p in After(s, [step]).net && p.to == n.id
    ensures Exits(After(s, [step]).nodes[n.id], Deliver(p, true))
  {
    hide *;
    step := Assign(n.id, slot, Some(n.id));
    AddSlotsEndangers(n, slot, x);
    AssignKeeps(n, slot, Some(n.id));
    var r := NodeAfter(n, step);
    p := Takeover(r, x);
    TakeoverAborts(r, x);
    TakeoverTo(r, x);
    StartOk(n, p);
    s := AssignOne(n, p, slot, Some(n.id));
    ExitsOn(r, p, true);
  }

  lemma TakeoverTo(n: Node, x: Id)
    requires x in n.peers
    ensures Takeover(n, x).to == n.id
  {
  }

  /** Node 1 is a slave of node 2, which serves slot 0; node 3 is another master. */
  function Replica(): (n: Node)
    ensures n.id == 1 && !Self(n).master && CurrentMaster(n) == 2 && 3 in n.peers && n.importing == map[]
    ensures n.owner[1].None? && Claimed(n, 2) == {0}
    ensures NodeBounded(n) && SlavesIdle(n, true)
  {
    var master := Peer(true, None, 0, false);
    var peers := map[1 := Peer(false, Some(2), 0, false), 2 := master, 3 := master];
    Record(1, peers, seq(SLOTS, j => if j == 0 then Some(2) else None), map[], 1, 0, 0, 0, false, 0)
  }

  /** It does happen. */
  lemma ReplicaExits() returns (s: System, step: Step, p: Packet)
    ensures Bounded(s) && AllIdle(s, true) && IsRun(s, [step]) && p in After(s, [step]).net && p.to in s.nodes
    ensures Exits(After(s, [step]).nodes[p.to], Deliver(p, true))
  {
    assert 0 in Claimed(Replica(), 2);
    hide Replica, Exits, Bounded, AllIdle, NodeBounded, SlavesIdle, Claimed, IsRun, After, Next;
    s, step, p := SlotOnSlaveExits(Replica(), 1, 3);
  }
}
