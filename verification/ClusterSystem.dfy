/** The nodes of a cluster and the packets between them, as a transition system; the order of the epochs. */
module ClusterSystem {
  import opened Options
  import opened ClusterNode

  /** Packets in flight may arrive in any order, or never. */
  datatype Nodes = Nodes(nodes: map<Id, Node>, net: multiset<Packet>)

  datatype Step =
    | Deliver(p: Packet, timely: bool)
    | Drop(p: Packet)
    | SendConfig(i: Id, to: Id)
    | SendFail(i: Id, to: Id, about: Id)
    | Suspect(i: Id, about: Id, failed: bool)
    | Learn(i: Id, other: Id, master: bool)
    | Forget(i: Id, other: Id)
    | Assign(i: Id, slot: nat, owner: Option<Id>)
    | Import(i: Id, slot: nat, from: Option<Id>)
    | UpdateState(i: Id)
    | Schedule(i: Id, manual: bool)
    | Start(i: Id, manual: bool, force: bool)
    | Win(i: Id, manual: bool)
    | TakeOver(i: Id)
    | Bump(i: Id)
    | Replicate(i: Id, to: Id)

  predicate Named(s: Nodes) { forall i :: i in s.nodes ==> s.nodes[i].id == i }

  type System = s: Nodes | Named(s) witness Nodes(map[], multiset{})

  // ---------------------------------------------------------------- steps

  /** The node a step runs on. */
  function Actor(step: Step): Id {
    match step
    case Deliver(p, _) => p.to
    case Drop(p) => p.to
    case _ => step.i
  }

  /** `clusterBumpConfigEpochWithoutConsensus` acts unless the epoch of the node is the greatest one already. */
  ghost predicate NeedsBump(n: Node)
  {
    Self(n).configEpoch == 0 || !IsMaxEpoch(n, Self(n).configEpoch)
  }

  /** Whether the code of a node makes this step. No node has a link to itself. A server that fails an assertion exits
      and makes no step any more. `Assign` is ADDSLOTS, DELSLOTS and SETSLOT; a slave refuses SETSLOT. `Replicate` is
      the command and the migration of a slave to an orphaned master. */
  ghost predicate Allows(n: Node, step: Step) {
    match step
    case Deliver(p, _) => p.hdr.sender != n.id && !Aborts(n, p)
    case Drop(_) => true
    case SendConfig(_, to) => to != n.id
    case SendFail(_, to, _) => to != n.id
    case Suspect(_, about, _) => about in n.peers && about != n.id
    case Learn(_, other, _) => other !in n.peers
    case Forget(_, other) => other in n.peers && other != n.id && Self(n).slaveof != Some(other)
    case Assign(_, slot, o) =>
      && slot < SLOTS
      && (o.Some? ==> o.value in n.peers && (Self(n).master || (o.value == n.id && n.owner[slot].None?)))
    case Import(_, slot, _) => slot < SLOTS
    case UpdateState(_) => true
    case Schedule(_, manual) => CanFailover(n, manual)
    case Start(_, manual, force) => CanFailover(n, manual) && !n.authSent && (manual ==> force)
    case Win(_, manual) => CanFailover(n, manual) && n.authSent && HasQuorum(n)
    case TakeOver(_) => !Self(n).master
    case Bump(_) => NeedsBump(n)
    case Replicate(_, to) => to in n.peers && to != n.id && n.peers[to].master && Claimed(n, n.id) == {}
  }

  ghost function Moves(n: Node): iset<Step> { iset step: Step | Allows(n, step) }

  /** What a step makes of its node. */
  ghost function NodeAfter(n: Node, step: Step): (r: Node)
    requires step in Moves(n)
    ensures r.id == n.id
  {
    match step
    case Deliver(p, timely) => Receive(n, p, timely).0
    case Suspect(_, about, failed) => SetPeer(n, about, n.peers[about].(failed := failed))
    case Learn(_, other, master) => SetPeer(n, other, Peer(master, None, 0, false))
    case Forget(_, other) => DelNode(n, other)
    case Assign(_, slot, o) => n.(owner := n.owner[slot := o])
    case Import(_, slot, from) =>
      n.(importing := if from.Some? then n.importing[slot := from.value] else n.importing - {slot})
    case UpdateState(_) => n.(size := |Voters(n)|)
    case Schedule(_, _) => ScheduleElection(n)
    case Start(_, _, _) => StartElection(n)
    case Win(_, _) => WinElection(n)
    case TakeOver(_) => ReplaceMaster(if NeedsBump(n) then BumpEpoch(n) else n)
    case Bump(_) => BumpEpoch(n)
    case Replicate(_, to) => SetMaster(n, to)
    case _ => n
  }

  /** The request a candidate broadcasts when it starts an election. */
  function Requests(n: Node, force: bool): multiset<Packet>
  {
    multiset(set to | to in n.peers && to != n.id :: Packet(to, BuildHeader(n, force), AuthRequest))
  }

  /** The packets a step sends. */
  ghost function Sent(n: Node, step: Step): multiset<Packet>
    requires step in Moves(n)
  {
    match step
    case Deliver(p, timely) => multiset(Receive(n, p, timely).1)
    case SendConfig(_, to) => multiset{Packet(to, BuildHeader(n, false), Config)}
    case SendFail(_, to, about) => multiset{Packet(to, BuildHeader(n, false), Fail(about))}
    case Start(_, _, force) => Requests(StartElection(n), force)
    case _ => multiset{}
  }

  function Taken(step: Step): multiset<Packet> {
    match step
    case Deliver(p, _) => multiset{p}
    case Drop(p) => multiset{p}
    case _ => multiset{}
  }

  ghost function Steps(s: System): iset<Step>
  {
    iset step: Step | Actor(step) in s.nodes && step in Moves(s.nodes[Actor(step)]) && Taken(step) <= s.net
  }

  ghost function Next(s: System, step: Step): (r: System)
    requires step in Steps(s)
    ensures r.nodes.Keys == s.nodes.Keys
  {
    var n := s.nodes[Actor(step)];
    Nodes(s.nodes[n.id := NodeAfter(n, step)], s.net - Taken(step) + Sent(n, step))
  }

  ghost predicate IsRun(s: System, steps: seq<Step>)
    decreases steps
  {
    steps == [] || (steps[0] in Steps(s) && IsRun(Next(s, steps[0]), steps[1..]))
  }

  ghost function After(s: System, steps: seq<Step>): (r: System)
    requires IsRun(s, steps)
    ensures r.nodes.Keys == s.nodes.Keys
    decreases steps
  {
    if steps == [] then s else After(Next(s, steps[0]), steps[1..])
  }

  lemma RunParts(s: System, steps: seq<Step>)
    requires IsRun(s, steps)
    ensures steps == [] ==> After(s, steps) == s
    ensures steps != [] ==> steps[0] in Steps(s) && IsRun(Next(s, steps[0]), steps[1..])
    ensures steps != [] ==> After(s, steps) == After(Next(s, steps[0]), steps[1..])
  {
  }

  // ---------------------------------------------------------------- the order of the epochs

  /** No epoch a node knows is above its currentEpoch. */
  predicate NodeBounded(n: Node) {
    && (forall i :: i in n.peers ==> n.peers[i].configEpoch <= n.currentEpoch)
    && n.lastVoteEpoch <= n.currentEpoch
    && n.authEpoch <= n.currentEpoch
  }

  /** No epoch in a packet is above its currentEpoch. */
  predicate PacketBounded(p: Packet) {
    && p.hdr.configEpoch <= p.hdr.currentEpoch
    && (p.body.Update? ==> p.body.configEpoch <= p.hdr.currentEpoch)
  }

  ghost predicate Bounded(s: Nodes) {
    && (forall i :: i in s.nodes ==> NodeBounded(s.nodes[i]))
    && (forall p :: p in s.net ==> PacketBounded(p))
  }

  // ---------------------------------------------------------------- what a packet leaves alone

  /** `r` differs from `n` in nothing an election counts, and knows no epoch it could not have. */
  predicate Keeps(n: Node, r: Node) {
    && r.id == n.id && r.size == n.size && r.authEpoch == n.authEpoch && r.authSent == n.authSent
    && r.authCount == n.authCount && r.lastVoteEpoch == n.lastVoteEpoch
    && r.currentEpoch >= n.currentEpoch
    && (NodeBounded(n) ==> NodeBounded(r))
  }

  lemma SetAsMasterKeeps(n: Node, i: Id)
    requires i in n.peers
    ensures Keeps(n, SetAsMaster(n, i))
  {
  }

  lemma SwitchRoleKeeps(n: Node, h: Header)
    requires h.sender in n.peers && h.sender != n.id
    ensures Keeps(n, SwitchRole(n, h))
  {
  }

  lemma UpdateSlotsKeeps(n: Node, s: Id, epoch: nat, slots: set<nat>)
    requires s in n.peers && n.peers[s].master
    ensures Keeps(n, UpdateSlots(n, s, epoch, slots))
  {
  }

  lemma ResolveCollisionKeeps(n: Node, h: Header)
    requires h.sender in n.peers
    ensures Keeps(n, ResolveCollision(n, h))
  {
  }

  lemma StaleReplyBounded(n: Node, h: Header)
    requires NodeBounded(n)
    ensures forall q :: q in StaleReply(n, h) ==> PacketBounded(q)
  {
  }

  lemma ReceiveConfigKeeps(n: Node, h: Header)
    requires h.sender in n.peers && h.sender != n.id
    ensures Keeps(n, ReceiveConfig(n, h).0)
    ensures NodeBounded(n) ==> forall q :: q in ReceiveConfig(n, h).1 ==> PacketBounded(q)
  {
    SwitchRoleKeeps(n, h);
    var a := SwitchRole(n, h);
    var b := a;
    if a.peers[h.sender].master && Dirty(a, h) {
      UpdateSlotsKeeps(a, h.sender, h.configEpoch, h.slots);
      b := UpdateSlots(a, h.sender, h.configEpoch, h.slots);
    }
    ResolveCollisionKeeps(b, h);
    if NodeBounded(n) {
      StaleReplyBounded(b, h);
    }
  }

  lemma ReceiveUpdateKeeps(n: Node, about: Id, epoch: nat, slots: set<nat>)
    requires epoch <= n.currentEpoch
    ensures Keeps(n, ReceiveUpdate(n, about, epoch, slots))
  {
    if about in n.peers && n.peers[about].configEpoch < epoch {
      var a := SetAsMaster(n, about);
      SetAsMasterKeeps(n, about);
      var b := SetPeer(a, about, a.peers[about].(configEpoch := epoch));
      assert Keeps(a, b);
      hide UpdateSlots;
      UpdateSlotsKeeps(b, about, epoch, slots);
    }
  }

  lemma SeeEpochsKeeps(n: Node, p: Packet)
    requires p.hdr.sender in n.peers && PacketBounded(p)
    ensures Keeps(n, SeeEpochs(n, p.hdr)) && SeeEpochs(n, p.hdr).currentEpoch >= p.hdr.currentEpoch
  {
  }

  /** A packet leaves alone what an election counts, but for a vote given and a vote counted. */
  lemma ReceiveKeeps(n: Node, p: Packet, timely: bool)
    requires p.hdr.sender != n.id && PacketBounded(p)
    ensures var r := Receive(n, p, timely);
      && Keeps(n, r.0.(lastVoteEpoch := n.lastVoteEpoch, authCount := n.authCount))
      && (!p.body.AuthRequest? ==> r.0.lastVoteEpoch == n.lastVoteEpoch)
      && (!p.body.AuthAck? ==> r.0.authCount == n.authCount)
      && (NodeBounded(n) ==> NodeBounded(r.0) && forall q :: q in r.1 ==> PacketBounded(q))
  {
    if p.hdr.sender in n.peers {
      SeeEpochsKeeps(n, p);
      var a := SeeEpochs(n, p.hdr);
      match p.body
      case Config => ReceiveConfigKeeps(a, p.hdr);
      case Update(about, epoch, slots) => ReceiveUpdateKeeps(a, about, epoch, slots);
      case _ =>
    }
  }

  lemma OwnStepBounded(n: Node, step: Step)
    requires step in Moves(n) && NodeBounded(n) && !step.Deliver?
    ensures NodeBounded(NodeAfter(n, step)) && NodeAfter(n, step).currentEpoch >= n.currentEpoch
  {
    hide *;
    if step.Suspect? || step.Learn? || step.Forget? || step.Assign? || step.Import? || step.Replicate? {
      TableBounded(n, step);
    } else {
      TimerBounded(n, step);
    }
  }

  lemma TableBounded(n: Node, step: Step)
    requires step in Moves(n) && NodeBounded(n)
    requires step.Suspect? || step.Learn? || step.Forget? || step.Assign? || step.Import? || step.Replicate?
    ensures NodeBounded(NodeAfter(n, step)) && NodeAfter(n, step).currentEpoch >= n.currentEpoch
  {
  }

  lemma TimerBounded(n: Node, step: Step)
    requires step in Moves(n) && NodeBounded(n) && !step.Deliver?
    requires !(step.Suspect? || step.Learn? || step.Forget? || step.Assign? || step.Import? || step.Replicate?)
    ensures NodeBounded(NodeAfter(n, step)) && NodeAfter(n, step).currentEpoch >= n.currentEpoch
  {
    match step
    case Win(_, _) => WinBounded(n);
    case TakeOver(_) => ReplaceBounded(if NeedsBump(n) then BumpEpoch(n) else n);
    case _ => hide WinElection, ReplaceMaster;
  }

  lemma ReplaceBounded(n: Node)
    requires NodeBounded(n) && !Self(n).master
    ensures NodeBounded(ReplaceMaster(n)) && ReplaceMaster(n).currentEpoch == n.currentEpoch
  {
  }

  lemma WinBounded(n: Node)
    requires NodeBounded(n) && !Self(n).master
    ensures NodeBounded(WinElection(n)) && WinElection(n).currentEpoch == n.currentEpoch
  {
  }

  lemma SentBounded(n: Node, step: Step)
    requires step in Moves(n) && NodeBounded(n) && !step.Deliver?
    ensures forall q :: q in Sent(n, step) ==> PacketBounded(q)
  {
  }

  lemma NodeAfterBounded(n: Node, step: Step)
    requires step in Moves(n) && NodeBounded(n)
    requires step.Deliver? ==> PacketBounded(step.p)
    ensures NodeBounded(NodeAfter(n, step)) && NodeAfter(n, step).currentEpoch >= n.currentEpoch
    ensures forall q :: q in Sent(n, step) ==> PacketBounded(q)
  {
    if step.Deliver? {
      ReceiveKeeps(n, step.p, step.timely);
    } else {
      OwnStepBounded(n, step);
      SentBounded(n, step);
    }
  }

  /** What holds of the node of a step and of the packets it sends holds of all that there are. */
  lemma Spread(s: System, i: Id, n: Node, taken: multiset<Packet>, sent: multiset<Packet>)
    requires Bounded(s) && i in s.nodes && NodeBounded(n) && n.currentEpoch >= s.nodes[i].currentEpoch
    requires forall q :: q in sent ==> PacketBounded(q)
    ensures Bounded(Nodes(s.nodes[i := n], s.net - taken + sent))
    ensures forall k :: k in s.nodes ==> s.nodes[i := n][k].currentEpoch >= s.nodes[k].currentEpoch
  {
  }

  lemma StepBounded(s: System, step: Step)
    requires step in Steps(s) && Bounded(s)
    ensures Bounded(Next(s, step))
    ensures forall i :: i in s.nodes ==> Next(s, step).nodes[i].currentEpoch >= s.nodes[i].currentEpoch
  {
    var n := s.nodes[Actor(step)];
    assert step.Deliver? ==> step.p in Taken(step);
    NodeAfterBounded(n, step);
    Spread(s, Actor(step), NodeAfter(n, step), Taken(step), Sent(n, step));
  }

  /** In every run, in every view and in every packet, no epoch is above the currentEpoch beside it, and no
      currentEpoch goes back. */
  lemma {:induction false} EpochsBounded(s: System, steps: seq<Step>)
    requires IsRun(s, steps) && Bounded(s)
    ensures Bounded(After(s, steps))
    ensures forall i :: i in s.nodes ==> After(s, steps).nodes[i].currentEpoch >= s.nodes[i].currentEpoch
    decreases steps
  {
    if steps != [] {
      StepBounded(s, steps[0]);
      EpochsBounded(Next(s, steps[0]), steps[1..]);
    }
  }
}
