/** The resolution of configEpoch collisions: how often a master can be moved, and when no master is. */
module ClusterCollision {
  import opened Basics
  import opened Options
  import opened ClusterNode
  import opened ClusterSystem

  /** The epochs each node had so far, and how often it moved from one to another. */
  datatype Past = Past(held: map<Id, set<nat>>, moves: map<Id, nat>)

  function OwnEpoch(n: Node): nat { Self(n).configEpoch }

  function OwnEpochs(s: Nodes): map<Id, nat> { map i | i in s.nodes :: OwnEpoch(s.nodes[i]) }

  /** No step gives a node a configEpoch but the resolution of a collision. */
  predicate OnlyCollisions(step: Step) {
    && !step.Win? && !step.TakeOver? && !step.Bump?
    && (step.Deliver? && step.p.body.Update? ==> step.p.body.about != step.p.to)
  }

  ghost function Recorded(h: Past, s: System, step: Step): Past
    requires step in Steps(s)
  {
    var i := Actor(step);
    var e := OwnEpoch(NodeAfter(s.nodes[i], step));
    if e == OwnEpoch(s.nodes[i]) || i !in h.held || i !in h.moves then h
    else Past(h.held[i := h.held[i] + {e}], h.moves[i := h.moves[i] + 1])
  }

  ghost function PastOf(h: Past, s: System, steps: seq<Step>): Past
    requires IsRun(s, steps)
    decreases steps
  {
    if steps == [] then h else PastOf(Recorded(h, s, steps[0]), Next(s, steps[0]), steps[1..])
  }

  // ---------------------------------------------------------------- one step

  lemma UpdateSlotsEpoch(n: Node, s: Id, epoch: nat, slots: set<nat>)
    requires s in n.peers && n.peers[s].master
    ensures OwnEpoch(UpdateSlots(n, s, epoch, slots)) == OwnEpoch(n)
    ensures Self(UpdateSlots(n, s, epoch, slots)).master ==> Self(n).master
    ensures var r := UpdateSlots(n, s, epoch, slots); s != n.id ==> s in r.peers && r.peers[s] == n.peers[s]
  {
  }

  lemma SwitchRoleEpoch(n: Node, h: Header)
    requires h.sender in n.peers && h.sender != n.id
    ensures Self(SwitchRole(n, h)) == Self(n)
    ensures var p := SwitchRole(n, h).peers[h.sender];
      p.configEpoch == n.peers[h.sender].configEpoch && (p.master <==> h.slaveof.None?)
  {
  }

  /** What can move a node: the packet of a master with a greater name and the same epoch. */
  predicate Collides(n: Node, p: Packet) {
    && p.body.Config? && p.hdr.sender in n.peers && p.hdr.slaveof.None?
    && p.hdr.configEpoch == OwnEpoch(n) && p.hdr.sender > n.id && Self(n).master
  }

  lemma ConfigEpoch(n: Node, h: Header)
    requires h.sender in n.peers && h.sender != n.id
    ensures var r := ReceiveConfig(n, h).0;
      OwnEpoch(r) == OwnEpoch(n) ||
      (OwnEpoch(r) == n.currentEpoch + 1 && h.slaveof.None? && h.configEpoch == OwnEpoch(n) && h.sender > n.id &&
       Self(n).master)
  {
    SwitchRoleEpoch(n, h);
    var a := SwitchRole(n, h);
    if a.peers[h.sender].master && Dirty(a, h) {
      UpdateSlotsEpoch(a, h.sender, h.configEpoch, h.slots);
    }
  }

  lemma UpdateEpoch(n: Node, about: Id, epoch: nat, slots: set<nat>)
    requires about != n.id
    ensures OwnEpoch(ReceiveUpdate(n, about, epoch, slots)) == OwnEpoch(n)
  {
    if about in n.peers && n.peers[about].configEpoch < epoch {
      var a := SetAsMaster(n, about);
      UpdateSlotsEpoch(SetPeer(a, about, a.peers[about].(configEpoch := epoch)), about, epoch, slots);
    }
  }

  lemma ReceiveEpoch(n: Node, p: Packet, timely: bool)
    requires p.hdr.sender != n.id && (p.body.Update? ==> p.body.about != n.id) && NodeBounded(n)
    ensures var r := Receive(n, p, timely).0;
      OwnEpoch(r) == OwnEpoch(n) || (OwnEpoch(r) > n.currentEpoch && Collides(n, p))
  {
    if p.hdr.sender in n.peers {
      var a := SeeEpochs(n, p.hdr);
      match p.body
      case Config => ConfigEpoch(a, p.hdr);
      case Update(about, epoch, slots) => UpdateEpoch(a, about, epoch, slots);
      case _ =>
    }
  }

  lemma StepEpoch(n: Node, step: Step)
    requires step in Moves(n) && OnlyCollisions(step) && NodeBounded(n) && Actor(step) == n.id
    ensures var e := OwnEpoch(NodeAfter(n, step));
      e == OwnEpoch(n) || (e > n.currentEpoch && step.Deliver? && Collides(n, step.p))
  {
    if step.Deliver? {
      ReceiveEpoch(n, step.p, step.timely);
    }
  }

  /** A master publishes its own epoch. */
  predicate Publishes(n: Node, q: Packet) {
    q.hdr.sender == n.id && (q.hdr.slaveof.None? ==> q.hdr.configEpoch == OwnEpoch(n))
  }

  lemma ConfigPublishes(n: Node, h: Header)
    requires h.sender in n.peers && h.sender != n.id
    ensures forall q :: q in ReceiveConfig(n, h).1 ==> Publishes(n, q)
  {
    SwitchRoleEpoch(n, h);
    var a := SwitchRole(n, h);
    if a.peers[h.sender].master && Dirty(a, h) {
      UpdateSlotsEpoch(a, h.sender, h.configEpoch, h.slots);
    }
  }

  lemma RepliesPublish(n: Node, p: Packet, timely: bool)
    requires p.hdr.sender != n.id
    ensures forall q :: q in Receive(n, p, timely).1 ==> Publishes(n, q)
  {
    hide ReceiveConfig, ReceiveUpdate, ReceiveAuthAck;
    if p.hdr.sender in n.peers && p.body.Config? {
      ConfigPublishes(SeeEpochs(n, p.hdr), p.hdr);
    }
  }

  lemma RequestsPublish(n: Node, force: bool)
    ensures forall q :: q in Requests(StartElection(n), force) ==> Publishes(n, q)
  {
  }

  lemma SentPublishes(n: Node, step: Step)
    requires step in Moves(n)
    ensures forall q :: q in Sent(n, step) ==> Publishes(n, q)
  {
    hide Receive, Requests, Moves;
    match step
    case Deliver(p, timely) =>
      NotToItself(n, step);
      RepliesPublish(n, p, timely);
    case Start(_, _, force) => RequestsPublish(n, force);
    case _ =>
  }

  lemma NotToItself(n: Node, step: Step)
    requires step in Moves(n) && step.Deliver?
    ensures step.p.hdr.sender != n.id
  {
  }

  // ---------------------------------------------------------------- every epoch that was held is held

  function Limits(s: Nodes): map<Id, nat> { map i | i in s.nodes :: s.nodes[i].currentEpoch }

  /** A node with a greater name has the epoch x now. */
  ghost predicate HeldAbove(cur: map<Id, nat>, i: Id, x: nat) { exists j :: j in cur && j > i && cur[j] == x }

  /** A packet of `late` that can move node i, or a node with a greater name, says that a greater name has epoch x. */
  ghost predicate LateAbove(late: set<Packet>, i: Id, x: nat) {
    exists p :: p in late && i <= p.to < p.hdr.sender && p.hdr.configEpoch == x
  }

  ghost predicate Above(cur: map<Id, nat>, late: set<Packet>, i: Id, x: nat) {
    HeldAbove(cur, i, x) || LateAbove(late, i, x)
  }

  /** What node i held: each of its moves took it to a new epoch, and left one that a greater name has or a late packet
      claims for one. */
  ghost predicate HeldOk(cur: map<Id, nat>, limit: nat, h: Past, late: set<Packet>, i: Id)
    requires i in cur
  {
    && i in h.held && i in h.moves
    && cur[i] in h.held[i] && |h.held[i]| == h.moves[i] + 1
    && (forall x :: x in h.held[i] ==> x <= limit && (x == cur[i] || Above(cur, late, i, x)))
  }

  /** A ping of a master: what can move a node. */
  predicate MasterPing(p: Packet) { p.body.Config? && p.hdr.slaveof.None? }

  predicate PacketHeld(h: Past, late: set<Packet>, p: Packet) {
    MasterPing(p) ==> p in late || (p.hdr.sender in h.held && p.hdr.configEpoch in h.held[p.hdr.sender])
  }

  /** The epochs of a system, and of its past; `late` are the packets that were stale from the start. */
  datatype Ledger = Ledger(cur: map<Id, nat>, limits: map<Id, nat>, net: multiset<Packet>, h: Past, late: set<Packet>)

  ghost predicate LedgerOk(l: Ledger) {
    && l.cur.Keys == l.limits.Keys == l.h.held.Keys
    && (forall i :: i in l.cur ==> HeldOk(l.cur, l.limits[i], l.h, l.late, i))
    && (forall p :: p in l.net ==> PacketHeld(l.h, l.late, p))
  }

  ghost function LedgerOf(s: System, h: Past, late: set<Packet>): Ledger {
    Ledger(OwnEpochs(s), Limits(s), s.net, h, late)
  }

  ghost const SOUND: iset<Ledger> := iset l: Ledger | LedgerOk(l)

  lemma RaiseLimit(l: Ledger, limits': map<Id, nat>, net': multiset<Packet>)
    requires l in SOUND && limits'.Keys == l.limits.Keys
    requires forall i :: i in l.limits ==> l.limits[i] <= limits'[i]
    requires forall p :: p in net' ==> p in l.net || PacketHeld(l.h, l.late, p)
    ensures l.(limits := limits', net := net') in SOUND
  {
    forall i | i in l.cur ensures HeldOk(l.cur, limits'[i], l.h, l.late, i) {
      assert HeldOk(l.cur, l.limits[i], l.h, l.late, i);
    }
  }

  function Moved(l: Ledger, i: Id, e: nat): Ledger
    requires i in l.h.held && i in l.h.moves && i in l.limits
  {
    Ledger(l.cur[i := e], l.limits[i := if e > l.limits[i] then e else l.limits[i]], l.net,
           Past(l.h.held[i := l.h.held[i] + {e}], l.h.moves[i := l.h.moves[i] + 1]), l.late)
  }

  lemma LateStaysAbove(late: set<Packet>, i: Id, g: Id, x: nat)
    requires LateAbove(late, g, x) && i <= g
    ensures LateAbove(late, i, x)
  {
    var p :| p in late && g <= p.to < p.hdr.sender && p.hdr.configEpoch == x;
    assert i <= p.to;
  }

  /** The packet makes node i move: a master with a greater name has its epoch. */
  predicate Provokes(p: Packet, i: Id, x: nat) {
    MasterPing(p) && p.to == i && p.hdr.sender > i && p.hdr.configEpoch == x
  }

  /** The epoch that node i leaves stays above: with the sender, or with the node that has it above the sender, or in
      a late packet. */
  lemma StaysAbove(l: Ledger, i: Id, e: nat, p: Packet)
    requires LedgerOk(l) && i in l.cur && p in l.net && Provokes(p, i, l.cur[i])
    ensures Above(l.cur[i := e], l.late, i, l.cur[i])
  {
    var g := p.hdr.sender;
    assert PacketHeld(l.h, l.late, p);
    if p in l.late {
      return;
    }
    assert HeldOk(l.cur, l.limits[g], l.h, l.late, g);
    if l.cur[g] == l.cur[i] {
      assert l.cur[i := e][g] == l.cur[i];
    } else if LateAbove(l.late, g, l.cur[i]) {
      LateStaysAbove(l.late, i, g, l.cur[i]);
    } else {
      var j :| j in l.cur && j > g && l.cur[j] == l.cur[i];
      assert l.cur[i := e][j] == l.cur[i];
    }
  }

  /** What was above a node still is after node i moves. */
  lemma StillAbove(cur: map<Id, nat>, late: set<Packet>, i: Id, e: nat, k: Id, x: nat)
    requires i in cur && Above(cur, late, k, x) && Above(cur[i := e], late, i, cur[i])
    ensures Above(cur[i := e], late, k, x)
  {
    if HeldAbove(cur, k, x) {
      var j :| j in cur && j > k && cur[j] == x;
      if j != i {
        assert cur[i := e][j] == x;
      } else if LateAbove(late, i, x) {
        LateStaysAbove(late, k, i, x);
      } else {
        var g :| g in cur[i := e] && g > i && cur[i := e][g] == cur[i];
        assert g > k && cur[i := e][g] == x;
      }
    }
  }

  lemma MoveHeld(l: Ledger, i: Id, e: nat, k: Id)
    requires LedgerOk(l) && i in l.cur && k in l.cur && e > l.limits[i] && Above(l.cur[i := e], l.late, i, l.cur[i])
    requires i in l.h.held && i in l.h.moves
    ensures HeldOk(Moved(l, i, e).cur, Moved(l, i, e).limits[k], Moved(l, i, e).h, l.late, k)
  {
    assert HeldOk(l.cur, l.limits[k], l.h, l.late, k);
    forall x | x in l.h.held[k] && Above(l.cur, l.late, k, x) ensures Above(l.cur[i := e], l.late, k, x) {
      StillAbove(l.cur, l.late, i, e, k, x);
    }
  }

  lemma PacketsStay(l: Ledger, i: Id, e: nat)
    requires i in l.h.held && i in l.h.moves && i in l.limits && forall q :: q in l.net ==> PacketHeld(l.h, l.late, q)
    ensures forall q :: q in l.net ==> PacketHeld(Moved(l, i, e).h, l.late, q)
  {
  }

  lemma HeldHere(l: Ledger, i: Id)
    requires LedgerOk(l) && i in l.cur
    ensures i in l.h.held && i in l.h.moves && i in l.limits
  {
    assert HeldOk(l.cur, l.limits[i], l.h, l.late, i);
  }

  lemma MoveKeeps(l: Ledger, i: Id, e: nat, p: Packet)
    requires l in SOUND && i in l.cur && p in l.net && e > l.limits[i] && Provokes(p, i, l.cur[i])
    ensures i in l.h.held && i in l.h.moves && Moved(l, i, e) in SOUND
  {
    hide HeldOk, Above, PacketHeld;
    HeldHere(l, i);
    StaysAbove(l, i, e, p);
    var l' := Moved(l, i, e);
    forall k | k in l'.cur ensures HeldOk(l'.cur, l'.limits[k], l'.h, l.late, k) {
      MoveHeld(l, i, e, k);
    }
    PacketsStay(l, i, e);
  }

  lemma SetEpochs(s: System, i: Id, n: Node, net: multiset<Packet>)
    requires i in s.nodes
    ensures OwnEpochs(Nodes(s.nodes[i := n], net)) == OwnEpochs(s)[i := OwnEpoch(n)]
    ensures OwnEpoch(n) == OwnEpoch(s.nodes[i]) ==> OwnEpochs(Nodes(s.nodes[i := n], net)) == OwnEpochs(s)
  {
  }

  lemma NextEpochs(s: System, step: Step)
    requires step in Steps(s)
    ensures var i := Actor(step);
      && i in s.nodes && s.nodes[i].id == i && step in Moves(s.nodes[i])
      && OwnEpochs(Next(s, step)) == OwnEpochs(s)[i := OwnEpoch(NodeAfter(s.nodes[i], step))]
      && (OwnEpoch(NodeAfter(s.nodes[i], step)) == OwnEpoch(s.nodes[i]) ==> OwnEpochs(Next(s, step)) == OwnEpochs(s))
  {
    hide NodeAfter;
    SetEpochs(s, Actor(step), NodeAfter(s.nodes[Actor(step)], step), Next(s, step).net);
  }

  lemma NextPackets(s: System, step: Step, h: Past, late: set<Packet>)
    requires step in Steps(s) && LedgerOf(s, h, late) in SOUND
    ensures forall q :: q in Next(s, step).net ==> q in s.net || PacketHeld(h, late, q)
  {
    hide NodeAfter, Sent, Moves;
    var n := s.nodes[Actor(step)];
    SentPublishes(n, step);
    assert HeldOk(OwnEpochs(s), Limits(s)[n.id], h, late, n.id);
    forall q | q in Sent(n, step) ensures PacketHeld(h, late, q) {
      assert Publishes(n, q);
    }
  }

  lemma NextLimits(s: System, step: Step)
    requires step in Steps(s) && Bounded(s)
    ensures Limits(Next(s, step)).Keys == Limits(s).Keys
    ensures forall i :: i in s.nodes ==>
      i in Limits(s) && i in Limits(Next(s, step)) && Limits(s)[i] <= Limits(Next(s, step))[i]
    ensures OwnEpoch(NodeAfter(s.nodes[Actor(step)], step)) <= Limits(Next(s, step))[Actor(step)]
  {
    StepBounded(s, step);
    hide NodeAfter, Moves, Sent;
    assert NodeBounded(Next(s, step).nodes[Actor(step)]);
  }

  lemma StayLedger(s: System, step: Step, h: Past, late: set<Packet>)
    requires step in Steps(s) && Bounded(s) && LedgerOf(s, h, late) in SOUND
    requires OwnEpoch(NodeAfter(s.nodes[Actor(step)], step)) == OwnEpoch(s.nodes[Actor(step)])
    ensures LedgerOf(Next(s, step), Recorded(h, s, step), late) in SOUND
  {
    hide NodeAfter, Moves, LedgerOk, Steps, Next;
    NextEpochs(s, step);
    NextPackets(s, step, h, late);
    NextLimits(s, step);
    RaiseLimit(LedgerOf(s, h, late), Limits(Next(s, step)), Next(s, step).net);
  }

  /** Node i goes to epoch e and nothing else changes that the ledger tells. */
  ghost predicate Goes(s: System, s': System, h: Past, late: set<Packet>, i: Id, e: nat) {
    && i in s.nodes && i in h.held && i in h.moves
    && OwnEpochs(s') == OwnEpochs(s)[i := e]
    && Limits(s').Keys == Limits(s).Keys && i in Limits(s') && e <= Limits(s')[i]
    && (forall k :: k in s.nodes ==> k in Limits(s) && k in Limits(s') && Limits(s)[k] <= Limits(s')[k])
    && (forall q :: q in s'.net ==> q in s.net || PacketHeld(h, late, q))
  }

  /** The packet that makes it go: a claim of its epoch by a node with a greater name. */
  predicate Provoked(s: System, i: Id, e: nat, p: Packet) {
    && i in s.nodes && p in s.net && e > s.nodes[i].currentEpoch
    && Provokes(p, i, OwnEpoch(s.nodes[i]))
  }

  /** What the past gains. */
  predicate Noted(h: Past, h': Past, i: Id, e: nat) {
    i in h.held && i in h.moves && h' == Past(h.held[i := h.held[i] + {e}], h.moves[i := h.moves[i] + 1])
  }

  /** The new epoch of the node of a step. */
  ghost function NewEpoch(s: System, step: Step): nat
    requires step in Steps(s)
  {
    OwnEpoch(NodeAfter(s.nodes[Actor(step)], step))
  }

  lemma StepGoes(s: System, step: Step, h: Past, late: set<Packet>)
    requires step in Steps(s) && Bounded(s) && LedgerOf(s, h, late) in SOUND
    ensures Goes(s, Next(s, step), h, late, Actor(step), NewEpoch(s, step))
  {
    NextEpochs(s, step);
    NextPackets(s, step, h, late);
    NextLimits(s, step);
    LedgerAt(s, h, late, Actor(step));
    hide Next, Steps, NodeAfter, Moves, Bounded, LedgerOk, OwnEpochs, Limits, PacketHeld, OwnEpoch;
  }

  /** The delivery is a collision that gives its node a new epoch. */
  ghost predicate MovesUp(s: System, step: Step) {
    && step in Steps(s) && step.Deliver?
    && OwnEpoch(NodeAfter(s.nodes[step.p.to], step)) > s.nodes[step.p.to].currentEpoch
    && Collides(s.nodes[step.p.to], step.p)
  }

  lemma MovesUpMeans(s: System, step: Step)
    requires MovesUp(s, step) && Bounded(s)
    ensures step in Steps(s) && step.Deliver? && Actor(step) == step.p.to
    ensures Provoked(s, Actor(step), NewEpoch(s, step), step.p)
    ensures Actor(step) in s.nodes && NewEpoch(s, step) != OwnEpoch(s.nodes[Actor(step)])
  {
    CollidingPacket(s, step);
    hide NodeAfter, Moves, Bounded, OwnEpoch;
  }

  lemma MoveNoted(s: System, step: Step, h: Past)
    requires step in Steps(s) && Actor(step) in h.held && Actor(step) in h.moves
    requires NewEpoch(s, step) != OwnEpoch(s.nodes[Actor(step)])
    ensures Noted(h, Recorded(h, s, step), Actor(step), NewEpoch(s, step))
  {
    hide NodeAfter, Moves;
  }

  lemma GoesWhere(s: System, s': System, h: Past, late: set<Packet>, i: Id, e: nat)
    requires Goes(s, s', h, late, i, e)
    ensures i in h.held && i in h.moves
  {
  }

  lemma MoveLedger(s: System, step: Step, h: Past, late: set<Packet>)
    requires MovesUp(s, step) && Bounded(s) && LedgerOf(s, h, late) in SOUND
    ensures step in Steps(s) && LedgerOf(Next(s, step), Recorded(h, s, step), late) in SOUND
  {
    hide *;
    MovesUpMeans(s, step);
    StepGoes(s, step, h, late);
    GoesWhere(s, Next(s, step), h, late, Actor(step), NewEpoch(s, step));
    MoveNoted(s, step, h);
    MovedLedger(s, Next(s, step), h, late, Recorded(h, s, step), Actor(step), NewEpoch(s, step), step.p);
  }

  lemma MovedLedger(s: System, s': System, h: Past, late: set<Packet>, h': Past, i: Id, e: nat, p: Packet)
    requires LedgerOf(s, h, late) in SOUND && Goes(s, s', h, late, i, e) && Provoked(s, i, e, p) && Noted(h, h', i, e)
    ensures LedgerOf(s', h', late) in SOUND
  {
    hide *;
    MovedRaises(s, s', h, late, i, e, p);
    MoveAndRaise(LedgerOf(s, h, late), i, e, p, Limits(s'), s'.net);
    MovedIs(s, s', h, late, h', i, e);
  }

  /** A move in the terms of the ledger. */
  ghost predicate Raises(l: Ledger, i: Id, e: nat, p: Packet, limits': map<Id, nat>, net': multiset<Packet>) {
    && i in l.cur && i in l.limits && p in l.net && e > l.limits[i]
    && Provokes(p, i, l.cur[i])
    && limits'.Keys == l.limits.Keys && (forall k :: k in l.limits ==> l.limits[k] <= limits'[k]) && e <= limits'[i]
    && forall q :: q in net' ==> q in l.net || PacketHeld(l.h, l.late, q)
  }

  lemma MovedRaises(s: System, s': System, h: Past, late: set<Packet>, i: Id, e: nat, p: Packet)
    requires LedgerOf(s, h, late) in SOUND && Goes(s, s', h, late, i, e) && Provoked(s, i, e, p)
    ensures Raises(LedgerOf(s, h, late), i, e, p, Limits(s'), s'.net)
  {
    LedgerAt(s, h, late, i);
    hide LedgerOk, OwnEpochs, Limits, PacketHeld, OwnEpoch;
  }

  lemma LedgerAt(s: System, h: Past, late: set<Packet>, i: Id)
    requires i in s.nodes && LedgerOf(s, h, late) in SOUND
    ensures var l := LedgerOf(s, h, late);
      && i in l.cur && i in l.limits && l.cur[i] == OwnEpoch(s.nodes[i]) && l.limits[i] == s.nodes[i].currentEpoch
      && l.net == s.net && l.limits == Limits(s) && Limits(s).Keys == s.nodes.Keys
      && l.h == h && i in h.held && i in h.moves
  {
    assert HeldOk(OwnEpochs(s), Limits(s)[i], h, late, i);
  }

  lemma MoveAndRaise(l: Ledger, i: Id, e: nat, p: Packet, limits': map<Id, nat>, net': multiset<Packet>)
    requires l in SOUND && Raises(l, i, e, p, limits', net')
    ensures i in l.h.held && i in l.h.moves && i in l.limits && Moved(l, i, e).(limits := limits', net := net') in SOUND
  {
    MoveKeeps(l, i, e, p);
    MovedPackets(l, i, e, net');
    hide LedgerOk;
    RaiseLimit(Moved(l, i, e), limits', net');
  }

  lemma MovedIs(s: System, s': System, h: Past, late: set<Packet>, h': Past, i: Id, e: nat)
    requires Goes(s, s', h, late, i, e) && Noted(h, h', i, e)
    ensures i in LedgerOf(s, h, late).h.held && i in LedgerOf(s, h, late).h.moves && i in LedgerOf(s, h, late).limits
    ensures LedgerOf(s', h', late) == Moved(LedgerOf(s, h, late), i, e).(limits := Limits(s'), net := s'.net)
  {
    hide *;
    GoesParts(s, s', h, late, h', i, e);
    InLimits(s, i);
    LedgerIs(s, h, late);
    LedgerIs(s', h', late);
    MovedLike(LedgerOf(s, h, late), i, e, Limits(s'), s'.net);
  }

  lemma GoesParts(s: System, s': System, h: Past, late: set<Packet>, h': Past, i: Id, e: nat)
    requires Goes(s, s', h, late, i, e) && Noted(h, h', i, e)
    ensures i in s.nodes && i in h.held && i in h.moves && OwnEpochs(s') == OwnEpochs(s)[i := e]
    ensures h' == Past(h.held[i := h.held[i] + {e}], h.moves[i := h.moves[i] + 1])
  {
    hide OwnEpochs, Limits, PacketHeld;
  }

  lemma InLimits(s: System, i: Id)
    requires i in s.nodes
    ensures i in Limits(s)
  {
  }

  lemma LedgerIs(s: System, h: Past, late: set<Packet>)
    ensures LedgerOf(s, h, late) == Ledger(OwnEpochs(s), Limits(s), s.net, h, late)
  {
  }

  lemma MovedLike(l: Ledger, i: Id, e: nat, limits: map<Id, nat>, net: multiset<Packet>)
    requires i in l.h.held && i in l.h.moves && i in l.limits
    ensures Moved(l, i, e).(limits := limits, net := net) ==
      Ledger(l.cur[i := e], limits, net,
             Past(l.h.held[i := l.h.held[i] + {e}], l.h.moves[i := l.h.moves[i] + 1]), l.late)
  {
  }

  lemma CollidingPacket(s: System, step: Step)
    requires step in Steps(s) && step.Deliver? && Bounded(s) && Collides(s.nodes[step.p.to], step.p)
    ensures step.p in s.net && s.nodes[step.p.to].id == step.p.to
    ensures Provokes(step.p, step.p.to, OwnEpoch(s.nodes[step.p.to]))
    ensures OwnEpoch(s.nodes[step.p.to]) <= s.nodes[step.p.to].currentEpoch
  {
    assert step.p in Taken(step);
    assert NodeBounded(s.nodes[step.p.to]);
  }

  lemma MovedPackets(l: Ledger, i: Id, e: nat, net: multiset<Packet>)
    requires i in l.h.held && i in l.h.moves && i in l.limits
    requires forall q :: q in net ==> q in l.net || PacketHeld(l.h, l.late, q)
    ensures forall q :: q in net ==> q in l.net || PacketHeld(Moved(l, i, e).h, l.late, q)
  {
    assert forall q :: PacketHeld(l.h, l.late, q) ==> PacketHeld(Moved(l, i, e).h, l.late, q);
  }

  lemma StepLedger(s: System, step: Step, h: Past, late: set<Packet>)
    requires step in Steps(s) && OnlyCollisions(step) && Bounded(s) && LedgerOf(s, h, late) in SOUND
    ensures LedgerOf(Next(s, step), Recorded(h, s, step), late) in SOUND
  {
    hide NodeAfter, Moves, LedgerOk, Next, Recorded, Collides;
    var n := s.nodes[Actor(step)];
    assert NodeBounded(n);
    StepEpoch(n, step);
    if OwnEpoch(NodeAfter(n, step)) == OwnEpoch(n) {
      StayLedger(s, step, h, late);
    } else {
      MoveLedger(s, step, h, late);
    }
  }

  // ---------------------------------------------------------------- runs

  ghost function NoMoves(s: System): Past {
    Past(map i | i in s.nodes :: {OwnEpoch(s.nodes[i])}, map i | i in s.nodes :: 0)
  }

  /** The pings of masters on their way with another epoch than their sender has. */
  ghost function Late(s: System): set<Packet> {
    set p | p in s.net && MasterPing(p) &&
      !(p.hdr.sender in s.nodes && p.hdr.configEpoch == OwnEpoch(s.nodes[p.hdr.sender]))
  }

  lemma StartLedger(s: System)
    requires Bounded(s)
    ensures LedgerOf(s, NoMoves(s), Late(s)) in SOUND
  {
    StartParts(s);
    forall i | i in s.nodes ensures HeldOk(OwnEpochs(s), Limits(s)[i], NoMoves(s), Late(s), i) {
      assert NodeBounded(s.nodes[i]);
      StartHeld(s, i);
    }
    hide OwnEpochs, Limits, NoMoves, HeldOk, PacketHeld, Bounded, Late;
  }

  lemma StartParts(s: System)
    ensures OwnEpochs(s).Keys == s.nodes.Keys && Limits(s).Keys == s.nodes.Keys && NoMoves(s).held.Keys == s.nodes.Keys
    ensures forall p :: p in s.net ==> PacketHeld(NoMoves(s), Late(s), p)
  {
  }

  lemma StartHeld(s: System, i: Id)
    requires i in s.nodes && NodeBounded(s.nodes[i])
    ensures HeldOk(OwnEpochs(s), Limits(s)[i], NoMoves(s), Late(s), i)
  {
    assert NoMoves(s).held[i] == {OwnEpochs(s)[i]};
  }

  lemma PastParts(s: System, steps: seq<Step>, h: Past)
    requires IsRun(s, steps)
    ensures steps == [] ==> PastOf(h, s, steps) == h
    ensures steps != [] ==> steps[0] in Steps(s) && IsRun(Next(s, steps[0]), steps[1..])
    ensures steps != [] ==> PastOf(h, s, steps) == PastOf(Recorded(h, s, steps[0]), Next(s, steps[0]), steps[1..])
  {
    hide Next, Recorded;
  }

  lemma {:induction false} RunLedger(s: System, steps: seq<Step>, h: Past, late: set<Packet>)
    requires IsRun(s, steps) && Bounded(s) && LedgerOf(s, h, late) in SOUND
    requires forall k :: 0 <= k < |steps| ==> OnlyCollisions(steps[k])
    ensures LedgerOf(After(s, steps), PastOf(h, s, steps), late) in SOUND
    decreases steps
  {
    hide *;
    RunParts(s, steps);
    PastParts(s, steps, h);
    if steps != [] {
      StepBounded(s, steps[0]);
      StepLedger(s, steps[0], h, late);
      RunLedger(Next(s, steps[0]), steps[1..], Recorded(h, s, steps[0]), late);
    }
  }

  /** The nodes with a greater name. */
  function Greater(s: Nodes, i: Id): set<Id> { set j | j in s.nodes && j > i }

  lemma {:induction false} ImageSize(cur: map<Id, nat>, keys: set<Id>) returns (image: set<nat>)
    requires keys <= cur.Keys
    ensures |image| <= |keys| && forall j :: j in keys ==> cur[j] in image
  {
    if keys == {} {
      image := {};
    } else {
      var j :| j in keys;
      image := ImageSize(cur, keys - {j});
      image := image + {cur[j]};
    }
  }

  /** The epochs that late packets to node i, or to nodes with greater names, claim for a name greater than theirs. */
  function LateEpochs(late: set<Packet>, i: Id): set<nat> {
    set p | p in late && i <= p.to < p.hdr.sender :: p.hdr.configEpoch
  }

  lemma MovesBounded(l: Ledger, i: Id)
    requires LedgerOk(l) && i in l.cur
    ensures i in l.h.moves && l.h.moves[i] <= |set j | j in l.cur && j > i| + |LateEpochs(l.late, i)|
  {
    assert HeldOk(l.cur, l.limits[i], l.h, l.late, i);
    var image := ImageSize(l.cur, set j | j in l.cur && j > i);
    var past := l.h.held[i] - {l.cur[i]};
    forall x | x in past ensures x in image + LateEpochs(l.late, i) {
      assert Above(l.cur, l.late, i, x);
    }
    SubsetSize(past, image + LateEpochs(l.late, i));
  }

  /** Over any run in which only collisions change configEpochs, whatever arrives late or never, a node moves at most
      once for each node with a greater name, and once for each other epoch that a ping on its way at the start claims
      for such a node. */
  lemma CollisionsEnd(s: System, steps: seq<Step>, i: Id)
    requires IsRun(s, steps) && Bounded(s) && i in s.nodes
    requires forall k :: 0 <= k < |steps| ==> OnlyCollisions(steps[k])
    ensures var h := PastOf(NoMoves(s), s, steps);
      i in h.moves && h.moves[i] <= |Greater(s, i)| + |LateEpochs(Late(s), i)|
  {
    hide *;
    StartLedger(s);
    RunLedger(s, steps, NoMoves(s), Late(s));
    var s', h := After(s, steps), PastOf(NoMoves(s), s, steps);
    EndBounded(s', h, Late(s), i);
    EpochKeys(s');
    GreaterIs(s, OwnEpochs(s'), i);
  }

  /** What is on its way is what its sender has. */
  ghost predicate Fresh(s: System) {
    forall p :: p in s.net && MasterPing(p) ==>
      p.hdr.sender in s.nodes && p.hdr.configEpoch == OwnEpoch(s.nodes[p.hdr.sender])
  }

  /** From such a start the k-th greatest name moves at most k - 1 times, and the greatest never. */
  lemma FreshCollisionsEnd(s: System, steps: seq<Step>, i: Id)
    requires IsRun(s, steps) && Bounded(s) && Fresh(s) && i in s.nodes
    requires forall k :: 0 <= k < |steps| ==> OnlyCollisions(steps[k])
    ensures var h := PastOf(NoMoves(s), s, steps);
      i in h.moves && h.moves[i] <= |Greater(s, i)|
  {
    CollisionsEnd(s, steps, i);
    assert LateEpochs(Late(s), i) == {};
    hide IsRun, PastOf;
  }

  lemma EndBounded(s: System, h: Past, late: set<Packet>, i: Id)
    requires LedgerOf(s, h, late) in SOUND && i in s.nodes
    ensures i in h.moves && h.moves[i] <= |set j | j in OwnEpochs(s) && j > i| + |LateEpochs(late, i)|
  {
    MovesBounded(LedgerOf(s, h, late), i);
  }

  lemma EpochKeys(s: System)
    ensures OwnEpochs(s).Keys == s.nodes.Keys
  {
  }

  lemma GreaterIs(s: System, cur: map<Id, nat>, i: Id)
    requires s.nodes.Keys == cur.Keys
    ensures Greater(s, i) == set j | j in cur && j > i
  {
  }

  // ---------------------------------------------------------------- when no node moves

  function Ping(s: System, j: Id, i: Id): Packet
    requires j in s.nodes
  {
    Packet(i, BuildHeader(s.nodes[j], false), Config)
  }

  /** A claim at the epoch of a master takes no slot from it. */
  lemma StaysMaster(n: Node, s: Id, slots: set<nat>)
    requires s in n.peers && n.peers[s].master && Self(n).master && s != n.id
    ensures Self(UpdateSlots(n, s, OwnEpoch(n), slots)) == Self(n)
  {
    assert !TakesFromMaster(n, s, OwnEpoch(n), slots);
  }

  lemma ConfigMoves(n: Node, h: Header)
    requires h.sender in n.peers && h.sender > n.id && h.slaveof.None? && Self(n).master
    requires h.configEpoch == OwnEpoch(n) == n.peers[h.sender].configEpoch <= n.currentEpoch
    ensures OwnEpoch(ReceiveConfig(n, h).0) == n.currentEpoch + 1
  {
    SwitchRoleEpoch(n, h);
    var a := SwitchRole(n, h);
    if Dirty(a, h) {
      StaysMaster(a, h.sender, h.slots);
      UpdateSlotsEpoch(a, h.sender, h.configEpoch, h.slots);
    }
  }

  /** A ping that is up to date moves a master exactly when it comes from a greater name with the same epoch. */
  lemma PingMoves(s: System, i: Id, j: Id, timely: bool)
    requires i in s.nodes && j in s.nodes && i != j && j in s.nodes[i].peers && Bounded(s)
    requires Self(s.nodes[i]).master && Self(s.nodes[j]).master
    requires s.nodes[i].peers[j].configEpoch <= OwnEpoch(s.nodes[j])
    ensures OwnEpoch(Receive(s.nodes[i], Ping(s, j, i), timely).0) != OwnEpoch(s.nodes[i]) <==>
      OwnEpoch(s.nodes[i]) == OwnEpoch(s.nodes[j]) && j > i
  {
    var n, h := s.nodes[i], Ping(s, j, i).hdr;
    assert NodeBounded(n);
    ReceiveEpoch(n, Ping(s, j, i), timely);
    if OwnEpoch(n) == OwnEpoch(s.nodes[j]) && j > i {
      ConfigMoves(SeeEpochs(n, h), h);
    }
  }

  /** A master of the cluster. */
  predicate IsMaster(s: System, i: Id) { i in s.nodes && Self(s.nodes[i]).master }

  /** Masters know each other, and none by an epoch ahead of its own. */
  ghost predicate UpToDate(s: System) {
    forall i, j :: IsMaster(s, i) && IsMaster(s, j) ==>
      j in s.nodes[i].peers && s.nodes[i].peers[j].configEpoch <= OwnEpoch(s.nodes[j])
  }

  ghost predicate NoPingMoves(s: System, i: Id, j: Id)
    requires i in s.nodes && j in s.nodes && i != j
  {
    OwnEpoch(Receive(s.nodes[i], Ping(s, j, i), false).0) == OwnEpoch(s.nodes[i])
  }

  /** A ping from or to a slave moves nobody. */
  lemma SlavesMoveNobody(s: System, i: Id, j: Id)
    requires Bounded(s) && i in s.nodes && j in s.nodes && i != j && !(IsMaster(s, i) && IsMaster(s, j))
    ensures NoPingMoves(s, i, j)
  {
    assert NodeBounded(s.nodes[i]);
    ReceiveEpoch(s.nodes[i], Ping(s, j, i), false);
  }

  /** Under views that are up to date, no ping moves any node exactly when the configEpochs of the masters differ. */
  lemma QuietMeansDistinct(s: System)
    requires Bounded(s) && UpToDate(s)
    ensures (forall i, j :: i in s.nodes && j in s.nodes && i != j ==> NoPingMoves(s, i, j)) <==>
      (forall i, j :: IsMaster(s, i) && IsMaster(s, j) && i != j ==> OwnEpoch(s.nodes[i]) != OwnEpoch(s.nodes[j]))
  {
    forall i, j | i in s.nodes && j in s.nodes && i != j
      ensures NoPingMoves(s, i, j) <==>
        !(IsMaster(s, i) && IsMaster(s, j) && OwnEpoch(s.nodes[i]) == OwnEpoch(s.nodes[j]) && j > i)
    {
      hide Receive, Bounded, NodeBounded;
      if IsMaster(s, i) && IsMaster(s, j) {
        PingMoves(s, i, j, false);
      } else {
        SlavesMoveNobody(s, i, j);
      }
    }
    hide NoPingMoves, Bounded, UpToDate;
    if forall i, j :: i in s.nodes && j in s.nodes && i != j ==> NoPingMoves(s, i, j) {
      forall i, j | IsMaster(s, i) && IsMaster(s, j) && i != j ensures OwnEpoch(s.nodes[i]) != OwnEpoch(s.nodes[j]) {
        assert NoPingMoves(s, i, j) && NoPingMoves(s, j, i);
      }
    }
  }
}
