/** What each packet, timer and command does, said of the fields of the node and of the packets it sends. */
module ClusterEffects {
  import opened Options
  import opened ClusterNode
  import opened ClusterSystem

  function Max(a: nat, b: nat): nat { if a < b then b else a }

  /** The slots that the table of n gives to i. */
  ghost predicate Serves(n: Node, i: Id, slots: set<nat>) {
    forall j: nat :: j in slots <==> j < SLOTS && n.owner[j] == Some(i)
  }

  /** The two differ in these fields at most: the table of nodes, the current epoch. */
  ghost predicate SameElection(n: Node, r: Node) {
    && r.id == n.id && r.size == n.size && r.lastVoteEpoch == n.lastVoteEpoch
    && r.authEpoch == n.authEpoch && r.authSent == n.authSent && r.authCount == n.authCount
  }

  /** The header of any packet: a slave speaks for its master. */
  lemma HeaderSays(n: Node, forceAck: bool)
    ensures var h := BuildHeader(n, forceAck); var me := n.peers[n.id];
      && h.sender == n.id && h.currentEpoch == n.currentEpoch && h.slaveof == me.slaveof && h.forceAck == forceAck
      && (me.master ==> h.configEpoch == me.configEpoch && Serves(n, n.id, h.slots))
      && (!me.master ==> h.configEpoch == n.peers[me.slaveof.value].configEpoch && Serves(n, me.slaveof.value, h.slots))
  {
  }

  // ---------------------------------------------------------------- the parts of a packet

  /** The epochs of a header are taken over where they are greater, and nothing else. */
  lemma EpochsSeen(n: Node, h: Header)
    requires h.sender in n.peers
    ensures SeeEpochs(n, h) == n.(currentEpoch := Max(n.currentEpoch, h.currentEpoch),
      peers := n.peers[h.sender :=
        n.peers[h.sender].(configEpoch := Max(n.peers[h.sender].configEpoch, h.configEpoch))])
  {
  }

  /** The claim takes the slot j: it is claimed, not served by the claimant, not being imported, and free or served by
      a node with a smaller epoch. */
  ghost predicate Takes(n: Node, s: Id, epoch: nat, slots: set<nat>, j: nat)
    requires j < SLOTS
  {
    && j in slots && n.owner[j] != Some(s) && j !in n.importing
    && (n.owner[j] == None || n.peers[n.owner[j].value].configEpoch < epoch)
  }

  /** What a claim of another node does: the slots it takes change hands; a node that loses the last slot of the master
      it is, or is a slave of, becomes a slave of the claimant, and imports nothing if it was a master. */
  lemma ClaimEffect(n: Node, s: Id, epoch: nat, slots: set<nat>)
    requires s in n.peers && n.peers[s].master && s != n.id
    ensures var r := UpdateSlots(n, s, epoch, slots); var me := n.peers[n.id];
      var m := if me.master then n.id else me.slaveof.value;
      var loses := (exists j :: 0 <= j < SLOTS && n.owner[j] == Some(m) && Takes(n, s, epoch, slots, j)) &&
                   forall j :: 0 <= j < SLOTS && n.owner[j] == Some(m) ==> Takes(n, s, epoch, slots, j);
      && SameElection(n, r) && r.currentEpoch == n.currentEpoch
      && (forall j :: 0 <= j < SLOTS ==> r.owner[j] == if Takes(n, s, epoch, slots, j) then Some(s) else n.owner[j])
      && r.peers == (if loses then n.peers[n.id := me.(master := false, slaveof := Some(s))] else n.peers)
      && r.importing == (if loses && me.master then map[] else n.importing)
  {
    var m := CurrentMaster(n);
    var b := Rebound(n, s, epoch, slots);
    assert forall j :: 0 <= j < SLOTS ==> (Rebinds(n, s, epoch, slots, j) <==> Takes(n, s, epoch, slots, j));
    LosesLast(n, s, epoch, slots, m);
  }

  lemma LosesLast(n: Node, s: Id, epoch: nat, slots: set<nat>, m: Id)
    requires s in n.peers && n.peers[s].master
    ensures Claimed(Rebound(n, s, epoch, slots), m) == {} && s != m ==>
      forall j :: 0 <= j < SLOTS && n.owner[j] == Some(m) ==> Rebinds(n, s, epoch, slots, j)
    ensures s != m && (forall j :: 0 <= j < SLOTS && n.owner[j] == Some(m) ==> Rebinds(n, s, epoch, slots, j)) ==>
      Claimed(Rebound(n, s, epoch, slots), m) == {}
    ensures TakesFromMaster(n, s, epoch, slots) && m == CurrentMaster(n) ==> s != m
  {
    var b := Rebound(n, s, epoch, slots);
    if Claimed(b, m) == {} {
      forall j: nat | j < SLOTS && n.owner[j] == Some(m) ensures b.owner[j] != Some(m) {
        assert b.owner[j] == Some(m) ==> j in Claimed(b, m);
      }
    }
  }

  /** Slot j is claimed, and served by another node with a greater epoch. */
  ghost predicate Stale(n: Node, h: Header, j: nat) {
    && j < SLOTS && j in h.slots && n.owner[j].Some? && n.owner[j].value != h.sender
    && n.peers[n.owner[j].value].configEpoch > h.configEpoch
  }

  lemma {:induction false} FirstStaleIs(n: Node, h: Header, from: nat)
    requires from <= SLOTS
    ensures var r := FirstStale(n, h, from);
      if r.None? then forall j :: from <= j < SLOTS ==> !Stale(n, h, j)
      else from <= r.value && Stale(n, h, r.value) && forall j :: from <= j < r.value ==> !Stale(n, h, j)
    decreases SLOTS - from
  {
    if from < SLOTS && !Stale(n, h, from) {
      FirstStaleIs(n, h, from + 1);
    }
  }

  /** A stale claim is answered, and no other: the sender is told who serves the first such slot, in which epoch and
      with which slots. */
  ghost predicate Answers(n: Node, h: Header, out: seq<Packet>) {
    if forall j: nat :: !Stale(n, h, j) then out == []
    else
      exists j: nat :: Stale(n, h, j) && (forall i: nat :: i < j ==> !Stale(n, h, i)) &&
        var o := n.owner[j].value;
        && |out| == 1 && out[0].to == h.sender && out[0].hdr.sender == n.id
        && out[0].body.Update? && out[0].body.about == o && out[0].body.configEpoch == n.peers[o].configEpoch
        && Serves(n, o, out[0].body.slots)
  }

  lemma StaleReplyIs(n: Node, h: Header)
    ensures Answers(n, h, StaleReply(n, h))
  {
    FirstStaleIs(n, h, 0);
    var r := FirstStale(n, h, 0);
    if r.Some? {
      assert Stale(n, h, r.value);
      assert forall i: nat :: i < r.value ==> !Stale(n, h, i);
    }
  }

  /** The role a header says: a master, or a slave, which leaves the slots it served as a master without an owner and
      is a slave of the master it names if that is known. */
  lemma RoleEffect(n: Node, h: Header)
    requires h.sender in n.peers && h.sender != n.id
    ensures var r := SwitchRole(n, h); var s := n.peers[h.sender];
      && SameElection(n, r) && r.currentEpoch == n.currentEpoch && r.importing == n.importing
      && r.peers.Keys == n.peers.Keys && (forall i :: i in n.peers && i != h.sender ==> r.peers[i] == n.peers[i])
      && r.peers[h.sender].configEpoch == s.configEpoch && r.peers[h.sender].failed == s.failed
      && (r.peers[h.sender].master <==> h.slaveof == None)
      && r.peers[h.sender].slaveof ==
           (if h.slaveof.Some? && h.slaveof.value !in n.peers then s.slaveof else h.slaveof)
      && forall j :: 0 <= j < SLOTS ==>
           r.owner[j] == if h.slaveof.Some? && s.master && n.owner[j] == Some(h.sender) then None else n.owner[j]
  {
  }

  // ---------------------------------------------------------------- packets

  /** The epoch of node i once a header is seen. */
  function Seen(n: Node, h: Header, i: Id): nat
    requires i in n.peers
  {
    if i == h.sender then Max(n.peers[i].configEpoch, h.configEpoch) else n.peers[i].configEpoch
  }

  lemma SeenIs(n: Node, h: Header)
    requires h.sender in n.peers
    ensures var a := SeeEpochs(n, h);
      && a.currentEpoch == Max(n.currentEpoch, h.currentEpoch) && a.owner == n.owner && a.importing == n.importing
      && SameElection(n, a) && a.peers.Keys == n.peers.Keys
      && forall i :: i in n.peers ==> a.peers[i] == n.peers[i].(configEpoch := Seen(n, h, i))
  {
  }

  /** A packet of a node that is not known is ignored. */
  lemma UnknownIgnored(n: Node, p: Packet, timely: bool)
    requires p.hdr.sender != n.id && p.hdr.sender !in n.peers
    ensures Receive(n, p, timely) == (n, [])
  {
  }

  /** A FAIL marks its node, unless that is the receiver or not known. */
  lemma FailEffect(n: Node, p: Packet, timely: bool)
    requires p.hdr.sender != n.id && p.hdr.sender in n.peers && p.body.Fail?
    ensures var a, r := SeeEpochs(n, p.hdr), Receive(n, p, timely);
      && r.1 == []
      && r.0 == if p.body.about in n.peers && p.body.about != n.id
                then a.(peers := a.peers[p.body.about := a.peers[p.body.about].(failed := true)]) else a
  {
  }

  /** When a vote is due, in the fields of the voter: it is a master that serves a slot; the request is of an epoch
      that is not over, and it did not vote in its own epoch yet; the candidate is a slave, and its master failed or the
      request forces the vote; and no claimed slot is served in a greater epoch than the claim is of. */
  ghost predicate Grants(n: Node, h: Header)
    requires h.sender in n.peers
  {
    var s := n.peers[h.sender];
    && n.peers[n.id].master && (exists j :: 0 <= j < SLOTS && n.owner[j] == Some(n.id))
    && h.currentEpoch >= n.currentEpoch && n.lastVoteEpoch != n.currentEpoch
    && !s.master && s.slaveof.Some? && (n.peers[s.slaveof.value].failed || h.forceAck)
    && (forall j :: 0 <= j < SLOTS && j in h.slots && n.owner[j].Some? ==>
          n.peers[n.owner[j].value].configEpoch <= h.configEpoch)
  }

  lemma GrantsIs(n: Node, h: Header)
    requires h.sender in n.peers
    ensures GrantsVote(n, h) <==> Grants(n, h)
  {
    if j :| 0 <= j < SLOTS && n.owner[j] == Some(n.id) {
      assert j in Claimed(n, n.id);
    }
    if Claimed(n, n.id) != {} {
      var j :| j in Claimed(n, n.id);
      assert n.owner[j] == Some(n.id);
    }
  }

  /** The same of the voter that receives the packet, the time since its last vote about the same master included. */
  ghost predicate MayVote(n: Node, h: Header, timely: bool)
    requires h.sender in n.peers
  {
    var s := n.peers[h.sender];
    && n.peers[n.id].master && (exists j :: 0 <= j < SLOTS && n.owner[j] == Some(n.id))
    && h.currentEpoch >= n.currentEpoch && n.lastVoteEpoch != h.currentEpoch
    && !s.master && s.slaveof.Some? && (n.peers[s.slaveof.value].failed || h.forceAck)
    && (forall j :: 0 <= j < SLOTS && j in h.slots && n.owner[j].Some? ==>
          Seen(n, h, n.owner[j].value) <= h.configEpoch)
    && timely
  }

  lemma VoteGranted(n: Node, h: Header)
    requires h.sender in n.peers && h.sender != n.id
    ensures GrantsVote(SeeEpochs(n, h), h) <==> MayVote(n, h, true)
  {
    SeenIs(n, h);
    var a := SeeEpochs(n, h);
    GrantsIs(a, h);
    hide SeeEpochs, GrantsVote;
    assert h.currentEpoch >= a.currentEpoch <==> h.currentEpoch >= n.currentEpoch;
  }

  /** A request is answered with an ACK, and the vote recorded, exactly then. */
  lemma VoteExactly(n: Node, p: Packet, timely: bool)
    requires p.hdr.sender != n.id && p.hdr.sender in n.peers && p.body.AuthRequest?
    ensures var a, r := SeeEpochs(n, p.hdr), Receive(n, p, timely);
      if MayVote(n, p.hdr, timely) then
        && r.0 == a.(lastVoteEpoch := p.hdr.currentEpoch)
        && |r.1| == 1 && r.1[0].to == p.hdr.sender && r.1[0].body == AuthAck
        && r.1[0].hdr.sender == n.id && r.1[0].hdr.currentEpoch == p.hdr.currentEpoch
      else r == (a, [])
  {
    VoteGranted(n, p.hdr);
    SeenIs(n, p.hdr);
    hide MayVote, GrantsVote, SeeEpochs;
  }

  /** An ACK counts when it is of a master that serves a slot and of an epoch not before that of the election. */
  lemma AckEffect(n: Node, p: Packet, timely: bool)
    requires p.hdr.sender != n.id && p.hdr.sender in n.peers && p.body.AuthAck?
    ensures var a, r := SeeEpochs(n, p.hdr), Receive(n, p, timely);
      var counts := n.peers[p.hdr.sender].master && p.hdr.currentEpoch >= n.authEpoch &&
                    exists j :: 0 <= j < SLOTS && n.owner[j] == Some(p.hdr.sender);
      r == (if counts then a.(authCount := n.authCount + 1) else a, [])
  {
    SeenIs(n, p.hdr);
    var a := SeeEpochs(n, p.hdr);
    hide SeeEpochs;
    if j :| 0 <= j < SLOTS && n.owner[j] == Some(p.hdr.sender) {
      assert j in Claimed(a, p.hdr.sender);
    }
    if Claimed(a, p.hdr.sender) != {} {
      var j :| j in Claimed(a, p.hdr.sender);
      assert n.owner[j] == Some(p.hdr.sender);
    }
  }

  /** The view on which an UPDATE makes its claim. */
  lemma NewEpochTaken(a: Node, about: Id, epoch: nat, slots: set<nat>)
    requires about in a.peers
    ensures var b := SetAsMaster(a, about); var c := SetPeer(b, about, b.peers[about].(configEpoch := epoch));
      && Valid(c) && c.owner == a.owner && c.id == a.id && SameElection(a, c) && c.currentEpoch == a.currentEpoch
      && about in c.peers && c.peers[about].master && c.peers[about].configEpoch == epoch
      && forall j :: 0 <= j < SLOTS ==> (Takes(c, about, epoch, slots, j) <==> Takes(a, about, epoch, slots, j))
  {
  }

  lemma UpdateApplied(a: Node, about: Id, epoch: nat, slots: set<nat>)
    requires about in a.peers && epoch > a.peers[about].configEpoch
    ensures var r := ReceiveUpdate(a, about, epoch, slots);
      && SameElection(a, r) && r.currentEpoch == a.currentEpoch
      && about in r.peers && r.peers[about].configEpoch == epoch && r.peers[about].master
      && forall j :: 0 <= j < SLOTS ==>
           r.owner[j] == if about != a.id && Takes(a, about, epoch, slots, j) then Some(about) else a.owner[j]
  {
    var b := SetAsMaster(a, about);
    NewEpochTaken(a, about, epoch, slots);
    var c := SetPeer(b, about, b.peers[about].(configEpoch := epoch));
    if about != a.id {
      ClaimEffect(c, about, epoch, slots);
      hide UpdateSlots;
    }
    hide Takes, SetAsMaster;
  }

  lemma UpdateReceived(n: Node, p: Packet, timely: bool)
    requires p.hdr.sender != n.id && p.hdr.sender in n.peers && p.body.Update?
    ensures var a := SeeEpochs(n, p.hdr); var u := p.body;
      Receive(n, p, timely) ==
        (if u.about in a.peers && a.peers[u.about].configEpoch < u.configEpoch
         then ReceiveUpdate(a, u.about, u.configEpoch, u.slots) else a, [])
  {
    hide SeeEpochs, UpdateSlots;
  }

  /** An UPDATE counts when it is about a known node and newer than what is known of it: that is a master with this
      epoch then, and its claim is applied. */
  lemma UpdateEffect(n: Node, p: Packet, timely: bool)
    requires p.hdr.sender != n.id && p.hdr.sender in n.peers && p.body.Update?
    ensures var r := Receive(n, p, timely); var about, epoch := p.body.about, p.body.configEpoch;
      && r.1 == [] && SameElection(n, r.0) && r.0.currentEpoch == Max(n.currentEpoch, p.hdr.currentEpoch)
      && (about !in n.peers || epoch <= Seen(n, p.hdr, about) ==> r.0 == SeeEpochs(n, p.hdr))
      && (about in n.peers && epoch > Seen(n, p.hdr, about) ==>
            && about in r.0.peers && r.0.peers[about].configEpoch == epoch && r.0.peers[about].master
            && forall j :: 0 <= j < SLOTS ==>
                 r.0.owner[j] ==
                   if && about != n.id && j in p.body.slots && n.owner[j] != Some(about) && j !in n.importing
                      && (n.owner[j] == None || Seen(n, p.hdr, n.owner[j].value) < epoch)
                   then Some(about) else n.owner[j])
  {
    SeenIs(n, p.hdr);
    var a := SeeEpochs(n, p.hdr);
    var about, epoch := p.body.about, p.body.configEpoch;
    UpdateReceived(n, p, timely);
    hide ReceiveUpdate, SeeEpochs, Receive;
    if about in n.peers && epoch > a.peers[about].configEpoch {
      UpdateApplied(a, about, epoch, p.body.slots);
    }
  }

  /** A claim of s is applied to a: a claim of another node, which is a master with this epoch. */
  ghost predicate Applied(a: Node, r: Node, s: Id, known: nat, epoch: nat, slots: set<nat>) {
    && SameElection(a, r) && s in r.peers && r.peers[s].master && r.peers[s].configEpoch == known
    && forall j :: 0 <= j < SLOTS ==> r.owner[j] == if Takes(a, s, epoch, slots, j) then Some(s) else a.owner[j]
  }

  lemma RoleTaken(a: Node, h: Header)
    requires h.sender in a.peers && h.sender != a.id && h.slaveof.None?
    ensures var b := SwitchRole(a, h);
      && SameElection(a, b) && h.sender in b.peers && b.peers[h.sender].master
      && b.peers[h.sender].configEpoch == a.peers[h.sender].configEpoch && b.owner == a.owner
      && forall j :: 0 <= j < SLOTS ==>
           (Takes(b, h.sender, h.configEpoch, h.slots, j) <==> Takes(a, h.sender, h.configEpoch, h.slots, j))
  {
    RoleEffect(a, h);
    var b := SwitchRole(a, h);
    assert b.owner == a.owner;
    hide SwitchRole;
  }

  lemma DirtyApplied(b: Node, h: Header)
    requires h.sender in b.peers && h.sender != b.id && b.peers[h.sender].master
    ensures Applied(b, if Dirty(b, h) then UpdateSlots(b, h.sender, h.configEpoch, h.slots) else b,
                    h.sender, b.peers[h.sender].configEpoch, h.configEpoch, h.slots)
  {
    if Dirty(b, h) {
      ClaimEffect(b, h.sender, h.configEpoch, h.slots);
    } else {
      NothingTaken(b, h);
    }
    hide Dirty, UpdateSlots, Takes;
  }

  lemma CollisionApplied(b: Node, c: Node, h: Header, known: nat)
    requires h.sender in c.peers && h.sender != c.id && Applied(b, c, h.sender, known, h.configEpoch, h.slots)
    ensures Applied(b, ResolveCollision(c, h), h.sender, known, h.configEpoch, h.slots)
  {
    hide Takes;
  }

  lemma PingApplied(a: Node, h: Header)
    requires h.sender in a.peers && h.sender != a.id && h.slaveof.None?
    ensures Applied(a, ReceiveConfig(a, h).0, h.sender, a.peers[h.sender].configEpoch, h.configEpoch, h.slots)
  {
    RoleTaken(a, h);
    var b := SwitchRole(a, h);
    DirtyApplied(b, h);
    hide SwitchRole, Dirty, UpdateSlots, StaleReply, Takes, ResolveCollision;
    var c := if Dirty(b, h) then UpdateSlots(b, h.sender, h.configEpoch, h.slots) else b;
    CollisionApplied(b, c, h, a.peers[h.sender].configEpoch);
  }

  lemma NothingTaken(b: Node, h: Header)
    requires h.sender in b.peers && b.peers[h.sender].master && !Dirty(b, h)
    ensures forall j :: 0 <= j < SLOTS ==> !Takes(b, h.sender, h.configEpoch, h.slots, j)
  {
    forall j: nat | j < SLOTS && j in h.slots ensures b.owner[j] == Some(h.sender) {
      assert j in Claimed(b, h.sender);
    }
  }

  /** A PING, PONG or MEET of a master: it is one here, and its claim is applied. */
  lemma MasterPingEffect(n: Node, p: Packet, timely: bool)
    requires p.hdr.sender != n.id && p.hdr.sender in n.peers && p.body.Config? && p.hdr.slaveof.None?
    ensures var r := Receive(n, p, timely); var s := p.hdr.sender;
      && SameElection(n, r.0) && s in r.0.peers && r.0.peers[s].master && r.0.peers[s].configEpoch == Seen(n, p.hdr, s)
      && forall j :: 0 <= j < SLOTS ==>
           r.0.owner[j] ==
             if && j in p.hdr.slots && n.owner[j] != Some(s) && j !in n.importing
                && (n.owner[j] == None || n.peers[n.owner[j].value].configEpoch < p.hdr.configEpoch)
             then Some(s) else n.owner[j]
  {
    SeenIs(n, p.hdr);
    PingApplied(SeeEpochs(n, p.hdr), p.hdr);
    hide SeeEpochs, ReceiveConfig;
  }

  lemma SlavePingApplied(a: Node, h: Header)
    requires h.sender in a.peers && h.sender != a.id && h.slaveof.Some?
    ensures ReceiveConfig(a, h).0 == SwitchRole(a, h)
  {
    RoleEffect(a, h);
    hide SwitchRole, Dirty, StaleReply;
  }

  /** The ping of a master is answered after its claim is applied, if a claimed slot is still served by another node
      with a greater epoch, and not otherwise. */
  lemma PingAnswered(a: Node, h: Header) returns (c: Node)
    requires h.sender in a.peers && h.sender != a.id && h.slaveof.None?
    ensures Applied(a, c, h.sender, a.peers[h.sender].configEpoch, h.configEpoch, h.slots)
    ensures Answers(c, h, ReceiveConfig(a, h).1)
  {
    RoleTaken(a, h);
    var b := SwitchRole(a, h);
    DirtyApplied(b, h);
    c := if Dirty(b, h) then UpdateSlots(b, h.sender, h.configEpoch, h.slots) else b;
    StaleReplyIs(c, h);
    if !Dirty(b, h) {
      OwnSlotsOnly(b, h);
    }
    hide SwitchRole, Dirty, UpdateSlots, StaleReply, Takes, ResolveCollision, Stale;
  }

  lemma OwnSlotsOnly(b: Node, h: Header)
    requires h.sender in b.peers && b.peers[h.sender].master && !Dirty(b, h)
    ensures forall j: nat :: !Stale(b, h, j)
  {
    forall j: nat | j < SLOTS && j in h.slots ensures b.owner[j] == Some(h.sender) {
      assert j in Claimed(b, h.sender);
    }
  }

  /** The ping of a slave is answered so only if it publishes other slots than its master serves here. */
  lemma SlavePingAnswered(a: Node, h: Header)
    requires h.sender in a.peers && h.sender != a.id && h.slaveof.Some?
    ensures var b, out := SwitchRole(a, h), ReceiveConfig(a, h).1; var m := b.peers[h.sender].slaveof;
      if m == None || Serves(b, m.value, h.slots) then out == [] else Answers(b, h, out)
  {
    RoleEffect(a, h);
    var b := SwitchRole(a, h);
    StaleReplyIs(b, h);
    var m := b.peers[h.sender].slaveof;
    if m.Some? {
      SameServes(b, m.value, h.slots);
    }
    hide SwitchRole, StaleReply, Answers, Serves, Claimed;
  }

  lemma SameServes(n: Node, i: Id, slots: set<nat>)
    ensures Serves(n, i, slots) <==> Claimed(n, i) == slots
  {
    forall j: nat ensures j in Claimed(n, i) <==> j < SLOTS && n.owner[j] == Some(i) {}
    if Serves(n, i, slots) {
      forall j ensures j in slots <==> j in Claimed(n, i) {}
      assert Claimed(n, i) == slots;
    }
  }

  /** A PING, PONG or MEET of a slave: it serves nothing any more if it was a master here. */
  lemma SlavePingEffect(n: Node, p: Packet, timely: bool)
    requires p.hdr.sender != n.id && p.hdr.sender in n.peers && p.body.Config? && p.hdr.slaveof.Some?
    ensures var r := Receive(n, p, timely).0; var s := n.peers[p.hdr.sender];
      && SameElection(n, r) && r.currentEpoch == Max(n.currentEpoch, p.hdr.currentEpoch) && r.importing == n.importing
      && r.peers.Keys == n.peers.Keys && (forall i :: i in n.peers && i != p.hdr.sender ==> r.peers[i] == n.peers[i])
      && r.peers[p.hdr.sender] == Peer(false, if p.hdr.slaveof.value in n.peers then p.hdr.slaveof else s.slaveof,
                                       Seen(n, p.hdr, p.hdr.sender), s.failed)
      && forall j :: 0 <= j < SLOTS ==>
           r.owner[j] == if s.master && n.owner[j] == Some(p.hdr.sender) then None else n.owner[j]
  {
    SeenIs(n, p.hdr);
    var a := SeeEpochs(n, p.hdr);
    RoleEffect(a, p.hdr);
    SlavePingApplied(a, p.hdr);
    hide SeeEpochs, SwitchRole, ReceiveConfig;
  }

  // ---------------------------------------------------------------- timers and commands

  /** Only a slave fails over: of a master that failed, or when it is told to, while the master serves a slot here. */
  ghost predicate MayFailover(n: Node, manual: bool) {
    var me := n.peers[n.id];
    && !me.master && (n.peers[me.slaveof.value].failed || manual)
    && exists j :: 0 <= j < SLOTS && n.owner[j] == me.slaveof
  }

  /** When each step of an election is made: it is scheduled, started once, and won with more than half of the
      cluster. */
  lemma ElectionSteps(n: Node, manual: bool, force: bool)
    ensures Schedule(n.id, manual) in Moves(n) <==> MayFailover(n, manual)
    ensures Start(n.id, manual, force) in Moves(n) <==> MayFailover(n, manual) && !n.authSent && (manual ==> force)
    ensures Win(n.id, manual) in Moves(n) <==> MayFailover(n, manual) && n.authSent && n.authCount > n.size / 2
  {
    if !Self(n).master {
      var m := Self(n).slaveof.value;
      if j :| 0 <= j < SLOTS && n.owner[j] == Some(m) {
        assert j in Claimed(n, m);
      }
      if Claimed(n, m) != {} {
        var j :| j in Claimed(n, m);
        assert n.owner[j] == Some(m);
      }
    }
  }

  /** An election that is scheduled has no votes and was not asked for. */
  lemma ScheduleEffect(n: Node, manual: bool)
    requires Schedule(n.id, manual) in Moves(n)
    ensures NodeAfter(n, Schedule(n.id, manual)) == n.(authCount := 0, authSent := false)
    ensures Sent(n, Schedule(n.id, manual)) == multiset{}
  {
  }

  /** A start is a new epoch, and every other node is asked, once, in it and for the slots of the failed master. */
  lemma StartEffect(n: Node, manual: bool, force: bool)
    requires Start(n.id, manual, force) in Moves(n)
    ensures var e, step := n.currentEpoch + 1, Start(n.id, manual, force);
      && NodeAfter(n, step) == n.(currentEpoch := e, authEpoch := e, authSent := true)
      && (forall q :: q in Sent(n, step) ==>
            && q.body == AuthRequest && q.to in n.peers && q.to != n.id && q.hdr.sender == n.id
            && q.hdr.currentEpoch == e && q.hdr.forceAck == force && Serves(n, n.peers[n.id].slaveof.value, q.hdr.slots)
            && q.hdr.configEpoch == n.peers[n.peers[n.id].slaveof.value].configEpoch)
      && (forall i :: i in n.peers && i != n.id ==> exists q :: q in Sent(n, step) && q.to == i)
  {
    var step := Start(n.id, manual, force);
    var r := StartElection(n);
    HeaderSays(r, force);
    assert Self(r) == Self(n) && r.owner == n.owner;
    hide BuildHeader, CanFailover;
    forall i | i in n.peers && i != n.id ensures exists q :: q in Sent(n, step) && q.to == i {
      var q := Packet(i, BuildHeader(r, force), AuthRequest);
      assert q in Sent(n, step) && q.to == i;
    }
  }

  /** The slave has the place of its master: a master, with all the slots of that one. */
  ghost predicate Replaces(n: Node, r: Node, epoch: nat) {
    var me := n.peers[n.id];
    && SameElection(n, r) && r.importing == n.importing
    && r.peers == n.peers[n.id := me.(master := true, slaveof := None, configEpoch := epoch)]
    && forall j :: 0 <= j < SLOTS ==> r.owner[j] == if n.owner[j] == me.slaveof then Some(n.id) else n.owner[j]
  }

  lemma WinnerReplaces(n: Node)
    requires !n.peers[n.id].master
    ensures Replaces(n, WinElection(n), Max(n.peers[n.id].configEpoch, n.authEpoch))
    ensures WinElection(n).currentEpoch == n.currentEpoch
  {
    var r := WinElection(n);
    var me := n.peers[n.id];
    var want := me.(master := true, slaveof := None, configEpoch := Max(me.configEpoch, n.authEpoch));
    assert r.peers[n.id] == want;
    assert r.peers == n.peers[n.id := want];
  }

  /** The winner takes the epoch of its election, unless its own is greater already, and the place of its master. */
  lemma WinEffect(n: Node, manual: bool)
    requires Win(n.id, manual) in Moves(n)
    ensures var r := NodeAfter(n, Win(n.id, manual));
      Replaces(n, r, Max(n.peers[n.id].configEpoch, n.authEpoch)) && r.currentEpoch == n.currentEpoch
    ensures Sent(n, Win(n.id, manual)) == multiset{}
  {
    WinnerReplaces(n);
    hide WinElection, Replaces;
  }

  /** A node asks for a new epoch of its own exactly when it has none or not the greatest. */
  lemma BumpExactly(n: Node)
    ensures var own := n.peers[n.id].configEpoch;
      Bump(n.id) in Moves(n) <==>
        !(own > 0 && own >= n.currentEpoch && forall i :: i in n.peers ==> n.peers[i].configEpoch <= own)
    ensures Bump(n.id) in Moves(n) ==>
      NodeAfter(n, Bump(n.id)) == n.(currentEpoch := n.currentEpoch + 1,
        peers := n.peers[n.id := n.peers[n.id].(configEpoch := n.currentEpoch + 1)])
  {
  }

  lemma ReplaceEffect(n: Node)
    requires !n.peers[n.id].master
    ensures Replaces(n, ReplaceMaster(n), n.peers[n.id].configEpoch) && ReplaceMaster(n).currentEpoch == n.currentEpoch
  {
    var r := ReplaceMaster(n);
    var want := n.peers[n.id].(master := true, slaveof := None);
    assert r.peers[n.id] == want;
    assert r.peers == n.peers[n.id := want];
  }

  lemma ReplacesBumped(n: Node, b: Node, r: Node, e: nat)
    requires b == n.(currentEpoch := e, peers := n.peers[n.id := n.peers[n.id].(configEpoch := e)]) && Replaces(b, r, e)
    ensures Replaces(n, r, e)
  {
    var want := n.peers[n.id].(master := true, slaveof := None, configEpoch := e);
    assert b.peers[n.id := want] == n.peers[n.id := want];
  }

  lemma TakeOverIs(n: Node)
    requires !n.peers[n.id].master
    ensures TakeOver(n.id) in Moves(n)
    ensures NodeAfter(n, TakeOver(n.id)) ==
      ReplaceMaster(if Bump(n.id) in Moves(n) then NodeAfter(n, Bump(n.id)) else n)
  {
  }

  lemma Bumped(n: Node, b: Node)
    requires Bump(n.id) in Moves(n) && b == NodeAfter(n, Bump(n.id)) && !n.peers[n.id].master
    ensures b.id == n.id && n.id in b.peers && !b.peers[n.id].master && b.currentEpoch == n.currentEpoch + 1
    ensures b.peers[n.id].configEpoch == n.currentEpoch + 1
  {
  }

  /** A takeover without election has an epoch of its own, greater than any it knew, unless its epoch was already the
      greatest. */
  lemma TakeOverEffect(n: Node)
    requires !n.peers[n.id].master
    ensures TakeOver(n.id) in Moves(n)
    ensures var r := NodeAfter(n, TakeOver(n.id)); var own := n.peers[n.id].configEpoch;
      var greatest := own > 0 && own >= n.currentEpoch && forall i :: i in n.peers ==> n.peers[i].configEpoch <= own;
      && Replaces(n, r, if greatest then own else n.currentEpoch + 1)
      && r.currentEpoch == if greatest then n.currentEpoch else n.currentEpoch + 1
  {
    BumpExactly(n);
    TakeOverIs(n);
    hide *;
    if Bump(n.id) in Moves(n) {
      var b := NodeAfter(n, Bump(n.id));
      Bumped(n, b);
      ReplaceEffect(b);
      ReplacesBumped(n, b, ReplaceMaster(b), n.currentEpoch + 1);
    } else {
      ReplaceEffect(n);
    }
  }

  /** A node becomes a slave of another one, and stops importing if it was a master. */
  lemma ReplicateEffect(n: Node, to: Id)
    requires Replicate(n.id, to) in Moves(n)
    ensures to != n.id && (forall j :: 0 <= j < SLOTS ==> n.owner[j] != Some(n.id))
    ensures NodeAfter(n, Replicate(n.id, to)) ==
      n.(peers := n.peers[n.id := n.peers[n.id].(master := false, slaveof := Some(to))],
         importing := if n.peers[n.id].master then map[] else n.importing)
  {
    forall j: nat | j < SLOTS ensures n.owner[j] != Some(n.id) {
      assert n.owner[j] == Some(n.id) ==> j in Claimed(n, n.id);
    }
  }

  /** A node that is forgotten leaves its slots free and its slaves without a master. */
  lemma ForgetEffect(n: Node, i: Id)
    requires Forget(n.id, i) in Moves(n)
    ensures var r := NodeAfter(n, Forget(n.id, i));
      && SameElection(n, r) && r.currentEpoch == n.currentEpoch && r.peers.Keys == n.peers.Keys - {i}
      && (forall k :: k in r.peers ==>
            r.peers[k] == if n.peers[k].slaveof == Some(i) then n.peers[k].(slaveof := None) else n.peers[k])
      && (forall j :: 0 <= j < SLOTS ==> r.owner[j] == if n.owner[j] == Some(i) then None else n.owner[j])
      && (forall j :: j in r.importing <==> j in n.importing && n.importing[j] != i)
      && (forall j :: j in r.importing ==> r.importing[j] == n.importing[j])
  {
  }

  /** The size of the cluster is the number of masters that serve a slot. */
  lemma SizeCounts(n: Node)
    ensures exists voters: set<Id> ::
      && NodeAfter(n, UpdateState(n.id)) == n.(size := |voters|)
      && forall i :: i in voters <==>
           i in n.peers && n.peers[i].master && exists j :: 0 <= j < SLOTS && n.owner[j] == Some(i)
  {
    forall i ensures i in Voters(n) <==>
      i in n.peers && n.peers[i].master && exists j :: 0 <= j < SLOTS && n.owner[j] == Some(i)
    {
      if i in Voters(n) {
        var j :| j in Claimed(n, i);
        assert n.owner[j] == Some(i);
      }
      if i in n.peers && n.peers[i].master {
        if j :| 0 <= j < SLOTS && n.owner[j] == Some(i) {
          assert j in Claimed(n, i);
        }
      }
    }
    assert NodeAfter(n, UpdateState(n.id)) == n.(size := |Voters(n)|);
  }
}
