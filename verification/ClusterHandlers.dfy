/** The handlers of cluster.c as they change the state of a node step by step, each tied to what the transition
    system says its packet or its timer does. */
module ClusterHandlers {
  import opened Options
  import opened ClusterNode
  import opened ClusterSlots
  import opened ClusterSystem
  import opened ClusterEffects

  // ---------------------------------------------------------------- bitmaps

  lemma SameByte(x: bv8, y: bv8)
    requires forall k: nat :: k < 8 ==> TestIn(x, k) == TestIn(y, k)
    ensures x == y
  {
    assert TestIn(x, 0) == TestIn(y, 0) && TestIn(x, 1) == TestIn(y, 1) && TestIn(x, 2) == TestIn(y, 2);
    assert TestIn(x, 3) == TestIn(y, 3) && TestIn(x, 4) == TestIn(y, 4) && TestIn(x, 5) == TestIn(y, 5);
    assert TestIn(x, 6) == TestIn(y, 6) && TestIn(x, 7) == TestIn(y, 7);
  }

  /** Comparing bitmaps byte by byte compares the sets of slots. */
  lemma SameBits(a: Bitmap, b: Bitmap)
    ensures a == b <==> Bits(a) == Bits(b)
  {
    if Bits(a) == Bits(b) {
      forall i | 0 <= i < BYTES
        ensures a[i] == b[i]
      {
        forall k: nat | k < 8
          ensures TestIn(a[i], k) == TestIn(b[i], k)
        {
          InBits(a, 8 * i + k);
          InBits(b, 8 * i + k);
          assert (8 * i + k) / 8 == i && (8 * i + k) % 8 == k;
        }
        SameByte(a[i], b[i]);
      }
    }
  }

  /** The bitmap of a node has the slots it serves. */
  lemma ServedIsClaimed(c: ClusterState, i: Id)
    requires c.Valid() && i in c.me.peers
    ensures i in c.served && Bits(c.served[i].bitmap) == Claimed(c.me, i)
    ensures c.served[i].numslots == |Claimed(c.me, i)| && (c.served[i].numslots == 0 <==> Claimed(c.me, i) == {})
  {
    hide Coherent, Bits;
    ServedBits(Table(c.me.owner, c.served), i);
    CountsSlots(Table(c.me.owner, c.served), c.me, i);
  }

  // ---------------------------------------------------------------- packets received

  lemma SamePeer(n: Node, i: Id)
    requires i in n.peers
    ensures SetPeer(n, i, n.peers[i]) == n
  {
    assert n.peers[i := n.peers[i]] == n.peers;
  }

  /** The first thing any packet of a known sender does. */
  method SeeSenderEpochs(c: ClusterState, h: Header)
    requires c.Valid() && h.sender in c.me.peers
    modifies c
    ensures c.Valid() && c.me == SeeEpochs(old(c.me), h) && c.served == old(c.served)
  {
    hide Coherent;
    if h.currentEpoch > c.me.currentEpoch {
      c.me := c.me.(currentEpoch := h.currentEpoch);
    }
    var s := c.me.peers[h.sender];
    SamePeer(c.me, h.sender);
    if h.configEpoch > s.configEpoch {
      c.me := SetPeer(c.me, h.sender, s.(configEpoch := h.configEpoch));
    }
  }

  /** `clusterSetNodeAsMaster` */
  method SetNodeAsMaster(c: ClusterState, s: Id)
    requires c.Valid() && s in c.me.peers
    modifies c
    ensures c.Valid() && c.me == SetAsMaster(old(c.me), s)
  {
    hide Coherent;
    if c.me.peers[s].master {
      return;
    }
    c.me := SetPeer(c.me, s, c.me.peers[s].(master := true, slaveof := None));
  }

  /** A master that turned into a slave serves nothing. */
  method TurnIntoSlave(c: ClusterState, s: Id)
    requires c.Valid() && s in c.me.peers && s != c.me.id && c.me.peers[s].master
    modifies c
    ensures c.Valid()
    ensures c.me == SetPeer(DelNodeSlots(old(c.me), s), s, old(c.me).peers[s].(master := false))
  {
    hide Coherent;
    c.DeleteNodeSlots(s);
    c.me := SetPeer(c.me, s, c.me.peers[s].(master := false));
  }

  /** The check for a role switch. */
  method SwitchSenderRole(c: ClusterState, h: Header)
    requires c.Valid() && h.sender in c.me.peers && h.sender != c.me.id
    modifies c
    ensures c.Valid() && c.me == SwitchRole(old(c.me), h)
  {
    hide Coherent, DelNodeSlots, SetAsMaster;
    if h.slaveof.None? {
      SetNodeAsMaster(c, h.sender);
      return;
    }
    if c.me.peers[h.sender].master {
      TurnIntoSlave(c, h.sender);
    }
    if h.slaveof.value in c.me.peers && c.me.peers[h.sender].slaveof != h.slaveof {
      c.me := SetPeer(c.me, h.sender, c.me.peers[h.sender].(slaveof := h.slaveof));
    }
  }

  /** `clusterBuildMessageHdr` */
  method BuildMessageHdr(c: ClusterState, forceAck: bool) returns (h: Header)
    requires c.Valid()
    ensures h == BuildHeader(c.me, forceAck)
  {
    var m := if !c.me.peers[c.me.id].master then c.me.peers[c.me.id].slaveof.value else c.me.id;
    ServedIsClaimed(c, m);
    h := Header(c.me.id, c.me.currentEpoch, c.me.peers[m].configEpoch, Bits(c.served[m].bitmap),
                c.me.peers[c.me.id].slaveof, forceAck);
  }

  /** The loop that looks for a claimed slot that a master with a greater epoch serves, and informs the sender. */
  method InformIfStale(c: ClusterState, h: Header, claim: Bitmap) returns (out: seq<Packet>)
    requires c.Valid() && Bits(claim) == h.slots
    ensures out == StaleReply(c.me, h)
  {
    hide Coherent, Bits, TestBit;
    var j := 0;
    while j < SLOTS
      invariant j <= SLOTS && FirstStale(c.me, h, 0) == FirstStale(c.me, h, j)
    {
      InBits(claim, j);
      if TestBit(claim, j) {
        if c.me.owner[j] != Some(h.sender) && c.me.owner[j] != None {
          var o := c.me.owner[j].value;
          if c.me.peers[o].configEpoch > h.configEpoch {
            var hdr := BuildMessageHdr(c, false);
            ServedIsClaimed(c, o);
            return [Packet(h.sender, hdr, Update(o, c.me.peers[o].configEpoch, Bits(c.served[o].bitmap)))];
          }
        }
      }
      j := j + 1;
    }
    out := [];
  }

  /** `clusterHandleConfigEpochCollision` */
  method HandleConfigEpochCollision(c: ClusterState, sender: Id)
    requires c.Valid() && sender in c.me.peers
    modifies c
    ensures c.Valid()
    ensures var n := old(c.me); var me, s := Self(n), n.peers[sender];
      c.me == if s.configEpoch == me.configEpoch && s.master && me.master && sender > n.id then BumpEpoch(n) else n
  {
    hide Coherent;
    var me := c.me.peers[c.me.id];
    var s := c.me.peers[sender];
    if s.configEpoch != me.configEpoch || !s.master || !me.master {
      return;
    }
    if sender <= c.me.id {
      return;
    }
    c.me := c.me.(currentEpoch := c.me.currentEpoch + 1);
    c.me := SetPeer(c.me, c.me.id, me.(configEpoch := c.me.currentEpoch));
  }

  /** Whether the claim differs from what is known of the sender, or of its master. */
  method HasDirtySlots(c: ClusterState, h: Header, claim: Bitmap) returns (dirty: bool)
    requires c.Valid() && h.sender in c.me.peers && Bits(claim) == h.slots
    ensures dirty == Dirty(c.me, h)
  {
    hide Coherent, Bits;
    var s := c.me.peers[h.sender];
    var m := if s.master then Some(h.sender) else s.slaveof;
    if m.None? {
      return false;
    }
    ServedIsClaimed(c, m.value);
    SameBits(c.served[m.value].bitmap, claim);
    dirty := c.served[m.value].bitmap != claim;
  }

  lemma SwitchKnows(n: Node, h: Header)
    requires h.sender in n.peers && h.sender != n.id
    ensures h.sender in SwitchRole(n, h).peers && SwitchRole(n, h).id == n.id
  {
  }

  /** A PING, PONG or MEET of a known sender; `dirty` are the slots whose keys have to go. */
  method ReceivePing(c: ClusterState, h: Header, claim: Bitmap, keys: seq<nat>)
      returns (out: seq<Packet>, dirty: seq<nat>, ok: bool)
    requires c.Valid() && h.sender in c.me.peers && h.sender != c.me.id && Bits(claim) == h.slots && |keys| == SLOTS
    modifies c
    ensures ok <==> !ConfigAborts(old(c.me), h)
    ensures ok ==> c.Valid() && (c.me, out) == ReceiveConfig(old(c.me), h)
  {
    hide Coherent, Bits, SwitchRole, StaleReply, UpdateSlots, Dirty, ClaimAborts;
    out, dirty, ok := [], [], true;
    SwitchKnows(c.me, h);
    SwitchSenderRole(c, h);
    var dirtySlots := HasDirtySlots(c, h, claim);
    if c.me.peers[h.sender].master && dirtySlots {
      UpdateSlotsKnows(c.me, h.sender, h.configEpoch, h.slots);
      dirty, ok := c.UpdateSlotsConfigWith(h.sender, h.configEpoch, claim, keys);
      if !ok {
        return;
      }
    }
    if dirtySlots {
      out := InformIfStale(c, h, claim);
    }
    if c.me.peers[c.me.id].master && c.me.peers[h.sender].master && h.configEpoch == c.me.peers[c.me.id].configEpoch {
      HandleConfigEpochCollision(c, h.sender);
    }
  }

  lemma AnswerIs(n: Node, h: Header, timely: bool)
    requires h.sender in n.peers
    ensures ReceiveAuthRequest(n, h, timely) ==
      if Grants(n, h) && timely then
        (n.(lastVoteEpoch := n.currentEpoch), [Packet(h.sender, BuildHeader(n, false), AuthAck)])
      else (n, [])
  {
    GrantsIs(n, h);
    hide GrantsVote, Grants;
  }

  /** The loop over the claimed slots: none has an owner with a greater epoch. */
  method ClaimIsCurrent(c: ClusterState, h: Header, claim: Bitmap) returns (current: bool)
    requires c.Valid() && Bits(claim) == h.slots
    ensures current <==> forall j :: 0 <= j < SLOTS && j in h.slots && c.me.owner[j].Some? ==>
      c.me.peers[c.me.owner[j].value].configEpoch <= h.configEpoch
  {
    hide Coherent, Bits, TestBit;
    var j := 0;
    while j < SLOTS
      invariant j <= SLOTS
      invariant forall i :: 0 <= i < j && i in h.slots && c.me.owner[i].Some? ==>
        c.me.peers[c.me.owner[i].value].configEpoch <= h.configEpoch
    {
      InBits(claim, j);
      if TestBit(claim, j) && c.me.owner[j] != None && c.me.peers[c.me.owner[j].value].configEpoch > h.configEpoch {
        return false;
      }
      j := j + 1;
    }
    current := true;
  }

  /** The chain of refusals of `clusterSendFailoverAuthIfNeeded`. */
  method VoteDue(c: ClusterState, h: Header, claim: Bitmap, timely: bool) returns (due: bool)
    requires c.Valid() && h.sender in c.me.peers && Bits(claim) == h.slots
    ensures due <==> GrantsVote(c.me, h) && timely
  {
    ServedIsClaimed(c, c.me.id);
    hide Coherent, Bits, TestBit;
    var s := c.me.peers[h.sender];
    if !c.me.peers[c.me.id].master || c.served[c.me.id].numslots == 0 {
      return false;
    }
    if h.currentEpoch < c.me.currentEpoch {
      return false;
    }
    if c.me.lastVoteEpoch == c.me.currentEpoch {
      return false;
    }
    if s.master || s.slaveof == None || (!c.me.peers[s.slaveof.value].failed && !h.forceAck) {
      return false;
    }
    if !timely {
      return false;
    }
    due := ClaimIsCurrent(c, h, claim);
  }

  /** `clusterSendFailoverAuthIfNeeded` */
  method SendFailoverAuthIfNeeded(c: ClusterState, h: Header, claim: Bitmap, timely: bool) returns (out: seq<Packet>)
    requires c.Valid() && h.sender in c.me.peers && Bits(claim) == h.slots
    modifies c
    ensures c.Valid() && (c.me, out) == ReceiveAuthRequest(old(c.me), h, timely)
    ensures out != [] <==> Grants(old(c.me), h) && timely
  {
    AnswerIs(c.me, h, timely);
    GrantsIs(c.me, h);
    hide Coherent, Bits, ReceiveAuthRequest, Grants, GrantsVote;
    out := [];
    var due := VoteDue(c, h, claim, timely);
    if due {
      var hdr := BuildMessageHdr(c, false);
      out := [Packet(h.sender, hdr, AuthAck)];
      c.me := c.me.(lastVoteEpoch := c.me.currentEpoch);
    }
  }

  /** A FAILOVER_AUTH_ACK. */
  method CountVote(c: ClusterState, h: Header)
    requires c.Valid() && h.sender in c.me.peers
    modifies c
    ensures c.Valid() && c.me == ReceiveAuthAck(old(c.me), h)
  {
    hide Coherent;
    ServedIsClaimed(c, h.sender);
    if c.me.peers[h.sender].master && c.served[h.sender].numslots > 0 && h.currentEpoch >= c.me.authEpoch {
      c.me := c.me.(authCount := c.me.authCount + 1);
    }
  }

  /** An UPDATE. */
  method ReceiveNewConfig(c: ClusterState, about: Id, epoch: nat, claim: Bitmap, keys: seq<nat>)
      returns (dirty: seq<nat>, ok: bool)
    requires c.Valid() && |keys| == SLOTS
    modifies c
    ensures ok <==> !UpdateAborts(old(c.me), about, epoch, Bits(claim))
    ensures ok ==> c.Valid() && c.me == ReceiveUpdate(old(c.me), about, epoch, Bits(claim))
  {
    hide Coherent, Bits, UpdateSlots, ClaimAborts;
    if about !in c.me.peers || c.me.peers[about].configEpoch >= epoch {
      return [], true;
    }
    SetNodeAsMaster(c, about);
    c.me := SetPeer(c.me, about, c.me.peers[about].(configEpoch := epoch));
    dirty, ok := c.UpdateSlotsConfigWith(about, epoch, claim, keys);
  }

  /** `clusterProcessPacket`: `mine` is the claim of the header and `theirs` that of an UPDATE; `ok` is false when an
      assertion fails and the server exits. */
  method ProcessPacket(c: ClusterState, p: Packet, mine: Bitmap, theirs: Bitmap, keys: seq<nat>, timely: bool)
      returns (out: seq<Packet>, dirty: seq<nat>, ok: bool)
    requires c.Valid() && p.hdr.sender != c.me.id && |keys| == SLOTS
    requires Bits(mine) == p.hdr.slots && (p.body.Update? ==> Bits(theirs) == p.body.slots)
    modifies c
    ensures ok <==> !Aborts(old(c.me), p)
    ensures ok ==> c.Valid() && (c.me, out) == Receive(old(c.me), p, timely)
  {
    hide Coherent, Bits, SeeEpochs, ReceiveConfig, ReceiveAuthRequest, ReceiveAuthAck, ReceiveUpdate;
    hide ConfigAborts, UpdateAborts;
    out, dirty, ok := [], [], true;
    if p.hdr.sender !in c.me.peers {
      return;
    }
    SeeSenderEpochs(c, p.hdr);
    KnowsSender(old(c.me), p.hdr);
    match p.body {
      case Config => out, dirty, ok := ReceivePing(c, p.hdr, mine, keys);
      case Fail(about) =>
        if about in c.me.peers && about != c.me.id {
          c.me := SetPeer(c.me, about, c.me.peers[about].(failed := true));
        }
      case AuthRequest => out := SendFailoverAuthIfNeeded(c, p.hdr, mine, timely);
      case AuthAck => CountVote(c, p.hdr);
      case Update(about, epoch, _) => dirty, ok := ReceiveNewConfig(c, about, epoch, theirs, keys);
    }
  }

  lemma KnowsSender(n: Node, h: Header)
    requires h.sender in n.peers
    ensures h.sender in SeeEpochs(n, h).peers && SeeEpochs(n, h).id == n.id
  {
  }

  // ---------------------------------------------------------------- epochs and size

  /** `clusterGetMaxEpoch` */
  method GetMaxEpoch(n: Node) returns (max: nat)
    ensures IsMaxEpoch(n, max)
  {
    max := 0;
    var left := n.peers.Keys;
    while left != {}
      invariant left <= n.peers.Keys
      invariant forall i :: i in n.peers && i !in left ==> n.peers[i].configEpoch <= max
      invariant max == 0 || exists i :: i in n.peers && n.peers[i].configEpoch == max
      decreases |left|
    {
      var i :| i in left;
      if n.peers[i].configEpoch > max {
        max := n.peers[i].configEpoch;
      }
      left := left - {i};
    }
    if max < n.currentEpoch {
      max := n.currentEpoch;
    }
  }

  /** `clusterBumpConfigEpochWithoutConsensus` */
  method BumpConfigEpochWithoutConsensus(c: ClusterState) returns (ok: bool)
    requires c.Valid()
    modifies c
    ensures c.Valid() && (ok <==> NeedsBump(old(c.me)))
    ensures c.me == if ok then BumpEpoch(old(c.me)) else old(c.me)
  {
    hide Coherent;
    var maxEpoch := GetMaxEpoch(c.me);
    var me := c.me.peers[c.me.id];
    ok := me.configEpoch == 0 || me.configEpoch != maxEpoch;
    if ok {
      c.me := c.me.(currentEpoch := c.me.currentEpoch + 1);
      c.me := SetPeer(c.me, c.me.id, me.(configEpoch := c.me.currentEpoch));
    }
  }

  /** The loop of `clusterUpdateState` over the masters that serve a slot. */
  method CountVoters(c: ClusterState) returns (size: nat)
    requires c.Valid()
    ensures size == |Voters(c.me)|
  {
    hide Coherent;
    var left := c.me.peers.Keys;
    ghost var seen: set<Id> := {};
    size := 0;
    while left != {}
      invariant left <= c.me.peers.Keys
      invariant size == |seen| && seen !! left && forall i :: i in seen <==> i in Voters(c.me) && i !in left
      decreases |left|
    {
      var i :| i in left;
      ServedIsClaimed(c, i);
      left := left - {i};
      if c.me.peers[i].master && c.served[i].numslots > 0 {
        size, seen := size + 1, seen + {i};
      }
    }
    assert seen == Voters(c.me);
  }

  // ---------------------------------------------------------------- failover

  /** What the clocks say: the data of the slave is too old, the retry time of the last attempt is over, the delay
      before the election is not, the election has timed out. */
  datatype Clocks = Clocks(dataTooOld: bool, retry: bool, delayed: bool, timedOut: bool)

  /** How far one call goes. */
  datatype Progress = Waited | Scheduled | Started | Won

  /** The step that one call makes. */
  function StepOf(did: Progress, i: Id, manual: bool, force: bool): Step
    requires did != Waited
  {
    match did
    case Scheduled => Schedule(i, manual)
    case Started => Start(i, manual, force)
    case _ => Win(i, manual)
  }

  lemma MayIs(n: Node, manual: bool)
    ensures CanFailover(n, manual) <==> MayFailover(n, manual)
  {
    ElectionSteps(n, manual, true);
    hide MayFailover, CanFailover;
  }

  ghost predicate MakesStep(n: Node, step: Step, r: Node, out: multiset<Packet>) {
    step in Moves(n) && r == NodeAfter(n, step) && out == Sent(n, step)
  }

  lemma Updates(n: Node)
    ensures MakesStep(n, UpdateState(n.id), n.(size := |Voters(n)|), multiset{})
  {
  }

  /** What `clusterUpdateState` does to the cluster size is a step of the transition system. */
  method ClusterUpdateState(c: ClusterState)
    requires c.Valid()
    modifies c
    ensures c.Valid() && MakesStep(old(c.me), UpdateState(old(c.me).id), c.me, multiset{})
  {
    hide Coherent, Voters, MakesStep;
    Updates(c.me);
    var size := CountVoters(c);
    c.me := c.me.(size := size);
  }

  lemma Schedules(n: Node, manual: bool)
    requires CanFailover(n, manual)
    ensures MakesStep(n, Schedule(n.id, manual), ScheduleElection(n), multiset{})
  {
  }

  lemma Starts(n: Node, manual: bool, force: bool)
    requires CanFailover(n, manual) && !n.authSent && (manual ==> force)
    ensures MakesStep(n, Start(n.id, manual, force), StartElection(n), Requests(StartElection(n), force))
  {
  }

  lemma Wins(n: Node, manual: bool)
    requires CanFailover(n, manual) && n.authSent && HasQuorum(n)
    ensures MakesStep(n, Win(n.id, manual), WinElection(n), multiset{})
  {
  }

  /** What happens once the quorum is reached. */
  method BecomeMaster(c: ClusterState)
    requires c.Valid() && !Self(c.me).master
    modifies c
    ensures c.Valid() && c.me == WinElection(old(c.me))
    ensures Replaces(old(c.me), c.me, Max(old(c.me).peers[old(c.me).id].configEpoch, old(c.me).authEpoch))
  {
    WinnerReplaces(c.me);
    hide Replaces;
    hide Coherent, ReplaceMaster;
    var me := c.me.peers[c.me.id];
    SamePeer(c.me, c.me.id);
    if me.configEpoch < c.me.authEpoch {
      c.me := SetPeer(c.me, c.me.id, me.(configEpoch := c.me.authEpoch));
    }
    c.ReplaceYourMaster();
  }

  /** Whether the slave has a reason to fail over, and data recent enough. */
  method CheckFailover(c: ClusterState, manual: bool, dataTooOld: bool) returns (may: bool)
    requires c.Valid()
    ensures may == (MayFailover(c.me, manual) && (manual || !dataTooOld))
  {
    MayIs(c.me, manual);
    hide Coherent, MayFailover;
    var me := c.me.peers[c.me.id];
    if me.master {
      return false;
    }
    var m := me.slaveof.value;
    ServedIsClaimed(c, m);
    if (!c.me.peers[m].failed && !manual) || c.served[m].numslots == 0 {
      return false;
    }
    may := manual || !dataTooOld;
  }

  /** `clusterHandleSlaveFailover`: every call makes at most one step of the transition system; `force` says that a
      manual failover is in progress and `manual` that it may start. */
  method HandleSlaveFailover(c: ClusterState, manual: bool, force: bool, clocks: Clocks)
      returns (did: Progress, out: multiset<Packet>)
    requires c.Valid() && (manual ==> force)
    modifies c
    ensures c.Valid()
    ensures var n := old(c.me);
      var may := MayFailover(n, manual) && (manual || !clocks.dataTooOld);
      var runs := may && !clocks.retry && !clocks.delayed && !clocks.timedOut;
      && (did == Scheduled <==> may && clocks.retry)
      && (did == Started <==> runs && !n.authSent)
      && (did == Won <==> runs && n.authSent && n.authCount > n.size / 2)
    ensures var n, e := old(c.me), old(c.me).currentEpoch + 1; match did
      case Waited => c.me == n && out == multiset{}
      case Scheduled => c.me == n.(authCount := 0, authSent := false) && out == multiset{}
      case Started => c.me == n.(currentEpoch := e, authEpoch := e, authSent := true)
      case Won => Replaces(n, c.me, Max(n.peers[n.id].configEpoch, n.authEpoch)) && out == multiset{}
    ensures did != Waited ==>
      MakesStep(old(c.me), StepOf(did, old(c.me).id, manual, force), c.me, out)
  {
    hide Coherent, MakesStep, CanFailover, WinElection, Requests, MayFailover, Replaces;
    MayIs(c.me, manual);
    did, out := Waited, multiset{};
    var may := CheckFailover(c, manual, clocks.dataTooOld);
    if !may {
      return;
    }
    if clocks.retry {
      Schedules(c.me, manual);
      c.me := c.me.(authCount := 0, authSent := false);
      return Scheduled, out;
    }
    if clocks.delayed || clocks.timedOut {
      return;
    }
    if !c.me.authSent {
      Starts(c.me, manual, force);
      c.me := c.me.(currentEpoch := c.me.currentEpoch + 1);
      c.me := c.me.(authEpoch := c.me.currentEpoch, authSent := true);
      return Started, Requests(c.me, force);
    }
    if c.me.authCount >= c.me.size / 2 + 1 {
      Wins(c.me, manual);
      SlaveNow(c.me, manual);
      WinnerReplaces(c.me);
      BecomeMaster(c);
      did := Won;
    }
  }

  lemma SlaveNow(n: Node, manual: bool)
    requires CanFailover(n, manual)
    ensures !Self(n).master
  {
  }
}
