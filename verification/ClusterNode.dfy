/** One node of a cluster (cluster.c): its view of the other nodes and of the slots, the packets it sends, and
    what each packet and each timer does to that view. */
module ClusterNode {
  import opened Options

  const SLOTS: nat := 16384

  /** A node name; `memcmp` orders names as `<` orders these numbers. */
  type Id = nat

  /** What a node knows of a node of the cluster, itself included. */
  datatype Peer = Peer(master: bool, slaveof: Option<Id>, configEpoch: nat, failed: bool)

  /** `peers` is `server.cluster->nodes`; `owner[j]` is `server.cluster->slots[j]`; a slot j is a key of
      `importing` when `importing_slots_from[j]` is not NULL. */
  datatype Record = Record(
    id: Id,
    peers: map<Id, Peer>,
    owner: seq<Option<Id>>,
    importing: map<nat, Id>,
    size: nat,
    currentEpoch: nat,
    lastVoteEpoch: nat,
    authEpoch: nat,
    authSent: bool,
    authCount: nat)

  datatype Header = Header(
    sender: Id,
    currentEpoch: nat,
    configEpoch: nat,
    slots: set<nat>,
    slaveof: Option<Id>,
    forceAck: bool)

  /** `Config` is a PING, a PONG or a MEET. */
  datatype Body =
    | Config
    | Fail(about: Id)
    | AuthRequest
    | AuthAck
    | Update(about: Id, configEpoch: nat, slots: set<nat>)

  datatype Packet = Packet(to: Id, hdr: Header, body: Body)

  // ---------------------------------------------------------------- the view

  /** A node that owns a slot is known, and a slave knows its master. */
  predicate Valid(n: Record) {
    && |n.owner| == SLOTS
    && n.id in n.peers
    && (forall i {:trigger n.peers[i]} :: i in n.peers && n.peers[i].slaveof.Some? ==>
          !n.peers[i].master && n.peers[i].slaveof.value in n.peers)
    && (forall j :: 0 <= j < SLOTS && n.owner[j].Some? ==>
          n.owner[j].value in n.peers)
    && (n.peers[n.id].master || (n.peers[n.id].slaveof.Some? && n.peers[n.id].slaveof.value != n.id))
  }

  /** A master that knows only itself and serves nothing. */
  function Alone(id: Id): (r: Record)
    ensures Valid(r)
  {
    Record(id, map[id := Peer(true, None, 0, false)], seq(SLOTS, _ => None), map[], 1, 0, 0, 0, false, 0)
  }

  type Node = n: Record | Valid(n) witness Alone(0)

  /** The slots that `i` serves: the bits set in its bitmap. */
  function Claimed(n: Node, i: Id): set<nat>
  {
    set j | 0 <= j < SLOTS && n.owner[j] == Some(i)
  }

  /** `clusterGetMaxEpoch` is the least bound of the epochs of the view. */
  ghost predicate IsMaxEpoch(n: Node, e: nat) {
    && n.currentEpoch <= e
    && (forall i :: i in n.peers ==> n.peers[i].configEpoch <= e)
    && (e == n.currentEpoch || exists i :: i in n.peers && n.peers[i].configEpoch == e)
  }

  function Self(n: Node): Peer
  {
    n.peers[n.id]
  }

  /** The node itself, or the master it replicates. */
  function CurrentMaster(n: Node): Id
  {
    if Self(n).master then n.id else Self(n).slaveof.value
  }

  function SetPeer(n: Record, i: Id, p: Peer): Record { n.(peers := n.peers[i := p]) }

  // ---------------------------------------------------------------- slots

  /** Whether a claim of slot j by `s` at `epoch` rebinds it. */
  predicate Rebinds(n: Node, s: Id, epoch: nat, slots: set<nat>, j: nat)
    requires j < SLOTS
  {
    && j in slots
    && n.owner[j] != Some(s)
    && j !in n.importing
    && (n.owner[j].None? || n.peers[n.owner[j].value].configEpoch < epoch)
  }

  /** The loop of `clusterUpdateSlotsConfigWith`. */
  function Rebound(n: Node, s: Id, epoch: nat, slots: set<nat>): (r: Node)
    requires s in n.peers && n.peers[s].master
    ensures r == n.(owner := r.owner)
    ensures forall j :: 0 <= j < SLOTS ==> r.owner[j] == if Rebinds(n, s, epoch, slots, j) then Some(s) else n.owner[j]
  {
    n.(owner := seq(SLOTS, j requires 0 <= j < SLOTS => if Rebinds(n, s, epoch, slots, j) then Some(s) else n.owner[j]))
  }

  /** `clusterSetMaster`, once its assertions held: another node, and no slot of its own. */
  function SetMaster(n: Node, m: Id): (r: Node)
    requires m in n.peers && m != n.id
    ensures r.id == n.id
  {
    var me := Self(n);
    var r := SetPeer(n, n.id, me.(master := false, slaveof := Some(m)));
    if me.master then r.(importing := map[]) else r
  }

  /** Whether the claim takes a slot from the master this node is or replicates. */
  predicate TakesFromMaster(n: Node, s: Id, epoch: nat, slots: set<nat>)
  {
    exists j :: 0 <= j < SLOTS && Rebinds(n, s, epoch, slots, j) && n.owner[j] == Some(CurrentMaster(n))
  }

  /** The claim takes the last slot of the master of this node while the node serves a slot itself: the assertion of
      `clusterSetMaster` fails, and the server exits. */
  predicate ClaimAborts(n: Node, s: Id, epoch: nat, slots: set<nat>)
    requires s in n.peers && n.peers[s].master
  {
    && s != n.id && TakesFromMaster(n, s, epoch, slots)
    && var r := Rebound(n, s, epoch, slots); Claimed(r, CurrentMaster(n)) == {} && Claimed(r, n.id) != {}
  }

  /** `clusterUpdateSlotsConfigWith`, unless an assertion fails. */
  function UpdateSlots(n: Node, s: Id, epoch: nat, slots: set<nat>): (r: Node)
    requires s in n.peers && n.peers[s].master
    ensures r.id == n.id
  {
    if s == n.id then n
    else
      var m := CurrentMaster(n);
      var r := Rebound(n, s, epoch, slots);
      if TakesFromMaster(n, s, epoch, slots) && Claimed(r, m) == {} then SetMaster(r, s) else r
  }

  lemma UpdateSlotsKnows(n: Node, s: Id, epoch: nat, slots: set<nat>)
    requires s in n.peers && n.peers[s].master
    ensures s in UpdateSlots(n, s, epoch, slots).peers
  {
  }

  /** `clusterDelNodeSlots` */
  function DelNodeSlots(n: Node, i: Id): (r: Node)
    ensures r == n.(owner := r.owner)
    ensures forall j :: 0 <= j < SLOTS ==> r.owner[j] == if n.owner[j] == Some(i) then None else n.owner[j]
  {
    n.(owner := seq(SLOTS, j requires 0 <= j < SLOTS => if n.owner[j] == Some(i) then None else n.owner[j]))
  }

  // ---------------------------------------------------------------- roles and epochs

  /** `clusterSetNodeAsMaster` */
  function SetAsMaster(n: Node, i: Id): (r: Node)
    requires i in n.peers
    ensures r.id == n.id && i in r.peers && r.peers[i].master
  {
    if n.peers[i].master then n else SetPeer(n, i, n.peers[i].(master := true, slaveof := None))
  }

  /** The first thing any packet of a known sender does. */
  function SeeEpochs(n: Node, h: Header): (r: Node)
    requires h.sender in n.peers
    ensures r.id == n.id
  {
    var s := n.peers[h.sender];
    SetPeer(n.(currentEpoch := if h.currentEpoch > n.currentEpoch then h.currentEpoch else n.currentEpoch),
            h.sender, s.(configEpoch := if h.configEpoch > s.configEpoch then h.configEpoch else s.configEpoch))
  }

  /** Slave to master, or master to slave, as the header says. */
  function SwitchRole(n: Node, h: Header): (r: Node)
    requires h.sender in n.peers && h.sender != n.id
    ensures r.id == n.id && r.peers.Keys == n.peers.Keys
  {
    if h.slaveof.None? then SetAsMaster(n, h.sender)
    else
      var s := n.peers[h.sender];
      var r := if s.master then SetPeer(DelNodeSlots(n, h.sender), h.sender, s.(master := false)) else n;
      if h.slaveof.value in r.peers && r.peers[h.sender].slaveof != h.slaveof then
        SetPeer(r, h.sender, r.peers[h.sender].(slaveof := h.slaveof))
      else r
  }

  /** `clusterHandleConfigEpochCollision`, guarded as its caller guards it. */
  function ResolveCollision(n: Node, h: Header): (r: Node)
    requires h.sender in n.peers
    ensures r.id == n.id
  {
    var me, s := Self(n), n.peers[h.sender];
    if me.master && s.master && h.configEpoch == me.configEpoch && s.configEpoch == me.configEpoch &&
       h.sender > n.id then
      SetPeer(n.(currentEpoch := n.currentEpoch + 1), n.id, me.(configEpoch := n.currentEpoch + 1))
    else n
  }

  // ---------------------------------------------------------------- packets sent

  /** `clusterBuildMessageHdr`: a slave publishes the slots and the epoch of its master. */
  function BuildHeader(n: Node, forceAck: bool): Header
  {
    var m := CurrentMaster(n);
    Header(n.id, n.currentEpoch, n.peers[m].configEpoch, Claimed(n, m), Self(n).slaveof, forceAck)
  }

  /** The first claimed slot, from j on, that a master with a greater epoch serves here. */
  function FirstStale(n: Node, h: Header, j: nat): (r: Option<nat>)
    requires j <= SLOTS
    ensures r.Some? ==> r.value < SLOTS && n.owner[r.value].Some?
    decreases SLOTS - j
  {
    if j == SLOTS then None
    else if j in h.slots && n.owner[j] != Some(h.sender) && n.owner[j].Some?
            && n.peers[n.owner[j].value].configEpoch > h.configEpoch then Some(j)
    else FirstStale(n, h, j + 1)
  }

  /** The UPDATE that tells the sender of a stale claim who serves one of its slots. */
  function StaleReply(n: Node, h: Header): seq<Packet>
  {
    var j := FirstStale(n, h, 0);
    if j.None? then []
    else
      var o := n.owner[j.value].value;
      [Packet(h.sender, BuildHeader(n, false), Update(o, n.peers[o].configEpoch, Claimed(n, o)))]
  }

  // ---------------------------------------------------------------- packets received

  /** What is known of a master from its slots being different here. */
  predicate Dirty(n: Node, h: Header)
    requires h.sender in n.peers
  {
    var s := n.peers[h.sender];
    if s.master then Claimed(n, h.sender) != h.slots
    else s.slaveof.Some? && Claimed(n, s.slaveof.value) != h.slots
  }

  /** A PING, PONG or MEET, once the epochs are seen. */
  function ReceiveConfig(n: Node, h: Header): (r: (Node, seq<Packet>))
    requires h.sender in n.peers && h.sender != n.id
    ensures r.0.id == n.id
  {
    var a := SwitchRole(n, h);
    var dirty := Dirty(a, h);
    var b := if a.peers[h.sender].master && dirty then UpdateSlots(a, h.sender, h.configEpoch, h.slots) else a;
    (ResolveCollision(b, h), if dirty then StaleReply(b, h) else [])
  }

  /** Whether a claim in a PING, PONG or MEET fails an assertion. */
  predicate ConfigAborts(n: Node, h: Header)
    requires h.sender in n.peers && h.sender != n.id
  {
    var a := SwitchRole(n, h);
    a.peers[h.sender].master && Dirty(a, h) && ClaimAborts(a, h.sender, h.configEpoch, h.slots)
  }

  /** Whether `clusterSendFailoverAuthIfNeeded` votes, the time since the last vote about that master permitting. */
  predicate GrantsVote(n: Node, h: Header)
    requires h.sender in n.peers
  {
    var s := n.peers[h.sender];
    && Self(n).master && Claimed(n, n.id) != {}
    && h.currentEpoch >= n.currentEpoch
    && n.lastVoteEpoch != n.currentEpoch
    && !s.master && s.slaveof.Some? && (n.peers[s.slaveof.value].failed || h.forceAck)
    && (forall j :: 0 <= j < SLOTS && j in h.slots && n.owner[j].Some? ==>
          n.peers[n.owner[j].value].configEpoch <= h.configEpoch)
  }

  function ReceiveAuthRequest(n: Node, h: Header, timely: bool): (r: (Node, seq<Packet>))
    requires h.sender in n.peers
    ensures r.0.id == n.id
  {
    if GrantsVote(n, h) && timely then
      (n.(lastVoteEpoch := n.currentEpoch), [Packet(h.sender, BuildHeader(n, false), AuthAck)])
    else (n, [])
  }

  /** Whether an ACK is counted. */
  predicate CountsAck(n: Node, h: Header)
    requires h.sender in n.peers
  {
    n.peers[h.sender].master && Claimed(n, h.sender) != {} && h.currentEpoch >= n.authEpoch
  }

  function ReceiveAuthAck(n: Node, h: Header): (r: Node)
    requires h.sender in n.peers
    ensures r.id == n.id
  {
    if CountsAck(n, h) then n.(authCount := n.authCount + 1) else n
  }

  function ReceiveUpdate(n: Node, about: Id, epoch: nat, slots: set<nat>): (r: Node)
    ensures r.id == n.id
  {
    if about !in n.peers || n.peers[about].configEpoch >= epoch then n
    else
      var a := SetAsMaster(n, about);
      UpdateSlots(SetPeer(a, about, a.peers[about].(configEpoch := epoch)), about, epoch, slots)
  }

  /** Whether the claim in an UPDATE fails an assertion. */
  predicate UpdateAborts(n: Node, about: Id, epoch: nat, slots: set<nat>) {
    && about in n.peers && n.peers[about].configEpoch < epoch
    && var a := SetAsMaster(n, about);
    ClaimAborts(SetPeer(a, about, a.peers[about].(configEpoch := epoch)), about, epoch, slots)
  }

  function ReceiveFail(n: Node, about: Id): (r: Node)
    ensures r.id == n.id
  {
    if about in n.peers && about != n.id then SetPeer(n, about, n.peers[about].(failed := true)) else n
  }

  /** `clusterProcessPacket`: the new view and the packets sent in reply. `timely` says whether the vote is late
      enough after the last one about the same master. A sender this node does not know changes nothing. */
  function Receive(n: Node, p: Packet, timely: bool): (r: (Node, seq<Packet>))
    requires p.hdr.sender != n.id
    ensures r.0.id == n.id
  {
    if p.hdr.sender !in n.peers then (n, [])
    else
      var a := SeeEpochs(n, p.hdr);
      match p.body
      case Config => ReceiveConfig(a, p.hdr)
      case Fail(about) => (ReceiveFail(a, about), [])
      case AuthRequest => ReceiveAuthRequest(a, p.hdr, timely)
      case AuthAck => (ReceiveAuthAck(a, p.hdr), [])
      case Update(about, epoch, slots) => (ReceiveUpdate(a, about, epoch, slots), [])
  }

  /** The packet makes the server exit by a failed assertion. */
  predicate Aborts(n: Node, p: Packet)
    requires p.hdr.sender != n.id
  {
    && p.hdr.sender in n.peers
    && var a := SeeEpochs(n, p.hdr);
    match p.body
    case Config => ConfigAborts(a, p.hdr)
    case Update(about, epoch, slots) => UpdateAborts(a, about, epoch, slots)
    case _ => false
  }

  // ---------------------------------------------------------------- timers and commands

  /** `clusterHandleSlaveFailover` goes on: a slave of a failed master, or one told to take over. */
  predicate CanFailover(n: Node, manual: bool)
  {
    && !Self(n).master
    && (n.peers[Self(n).slaveof.value].failed || manual)
    && Claimed(n, Self(n).slaveof.value) != {}
  }

  function ScheduleElection(n: Node): Node { n.(authCount := 0, authSent := false) }

  function StartElection(n: Node): Node {
    n.(currentEpoch := n.currentEpoch + 1, authEpoch := n.currentEpoch + 1, authSent := true)
  }

  predicate HasQuorum(n: Node) { n.authCount >= n.size / 2 + 1 }

  /** `clusterFailoverReplaceYourMaster` */
  function ReplaceMaster(n: Node): (r: Node)
    requires !Self(n).master
    ensures r.id == n.id
    ensures forall j :: 0 <= j < SLOTS ==>
      r.owner[j] == if n.owner[j] == Self(n).slaveof then Some(n.id) else n.owner[j]
  {
    var a := SetAsMaster(n, n.id);
    a.(owner := seq(SLOTS, j requires 0 <= j < SLOTS =>
                      if n.owner[j] == Self(n).slaveof then Some(n.id) else n.owner[j]))
  }

  /** The end of a won election. */
  function WinElection(n: Node): (r: Node)
    requires !Self(n).master
    ensures r.id == n.id
  {
    var me := Self(n);
    var epoch := if me.configEpoch < n.authEpoch then n.authEpoch else me.configEpoch;
    ReplaceMaster(SetPeer(n, n.id, me.(configEpoch := epoch)))
  }

  /** `clusterBumpConfigEpochWithoutConsensus` when it does act. */
  function BumpEpoch(n: Node): (r: Node)
    ensures r.id == n.id
  {
    SetPeer(n.(currentEpoch := n.currentEpoch + 1), n.id, Self(n).(configEpoch := n.currentEpoch + 1))
  }

  /** `clusterUpdateState`: the cluster size is the number of masters that serve a slot. */
  function Voters(n: Node): set<Id>
  {
    set i | i in n.peers && n.peers[i].master && Claimed(n, i) != {}
  }

  /** `clusterDelNode`, which is not called for the node itself or for its master. */
  function DelNode(n: Node, i: Id): (r: Node)
    requires i in n.peers && i != n.id && Self(n).slaveof != Some(i)
    ensures r.id == n.id
    ensures r.peers.Keys == n.peers.Keys - {i}
  {
    var a := DelNodeSlots(n, i);
    a.(peers := map k | k in n.peers && k != i ::
         if n.peers[k].slaveof == Some(i) then n.peers[k].(slaveof := None) else n.peers[k],
       importing := map j | j in n.importing && n.importing[j] != i :: n.importing[j])
  }
}
