/** What a failover is for: no vote is given for a stale claim, the winner has the epoch it was elected in, and its next
    ping gives it every slot of its old master wherever an older epoch is known. */
module ClusterFailover {
  import opened Options
  import opened ClusterNode
  import opened ClusterSystem
  import opened ClusterElection
  import opened ClusterEffects

  // ---------------------------------------------------------------- the moments of a run

  ghost function StateAt(s: System, steps: seq<Step>, k: nat): (r: System)
    requires IsRun(s, steps) && k <= |steps|
    ensures r.nodes.Keys == s.nodes.Keys
    decreases k
  {
    if k == 0 then s else StateAt(Next(s, steps[0]), steps[1..], k - 1)
  }

  /** Step k is made, by its node, from one moment to the next. */
  ghost predicate MadeAt(s: System, steps: seq<Step>, k: nat, step: Step, n: Node, r: Node)
    requires IsRun(s, steps)
  {
    && k < |steps| && steps[k] == step && Actor(step) == n.id && n.id in s.nodes && step in Moves(n)
    && StateAt(s, steps, k).nodes[n.id] == n && StateAt(s, steps, k + 1).nodes[n.id] == r && r == NodeAfter(n, step)
  }

  lemma MadeFirst(s: System, steps: seq<Step>)
    requires IsRun(s, steps) && steps != []
    ensures Actor(steps[0]) in s.nodes && steps[0] in Moves(s.nodes[Actor(steps[0])]) && steps[0] in Steps(s)
    ensures var n := s.nodes[Actor(steps[0])];
      n.id == Actor(steps[0]) && MadeAt(s, steps, 0, steps[0], n, NodeAfter(n, steps[0]))
  {
    hide NodeAfter, Moves;
    assert StateAt(s, steps, 1) == StateAt(Next(s, steps[0]), steps[1..], 0);
  }

  lemma MadeLater(s: System, steps: seq<Step>, k: nat, step: Step, n: Node, r: Node)
    requires IsRun(s, steps) && steps != [] && MadeAt(Next(s, steps[0]), steps[1..], k, step, n, r)
    ensures MadeAt(s, steps, k + 1, step, n, r)
  {
    hide Next, NodeAfter, Moves, Steps;
    assert StateAt(s, steps, k + 2) == StateAt(Next(s, steps[0]), steps[1..], k + 1);
  }

  lemma HistoryParts(s: System, steps: seq<Step>, h: History)
    requires IsRun(s, steps)
    ensures steps == [] ==> HistoryOf(h, s, steps) == h
    ensures steps != [] ==> steps[0] in Steps(s) && IsRun(Next(s, steps[0]), steps[1..])
    ensures steps != [] ==> HistoryOf(h, s, steps) == HistoryOf(Recorded(h, s, steps[0]), Next(s, steps[0]), steps[1..])
  {
    hide Next, Recorded;
  }

  // ---------------------------------------------------------------- the votes

  lemma VotesRecorded(h: History, s: System, step: Step, key: (Id, nat))
    requires step in Steps(s) && key in Recorded(h, s, step).votes
    requires !(key in h.votes && h.votes[key] == Recorded(h, s, step).votes[key])
    ensures step.Deliver? && Actor(step) == step.p.to && Votes(s.nodes[Actor(step)], step.p, step.timely)
    ensures key == (step.p.to, step.p.hdr.currentEpoch) && Recorded(h, s, step).votes[key] == step.p.hdr.sender
  {
    hide Votes, Counts, Moves, NodeAfter;
  }

  /** The vote that is on record was given in this run, or is that of `h`. */
  lemma {:induction false} VoteAt(s: System, steps: seq<Step>, h: History, key: (Id, nat))
    returns (k: nat, p: Packet, timely: bool, n: Node, r: Node)
    requires IsRun(s, steps) && key in HistoryOf(h, s, steps).votes
    requires !(key in h.votes && h.votes[key] == HistoryOf(h, s, steps).votes[key])
    ensures MadeAt(s, steps, k, Deliver(p, timely), n, r) && key == (n.id, p.hdr.currentEpoch)
    ensures p.hdr.sender == HistoryOf(h, s, steps).votes[key] && Votes(n, p, timely)
    decreases steps
  {
    hide *;
    HistoryParts(s, steps, h);
    if steps == [] {
      assert false;
    } else {
      MadeFirst(s, steps);
      var h1 := Recorded(h, s, steps[0]);
      if key in h1.votes && h1.votes[key] == HistoryOf(h, s, steps).votes[key] {
        VotesRecorded(h, s, steps[0], key);
        k, p, timely := 0, steps[0].p, steps[0].timely;
        n := s.nodes[Actor(steps[0])];
        r := NodeAfter(n, steps[0]);
      } else {
        k, p, timely, n, r := VoteAt(Next(s, steps[0]), steps[1..], h1, key);
        MadeLater(s, steps, k, Deliver(p, timely), n, r);
        k := k + 1;
      }
    }
  }

  lemma VotesMay(n: Node, p: Packet, timely: bool)
    requires Votes(n, p, timely) && p.hdr.sender != n.id
    ensures p.hdr.sender in n.peers && p.body.AuthRequest? && MayVote(n, p.hdr, timely)
  {
    VoteGranted(n, p.hdr);
    hide GrantsVote, SeeEpochs;
  }

  lemma DeliversOthers(n: Node, p: Packet, timely: bool)
    requires Deliver(p, timely) in Moves(n)
    ensures p.hdr.sender != n.id
  {
    hide Aborts;
  }

  /** Over every run: a vote on record was given, in a state the voter was in, to a slave of a failed master, or one
      that was told to fail over, whose claim was not stale there: the voter knew no claimed slot in a greater epoch. */
  lemma VotesNotStale(s: System, steps: seq<Step>, voter: Id, epoch: nat)
    returns (k: nat, p: Packet, timely: bool, n: Node, r: Node)
    requires IsRun(s, steps) && (voter, epoch) in HistoryOf(NOTHING, s, steps).votes
    ensures MadeAt(s, steps, k, Deliver(p, timely), n, r) && n.id == voter && p.body.AuthRequest?
    ensures p.hdr.currentEpoch == epoch && p.hdr.sender == HistoryOf(NOTHING, s, steps).votes[(voter, epoch)]
    ensures p.hdr.sender in n.peers && p.hdr.sender != voter
    ensures var c := n.peers[p.hdr.sender];
      !c.master && c.slaveof.Some? && (n.peers[c.slaveof.value].failed || p.hdr.forceAck)
    ensures forall j :: 0 <= j < SLOTS && j in p.hdr.slots && n.owner[j].Some? ==>
      Seen(n, p.hdr, n.owner[j].value) <= p.hdr.configEpoch
  {
    k, p, timely, n, r := VoteAt(s, steps, NOTHING, (voter, epoch));
    hide Votes, HistoryOf, IsRun, StateAt, NodeAfter;
    DeliversOthers(n, p, timely);
    hide Moves;
    VotesMay(n, p, timely);
  }

  // ---------------------------------------------------------------- the winner

  lemma WinsRecorded(h: History, s: System, step: Step, w: Victory)
    requires step in Steps(s) && w in Recorded(h, s, step).wins && w !in h.wins
    ensures step.Win? && Actor(step) == step.i && s.nodes[step.i].id == step.i
    ensures w.winner == step.i && w.epoch == s.nodes[step.i].authEpoch
  {
    hide Votes, Counts, Moves, NodeAfter;
  }

  lemma {:induction false} VictoryAt(s: System, steps: seq<Step>, h: History, w: Victory)
    returns (k: nat, manual: bool, n: Node, r: Node)
    requires IsRun(s, steps) && w in HistoryOf(h, s, steps).wins && w !in h.wins
    ensures MadeAt(s, steps, k, Win(n.id, manual), n, r) && w.winner == n.id && w.epoch == n.authEpoch
    decreases steps
  {
    hide *;
    HistoryParts(s, steps, h);
    if steps == [] {
      assert false;
    } else {
      MadeFirst(s, steps);
      var h1 := Recorded(h, s, steps[0]);
      if w in h1.wins {
        WinsRecorded(h, s, steps[0], w);
        k, manual, n := 0, steps[0].manual, s.nodes[Actor(steps[0])];
        r := NodeAfter(n, steps[0]);
      } else {
        k, manual, n, r := VictoryAt(Next(s, steps[0]), steps[1..], h1, w);
        MadeLater(s, steps, k, Win(n.id, manual), n, r);
        k := k + 1;
      }
    }
  }

  /** Over every run: whoever has won is, at the moment after its victory, a master in an epoch not before the one it
      was elected in, with every slot of the master it replaced. */
  lemma VictoryTakesEpoch(s: System, steps: seq<Step>, w: Victory)
    returns (k: nat, manual: bool, n: Node, r: Node)
    requires IsRun(s, steps) && w in HistoryOf(NOTHING, s, steps).wins
    ensures MadeAt(s, steps, k, Win(n.id, manual), n, r) && w.winner == n.id && w.epoch == n.authEpoch
    ensures n.id in r.peers && r.peers[n.id].master && r.peers[n.id].configEpoch >= w.epoch
    ensures n.peers[n.id].slaveof.Some?
    ensures forall j :: 0 <= j < SLOTS && n.owner[j] == n.peers[n.id].slaveof ==> r.owner[j] == Some(n.id)
  {
    k, manual, n, r := VictoryAt(s, steps, NOTHING, w);
    hide HistoryOf, IsRun, StateAt;
    WinEffect(n, manual);
    ElectionSteps(n, manual, true);
    hide NodeAfter, Moves;
  }

  /** The ping the winner sends next to node i. */
  ghost function NextPing(n: Node, manual: bool, i: Id): Packet
    requires Win(n.id, manual) in Moves(n)
  {
    Packet(i, BuildHeader(NodeAfter(n, Win(n.id, manual)), false), Config)
  }

  /** It claims every slot of the old master. At any node that imports nothing, knows the winner and serves the claimed
      slots, if at all, in epochs before the one it was elected in, it takes over every slot it claims. */
  lemma WinnerTakesSlots(n: Node, manual: bool, r: Node, timely: bool)
    requires Win(n.id, manual) in Moves(n) && r.id != n.id && n.id in r.peers && r.importing == map[]
    requires forall j :: 0 <= j < SLOTS && j in NextPing(n, manual, r.id).hdr.slots && r.owner[j].Some? ==>
      r.owner[j] == Some(n.id) || r.peers[r.owner[j].value].configEpoch < n.authEpoch
    ensures var p := NextPing(n, manual, r.id);
      && p.hdr.sender == n.id && n.peers[n.id].slaveof.Some?
      && (forall j :: 0 <= j < SLOTS && n.owner[j] == n.peers[n.id].slaveof ==> j in p.hdr.slots)
      && forall j :: j in p.hdr.slots ==> 0 <= j < SLOTS && Receive(r, p, timely).0.owner[j] == Some(n.id)
  {
    ElectionSteps(n, manual, true);
    WinEffect(n, manual);
    var won := NodeAfter(n, Win(n.id, manual));
    HeaderSays(won, false);
    hide NodeAfter, Moves, BuildHeader;
    MasterPingEffect(r, NextPing(n, manual, r.id), timely);
    hide Receive;
  }
}
