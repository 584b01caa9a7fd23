/** An ACK that arrives between the scheduling of an election and its start is counted in that election: two
    slaves can then win in the same epoch. */
module ClusterLeak {
  import opened Options
  import opened ClusterNode
  import opened ClusterSystem
  import opened ClusterElection

  /** Masters 1 and 2 vote; master 3 failed; 10 and 11 are its slaves. */
  function Peers(): map<Id, Peer> {
    map[1 := Peer(true, None, 0, false), 2 := Peer(true, None, 0, false), 3 := Peer(true, None, 0, true),
        10 := Peer(false, Some(3), 0, false), 11 := Peer(false, Some(3), 0, false)]
  }

  /** Each master serves one slot. */
  function Owners(): (r: seq<Option<Id>>)
    ensures |r| == SLOTS
    ensures forall j :: 0 <= j < SLOTS ==> r[j] == if j < 3 then Some(j + 1) else None
  {
    seq(SLOTS, j requires 0 <= j < SLOTS => if j < 3 then Some(j + 1) else None)
  }

  function View(i: Id, currentEpoch: nat, lastVoteEpoch: nat, authEpoch: nat, authSent: bool, authCount: nat): Node
    requires i in Peers()
  {
    Record(i, Peers(), Owners(), map[], 3, currentEpoch, lastVoteEpoch, authEpoch, authSent, authCount)
  }

  function Candidate(c: Id, currentEpoch: nat, authEpoch: nat, authSent: bool, authCount: nat): Node
    requires c == 10 || c == 11
  {
    View(c, currentEpoch, 0, authEpoch, authSent, authCount)
  }

  function Voter(v: Id, currentEpoch: nat, lastVoteEpoch: nat): Node
    requires v == 1 || v == 2
  {
    View(v, currentEpoch, lastVoteEpoch, 0, false, 0)
  }

  /** Two masters that vote and the two slaves of a third, which has failed. */
  function Beginning(): System {
    Nodes(map i | i in {1, 2, 10, 11} :: View(i, 0, 0, 0, false, 0), multiset{})
  }

  function Request(c: Id, v: Id, e: nat): Packet { Packet(v, Header(c, e, 0, {2}, Some(3), false), AuthRequest) }

  function Ack(c: Id, v: Id, e: nat): Packet {
    Packet(c, Header(v, e, 0, {if v == 1 then 0 else 1}, None, false), AuthAck)
  }

  lemma OneSlotEach(n: Node)
    requires n.owner == Owners()
    ensures Claimed(n, 1) == {0} && Claimed(n, 2) == {1} && Claimed(n, 3) == {2}
  {
  }

  lemma SameEpochs(n: Node, h: Header)
    requires n.peers == Peers() && h.sender in Peers() && h.configEpoch == 0
    ensures SeeEpochs(n, h) ==
      n.(currentEpoch := if h.currentEpoch > n.currentEpoch then h.currentEpoch else n.currentEpoch)
  {
    assert n.peers[h.sender := n.peers[h.sender]] == n.peers;
  }

  lemma VoterVotes(c: Id, v: Id, e: nat, last: nat)
    requires (c == 10 || c == 11) && (v == 1 || v == 2) && last < e
    ensures Votes(Voter(v, last, last), Request(c, v, e), true)
    ensures Receive(Voter(v, last, last), Request(c, v, e), true) == (Voter(v, e, e), [Ack(c, v, e)])
  {
    var n := Voter(v, last, last);
    SameEpochs(n, Request(c, v, e).hdr);
    OneSlotEach(n.(currentEpoch := e));
  }

  lemma CandidateCounts(c: Id, v: Id, e: nat, sent: bool, count: nat)
    requires (c == 10 || c == 11) && (v == 1 || v == 2)
    ensures var n := Candidate(c, e, e, sent, count);
      && Counts(n, Ack(c, v, e))
      && Receive(n, Ack(c, v, e), true) == (Candidate(c, e, e, sent, count + 1), [])
  {
    var n := Candidate(c, e, e, sent, count);
    SameEpochs(n, Ack(c, v, e).hdr);
    OneSlotEach(n);
  }

  lemma CandidateMay(c: Id, e: nat, count: nat)
    requires c == 10 || c == 11
    ensures Start(c, false, false) in Moves(Candidate(c, e, e, false, count))
  {
    OneSlotEach(Candidate(c, e, e, false, count));
  }

  lemma CandidateRequests(c: Id, v: Id, e: nat, count: nat)
    requires (c == 10 || c == 11) && (v == 1 || v == 2)
    ensures Request(c, v, e) in Requests(Candidate(c, e, e, true, count), false)
  {
    OneSlotEach(Candidate(c, e, e, true, count));
  }

  lemma CandidateAsks(c: Id, v: Id, e: nat, count: nat)
    requires (c == 10 || c == 11) && (v == 1 || v == 2)
    ensures var n, start := Candidate(c, e, e, false, count), Start(c, false, false);
      && start in Moves(n)
      && NodeAfter(n, start) == Candidate(c, e + 1, e + 1, true, count)
      && Request(c, v, e + 1) in Sent(n, start)
  {
    CandidateMay(c, e, count);
    CandidateRequests(c, v, e + 1, count);
    assert StartElection(Candidate(c, e, e, false, count)) == Candidate(c, e + 1, e + 1, true, count);
    hide Requests, Moves, Request, Candidate, StartElection;
  }

  lemma CandidateWins(c: Id)
    requires c == 10 || c == 11
    ensures Win(c, false) in Moves(Candidate(c, 2, 2, true, 2))
  {
    OneSlotEach(Candidate(c, 2, 2, true, 2));
  }

  lemma CandidateRetries(c: Id)
    requires c == 10 || c == 11
    ensures var n, step := Candidate(c, 1, 1, true, 0), Schedule(c, false);
      step in Moves(n) && NodeAfter(n, step) == Candidate(c, 1, 1, false, 0)
  {
    OneSlotEach(Candidate(c, 1, 1, true, 0));
  }

  // ---------------------------------------------------------------- the run

  const VOTERS: set<Id> := {1, 2, 3}

  /** From a system and its past, steps lead to another and its past, among fixed voters. */
  ghost predicate Leads(s: System, h: History, steps: seq<Step>, s': System, h': History) {
    IsRun(s, steps) && After(s, steps) == s' && HistoryOf(h, s, steps) == h' && VotersFixedRun(s, VOTERS, steps)
  }

  /** Only nodes c and v changed. */
  ghost predicate Others(s: System, s': System, c: Id, v: Id) {
    s'.nodes.Keys == s.nodes.Keys && forall i :: i in s.nodes && i != c && i != v ==> s'.nodes[i] == s.nodes[i]
  }

  lemma OthersTwice(s: System, s1: System, s2: System, c: Id, v: Id)
    requires c in s.nodes && v in s.nodes
    requires Others(s, s1, c, v) || Others(s, s1, c, c) || Others(s, s1, v, v)
    requires Others(s1, s2, c, v) || Others(s1, s2, c, c) || Others(s1, s2, v, v)
    ensures Others(s, s2, c, v) && c in s2.nodes && v in s2.nodes
  {
  }

  lemma Untouched(s: System, s': System, c: Id, d: Id, i: Id)
    requires Others(s, s', c, d) && i in s.nodes && c in s.nodes && d in s.nodes
    ensures i in s'.nodes && c in s'.nodes && d in s'.nodes && (i != c && i != d ==> s'.nodes[i] == s.nodes[i])
  {
  }

  lemma LeadsOne(s: System, h: History, step: Step)
    requires step in Steps(s) && VotersFixed(s, VOTERS, step)
    ensures Leads(s, h, [step], Next(s, step), Recorded(h, s, step))
  {
    var t := Next(s, step);
    assert [step][1..] == [];
    assert IsRun(t, []);
    assert HistoryOf(Recorded(h, s, step), t, []) == Recorded(h, s, step);
    assert VotersFixedRun(t, VOTERS, []);
  }

  lemma Rest<T>(a: seq<T>, b: seq<T>)
    requires a != []
    ensures (a + b)[0] == a[0] && (a + b)[1..] == a[1..] + b
  {
  }

  lemma {:induction false} LeadsBoth(s: System, h: History, a: seq<Step>, s1: System, h1: History, b: seq<Step>,
          s2: System, h2: History)
    requires Leads(s, h, a, s1, h1) && Leads(s1, h1, b, s2, h2)
    ensures Leads(s, h, a + b, s2, h2)
    decreases |a|
  {
    hide Next, Recorded, Steps;
    if a == [] {
      assert a + b == b;
    } else {
      Rest(a, b);
      LeadsBoth(Next(s, a[0]), Recorded(h, s, a[0]), a[1..], s1, h1, b, s2, h2);
    }
  }

  lemma DeliverEnabled(s: System, p: Packet)
    requires p in s.net && p.to in s.nodes && p.hdr.sender != p.to && Electoral(p)
    requires Counts(s.nodes[p.to], p) ==> p.hdr.sender in VOTERS
    ensures Deliver(p, true) in Steps(s) && VotersFixed(s, VOTERS, Deliver(p, true))
  {
    assert Taken(Deliver(p, true)) <= s.net;
    hide Counts, SeeEpochs;
  }

  /** One delivery. */
  lemma DeliverOne(s: System, h: History, p: Packet, n: Node, out: seq<Packet>)
      returns (step: Step, s': System, h': History)
    requires p in s.net && p.to in s.nodes && p.hdr.sender != p.to && Electoral(p)
    requires Receive(s.nodes[p.to], p, true) == (n, out) && (Counts(s.nodes[p.to], p) ==> p.hdr.sender in VOTERS)
    ensures Leads(s, h, [step], s', h')
    ensures Others(s, s', p.to, p.to) && s'.nodes[p.to] == n
    ensures s'.net == s.net - multiset{p} + multiset(out) && h'.wins == h.wins
  {
    hide *;
    step := Deliver(p, true);
    DeliverEnabled(s, p);
    LeadsOne(s, h, step);
    s', h' := Next(s, step), Recorded(h, s, step);
    DeliverNext(s, p, n, out);
    DeliverRecorded(s, h, p);
  }

  lemma DeliverNext(s: System, p: Packet, n: Node, out: seq<Packet>)
    requires Deliver(p, true) in Steps(s)
    requires p.to in s.nodes && p.hdr.sender != p.to && Receive(s.nodes[p.to], p, true) == (n, out)
    ensures var s' := Next(s, Deliver(p, true));
      Others(s, s', p.to, p.to) && s'.nodes[p.to] == n && s'.net == s.net - multiset{p} + multiset(out)
  {
    hide Receive, Aborts;
  }

  lemma DeliverRecorded(s: System, h: History, p: Packet)
    requires Deliver(p, true) in Steps(s)
    ensures Recorded(h, s, Deliver(p, true)).wins == h.wins
  {
    hide Votes, Counts, Moves;
  }

  /** One step of a timer. */
  lemma OwnOne(s: System, h: History, step: Step, n: Node) returns (s': System, h': History)
    requires step.Start? || step.Schedule? || (step.Win? && step.i in s.nodes && s.nodes[step.i].size == |VOTERS|)
    requires step.i in s.nodes && step in Moves(s.nodes[step.i]) && NodeAfter(s.nodes[step.i], step) == n
    ensures Leads(s, h, [step], s', h')
    ensures Others(s, s', step.i, step.i) && s'.nodes[step.i] == n
    ensures step.Start? ==> forall p :: p in Sent(s.nodes[step.i], step) ==> p in s'.net
    ensures step.Start? ==> h' == h
    ensures step.Schedule? ==> s'.net == s.net && h'.wins == h.wins
    ensures step.Win? ==> h'.wins == h.wins + {VictoryOf(h, s.nodes[step.i])}
  {
    hide *;
    Enabled(s, step);
    LeadsOne(s, h, step);
    s', h' := Next(s, step), Recorded(h, s, step);
    TimerNext(s, step);
    TimerRecorded(s, h, step);
  }

  lemma Enabled(s: System, step: Step)
    requires step.Start? || step.Schedule? || (step.Win? && step.i in s.nodes && s.nodes[step.i].size == |VOTERS|)
    requires step.i in s.nodes && step in Moves(s.nodes[step.i])
    ensures step in Steps(s) && VotersFixed(s, VOTERS, step)
  {
    hide Moves, NodeAfter;
    assert Taken(step) <= s.net;
  }

  lemma TimerNext(s: System, step: Step)
    requires step in Steps(s) && (step.Start? || step.Schedule? || step.Win?)
    ensures step.i in s.nodes && step in Moves(s.nodes[step.i]) && Others(s, Next(s, step), step.i, step.i)
    ensures Next(s, step).nodes[step.i] == NodeAfter(s.nodes[step.i], step)
    ensures forall p :: p in Sent(s.nodes[step.i], step) ==> p in Next(s, step).net
    ensures step.Schedule? ==> Next(s, step).net == s.net
  {
    hide NodeAfter, Moves;
  }

  lemma TimerRecorded(s: System, h: History, step: Step)
    requires step in Steps(s)
    ensures step.Start? ==> Recorded(h, s, step) == h
    ensures step.Schedule? ==> Recorded(h, s, step).wins == h.wins
    ensures step.Win? ==> step.i in s.nodes && Recorded(h, s, step).wins == h.wins + {VictoryOf(h, s.nodes[step.i])}
  {
    hide NodeAfter, Moves;
  }

  /** Candidate c starts an election. */
  lemma Ask(s: System, h: History, c: Id, v: Id, e: nat, count: nat) returns (step: Step, s': System)
    requires (c == 10 || c == 11) && (v == 1 || v == 2)
    requires c in s.nodes && s.nodes[c] == Candidate(c, e, e, false, count)
    ensures Leads(s, h, [step], s', h)
    ensures Others(s, s', c, c) && s'.nodes[c] == Candidate(c, e + 1, e + 1, true, count)
    ensures Request(c, v, e + 1) in s'.net
  {
    hide *;
    step := Start(c, false, false);
    CandidateAsks(c, v, e, count);
    var h';
    s', h' := OwnOne(s, h, step, Candidate(c, e + 1, e + 1, true, count));
  }

  /** Master v votes for it. */
  lemma Answer(s: System, h: History, c: Id, v: Id, e: nat) returns (step: Step, s': System, h': History)
    requires (c == 10 || c == 11) && (v == 1 || v == 2)
    requires v in s.nodes && s.nodes[v] == Voter(v, e, e) && Request(c, v, e + 1) in s.net
    ensures Leads(s, h, [step], s', h')
    ensures Others(s, s', v, v) && s'.nodes[v] == Voter(v, e + 1, e + 1)
    ensures Ack(c, v, e + 1) in s'.net
    ensures h'.wins == h.wins
  {
    hide Leads, Receive, Votes, Others, Voter;
    VoterVotes(c, v, e + 1, e);
    step, s', h' := DeliverOne(s, h, Request(c, v, e + 1), Voter(v, e + 1, e + 1), [Ack(c, v, e + 1)]);
  }

  /** Candidate c counts the vote of v. */
  lemma Hear(s: System, h: History, c: Id, v: Id, e: nat, sent: bool, count: nat)
      returns (step: Step, s': System, h': History)
    requires (c == 10 || c == 11) && (v == 1 || v == 2)
    requires c in s.nodes && s.nodes[c] == Candidate(c, e, e, sent, count) && Ack(c, v, e) in s.net
    ensures Leads(s, h, [step], s', h')
    ensures Others(s, s', c, c) && s'.nodes[c] == Candidate(c, e, e, sent, count + 1)
    ensures h'.wins == h.wins
  {
    hide Leads, Receive, Counts, Others, Candidate;
    CandidateCounts(c, v, e, sent, count);
    step, s', h' := DeliverOne(s, h, Ack(c, v, e), Candidate(c, e, e, sent, count + 1), []);
  }

  /** Candidate c schedules another election. */
  lemma Retry(s: System, h: History, c: Id) returns (step: Step, s': System, h': History)
    requires (c == 10 || c == 11) && c in s.nodes && s.nodes[c] == Candidate(c, 1, 1, true, 0)
    ensures Leads(s, h, [step], s', h')
    ensures Others(s, s', c, c) && s'.nodes[c] == Candidate(c, 1, 1, false, 0) && s'.net == s.net
    ensures h'.wins == h.wins
  {
    hide *;
    step := Schedule(c, false);
    CandidateRetries(c);
    s', h' := OwnOne(s, h, step, Candidate(c, 1, 1, false, 0));
  }

  /** Candidate c wins in epoch 2. */
  lemma Finish(s: System, h: History, c: Id) returns (step: Step, s': System, h': History, w: Victory)
    requires (c == 10 || c == 11) && c in s.nodes && s.nodes[c] == Candidate(c, 2, 2, true, 2)
    ensures Leads(s, h, [step], s', h')
    ensures Others(s, s', c, c)
    ensures h'.wins == h.wins + {w} && w.epoch == 2 && w.winner == c
  {
    hide Leads, NodeAfter, Moves, Others;
    step := Win(c, false);
    CandidateWins(c);
    w := VictoryOf(h, s.nodes[c]);
    s', h' := OwnOne(s, h, step, NodeAfter(s.nodes[c], step));
  }

  /** An election of c in which v votes; the ACK is still on its way. */
  lemma Campaign(s: System, h: History, c: Id, v: Id, e: nat, count: nat)
      returns (steps: seq<Step>, s': System, h': History)
    requires (c == 10 || c == 11) && (v == 1 || v == 2)
    requires c in s.nodes && v in s.nodes
    requires s.nodes[c] == Candidate(c, e, e, false, count) && s.nodes[v] == Voter(v, e, e)
    ensures Leads(s, h, steps, s', h')
    ensures Others(s, s', c, v)
    ensures s'.nodes[c] == Candidate(c, e + 1, e + 1, true, count) && s'.nodes[v] == Voter(v, e + 1, e + 1)
    ensures Ack(c, v, e + 1) in s'.net
    ensures h'.wins == h.wins
  {
    hide *;
    var a, s1 := Ask(s, h, c, v, e, count);
    Untouched(s, s1, c, c, v);
    var b;
    b, s', h' := Answer(s1, h, c, v, e);
    Untouched(s1, s', v, v, c);
    OthersTwice(s, s1, s', c, v);
    LeadsBoth(s, h, [a], s1, h, [b], s', h');
    steps := [a] + [b];
  }

  /** The first election of c, scheduled again before its ACK arrives. */
  lemma Leak(s: System, h: History, c: Id, v: Id) returns (steps: seq<Step>, s': System, h': History)
    requires (c == 10 || c == 11) && (v == 1 || v == 2)
    requires c in s.nodes && v in s.nodes && s.nodes[c] == Candidate(c, 0, 0, false, 0) && s.nodes[v] == Voter(v, 0, 0)
    ensures Leads(s, h, steps, s', h')
    ensures Others(s, s', c, v) && s'.nodes[c] == Candidate(c, 1, 1, false, 0) && s'.nodes[v] == Voter(v, 1, 1)
    ensures Ack(c, v, 1) in s'.net
    ensures h'.wins == h.wins
  {
    hide *;
    var a, s1, h1 := Campaign(s, h, c, v, 0, 0);
    Untouched(s, s1, c, v, c);
    var b;
    b, s', h' := Retry(s1, h1, c);
    Untouched(s1, s', c, c, v);
    OthersTwice(s, s1, s', c, v);
    LeadsBoth(s, h, a, s1, h1, [b], s', h');
    steps := a + [b];
  }

  /** The late ACK is counted, and the next election started. */
  lemma Reuse(s: System, h: History, c: Id, v: Id) returns (steps: seq<Step>, s': System, h': History)
    requires (c == 10 || c == 11) && (v == 1 || v == 2)
    requires c in s.nodes && v in s.nodes && s.nodes[c] == Candidate(c, 1, 1, false, 0) && s.nodes[v] == Voter(v, 1, 1)
    requires Ack(c, v, 1) in s.net
    ensures Leads(s, h, steps, s', h')
    ensures Others(s, s', c, v) && s'.nodes[c] == Candidate(c, 2, 2, true, 1) && s'.nodes[v] == Voter(v, 2, 2)
    ensures Ack(c, v, 2) in s'.net
    ensures h'.wins == h.wins
  {
    hide *;
    var a, s1, h1 := Hear(s, h, c, v, 1, false, 0);
    Untouched(s, s1, c, c, v);
    var b;
    b, s', h' := Campaign(s1, h1, c, v, 1, 1);
    Untouched(s1, s', c, v, c);
    OthersTwice(s, s1, s', c, v);
    LeadsBoth(s, h, [a], s1, h1, b, s', h');
    steps := [a] + b;
  }

  /** The second vote of the same master makes two, and c wins. */
  lemma Steal(s: System, h: History, c: Id, v: Id) returns (steps: seq<Step>, s': System, h': History, w: Victory)
    requires (c == 10 || c == 11) && (v == 1 || v == 2)
    requires c in s.nodes && s.nodes[c] == Candidate(c, 2, 2, true, 1) && Ack(c, v, 2) in s.net
    ensures Leads(s, h, steps, s', h')
    ensures Others(s, s', c, c)
    ensures h'.wins == h.wins + {w} && w.epoch == 2 && w.winner == c
  {
    hide *;
    var a, s1, h1 := Hear(s, h, c, v, 2, true, 1);
    Untouched(s, s1, c, c, c);
    var b;
    b, s', h', w := Finish(s1, h1, c);
    OthersTwice(s, s1, s', c, c);
    LeadsBoth(s, h, [a], s1, h1, [b], s', h');
    steps := [a] + [b];
  }

  lemma Rise(s: System, h: History, c: Id, v: Id) returns (steps: seq<Step>, s': System, h': History)
    requires (c == 10 || c == 11) && (v == 1 || v == 2)
    requires c in s.nodes && v in s.nodes && s.nodes[c] == Candidate(c, 0, 0, false, 0) && s.nodes[v] == Voter(v, 0, 0)
    ensures Leads(s, h, steps, s', h')
    ensures Others(s, s', c, v) && s'.nodes[c] == Candidate(c, 2, 2, true, 1) && s'.nodes[v] == Voter(v, 2, 2)
    ensures Ack(c, v, 2) in s'.net
    ensures h'.wins == h.wins
  {
    hide *;
    var a, s1, h1 := Leak(s, h, c, v);
    Untouched(s, s1, c, v, c);
    var b;
    b, s', h' := Reuse(s1, h1, c, v);
    OthersTwice(s, s1, s', c, v);
    LeadsBoth(s, h, a, s1, h1, b, s', h');
    steps := a + b;
  }

  lemma Usurp(s: System, h: History, c: Id, v: Id) returns (steps: seq<Step>, s': System, h': History, w: Victory)
    requires (c == 10 || c == 11) && (v == 1 || v == 2)
    requires c in s.nodes && v in s.nodes && s.nodes[c] == Candidate(c, 0, 0, false, 0) && s.nodes[v] == Voter(v, 0, 0)
    ensures Leads(s, h, steps, s', h')
    ensures Others(s, s', c, v)
    ensures h'.wins == h.wins + {w} && w.epoch == 2 && w.winner == c
  {
    hide *;
    var a, s1, h1 := Rise(s, h, c, v);
    Untouched(s, s1, c, v, c);
    var b;
    b, s', h', w := Steal(s1, h1, c, v);
    OthersTwice(s, s1, s', c, v);
    LeadsBoth(s, h, a, s1, h1, b, s', h');
    steps := a + b;
  }

  lemma Begins()
    ensures var s := Beginning();
      && 1 in s.nodes && s.nodes[1] == Voter(1, 0, 0) && 2 in s.nodes && s.nodes[2] == Voter(2, 0, 0)
      && 10 in s.nodes && s.nodes[10] == Candidate(10, 0, 0, false, 0)
      && 11 in s.nodes && s.nodes[11] == Candidate(11, 0, 0, false, 0)
  {
  }

  lemma BothUsurp() returns (steps: seq<Step>, s': System, h': History, v: Victory, w: Victory)
    ensures Leads(Beginning(), NOTHING, steps, s', h')
    ensures h'.wins == NOTHING.wins + {v} + {w} && v.epoch == w.epoch == 2 && v.winner == 10 && w.winner == 11
  {
    hide *;
    Begins();
    var a, s1, h1;
    a, s1, h1, v := Usurp(Beginning(), NOTHING, 10, 1);
    Untouched(Beginning(), s1, 10, 1, 11);
    Untouched(Beginning(), s1, 10, 1, 2);
    var b;
    b, s', h', w := Usurp(s1, h1, 11, 2);
    LeadsBoth(Beginning(), NOTHING, a, s1, h1, b, s', h');
    steps := a + b;
  }

  lemma ViewQuiet(i: Id)
    requires i in Peers()
    ensures NodeBounded(View(i, 0, 0, 0, false, 0))
  {
    assert forall k :: k in Peers() ==> Peers()[k].configEpoch == 0;
  }

  lemma BeginsBounded()
    ensures Bounded(Beginning())
  {
    hide View, NodeBounded;
    var s := Beginning();
    forall i | i in s.nodes ensures NodeBounded(s.nodes[i]) {
      ViewQuiet(i);
      assert s.nodes[i] == View(i, 0, 0, 0, false, 0);
    }
  }

  lemma BeginsQuiet()
    ensures NoElections(Beginning())
  {
    var s := Beginning();
    forall i | i in s.nodes ensures !s.nodes[i].authSent && s.nodes[i].authCount == 0 {
      assert s.nodes[i] == View(i, 0, 0, 0, false, 0);
    }
  }

  /** Without the assumption on late ACKs election safety fails: from a cluster with no election under way, both
      slaves of the failed master win in epoch 2. */
  lemma LateAckLeaks() returns (steps: seq<Step>, v: Victory, w: Victory)
    ensures Bounded(Beginning()) && NoElections(Beginning())
    ensures IsRun(Beginning(), steps) && VotersFixedRun(Beginning(), VOTERS, steps)
    ensures v in HistoryOf(NOTHING, Beginning(), steps).wins && w in HistoryOf(NOTHING, Beginning(), steps).wins
    ensures v.epoch == w.epoch && v.winner != w.winner
  {
    hide Beginning, Bounded, NoElections;
    BeginsBounded();
    BeginsQuiet();
    var s', h';
    steps, s', h', v, w := BothUsurp();
  }
}
