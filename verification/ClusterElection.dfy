/** Slave elections: what a quorum counts, and when no two slaves reach it in the same epoch. */
module ClusterElection {
  import opened Basics
  import opened ClusterNode
  import opened ClusterSystem

  /** An election won: its epoch, its winner and the masters whose ACKs it counted after it asked for them, its count,
      how many of the count came before it asked, and the size of the cluster it knew. */
  datatype Victory = Victory(epoch: nat, winner: Id, voters: set<Id>, count: nat, late: nat, size: nat)

  /** What happened so far: who each master voted for in each epoch, the ACKs each candidate counted since it last
      reset its count, those that came before it asked apart, and the elections won. */
  datatype History =
    History(votes: map<(Id, nat), Id>, counted: map<Id, set<Id>>, late: map<Id, nat>, wins: set<Victory>)

  const NOTHING := History(map[], map[], map[], {})

  function Counted(h: History, i: Id): set<Id> { if i in h.counted then h.counted[i] else {} }

  function Late(h: History, i: Id): nat { if i in h.late then h.late[i] else 0 }

  /** One more ACK counted, in the election it was sent for or before the next one is started. */
  function WithAck(h: History, i: Id, authSent: bool, sender: Id): History {
    if authSent then h.(counted := h.counted[i := Counted(h, i) + {sender}])
    else h.(late := h.late[i := Late(h, i) + 1])
  }

  /** The delivery of this packet makes the receiver vote. */
  predicate Votes(n: Node, p: Packet, timely: bool)
  {
    p.body.AuthRequest? && p.hdr.sender in n.peers && GrantsVote(SeeEpochs(n, p.hdr), p.hdr) && timely
  }

  /** The delivery of this packet makes the receiver count an ACK. */
  predicate Counts(n: Node, p: Packet)
  {
    p.body.AuthAck? && p.hdr.sender in n.peers && CountsAck(SeeEpochs(n, p.hdr), p.hdr)
  }

  function VictoryOf(h: History, n: Node): Victory {
    Victory(n.authEpoch, n.id, Counted(h, n.id), n.authCount, Late(h, n.id), n.size)
  }

  ghost function Recorded(h: History, s: System, step: Step): History
    requires step in Steps(s)
  {
    var n := s.nodes[Actor(step)];
    match step
    case Deliver(p, timely) =>
      if Votes(n, p, timely) then h.(votes := h.votes[(n.id, p.hdr.currentEpoch) := p.hdr.sender])
      else if Counts(n, p) then WithAck(h, n.id, n.authSent, p.hdr.sender)
      else h
    case Schedule(i, _) => h.(counted := h.counted[i := {}], late := h.late[i := 0])
    case Win(_, _) => h.(wins := h.wins + {VictoryOf(h, n)})
    case _ => h
  }

  ghost function HistoryOf(h: History, s: System, steps: seq<Step>): History
    requires IsRun(s, steps)
    decreases steps
  {
    if steps == [] then h else HistoryOf(Recorded(h, s, steps[0]), Next(s, steps[0]), steps[1..])
  }

  /** The masters that serve slots are `voters`, and a candidate that wins knows how many they are. */
  ghost predicate VotersFixed(s: System, voters: set<Id>, step: Step)
    requires step in Steps(s)
  {
    var n := s.nodes[Actor(step)];
    match step
    case Deliver(p, _) => Counts(n, p) ==> p.hdr.sender in voters
    case Win(_, _) => n.size >= |voters|
    case _ => true
  }

  /** No ACK arrives between the scheduling of an election and its start. */
  ghost predicate NoLateAck(s: System, step: Step)
    requires step in Steps(s)
  {
    step.Deliver? && Counts(s.nodes[step.p.to], step.p) ==> s.nodes[step.p.to].authSent
  }

  ghost predicate VotersFixedRun(s: System, voters: set<Id>, steps: seq<Step>)
    requires IsRun(s, steps)
    decreases steps
  {
    steps == [] || (VotersFixed(s, voters, steps[0]) && VotersFixedRun(Next(s, steps[0]), voters, steps[1..]))
  }

  ghost predicate NoLateAckRun(s: System, steps: seq<Step>)
    requires IsRun(s, steps)
    decreases steps
  {
    steps == [] || (NoLateAck(s, steps[0]) && NoLateAckRun(Next(s, steps[0]), steps[1..]))
  }

  // ---------------------------------------------------------------- the invariant

  /** The part of a node that elections use. */
  datatype Ballot = Ballot(lastVoteEpoch: nat, authEpoch: nat, authSent: bool, authCount: nat)

  function BallotOf(n: Node): Ballot { Ballot(n.lastVoteEpoch, n.authEpoch, n.authSent, n.authCount) }

  function Ballots(s: Nodes): map<Id, Ballot> { map i | i in s.nodes :: BallotOf(s.nodes[i]) }

  predicate Electoral(p: Packet) { p.body.AuthRequest? || p.body.AuthAck? }

  ghost predicate RequestsOk(b: map<Id, Ballot>, net: multiset<Packet>) {
    forall p :: p in net && p.body.AuthRequest? ==>
      p.hdr.sender in b && p.hdr.currentEpoch <= b[p.hdr.sender].authEpoch
  }

  /** An ACK carries the epoch of the vote it stands for. */
  predicate AckOk(b: map<Id, Ballot>, h: History, p: Packet) {
    && VotedFor(h, p.hdr.sender, p.hdr.currentEpoch, p.to)
    && p.to in b && p.hdr.currentEpoch <= b[p.to].authEpoch
  }

  predicate SameVote(p: Packet, q: Packet) {
    p.body.AuthAck? && q.body.AuthAck? && p.hdr.sender == q.hdr.sender && p.hdr.currentEpoch == q.hdr.currentEpoch
  }

  /** Each vote has one ACK at most. */
  ghost predicate AcksOnce(net: multiset<Packet>) {
    && (forall p :: p in net && p.body.AuthAck? ==> net[p] == 1)
    && (forall p, q :: p in net && q in net && SameVote(p, q) ==> p == q)
  }

  ghost predicate AcksOk(b: map<Id, Ballot>, net: multiset<Packet>, h: History) {
    forall p :: p in net && p.body.AuthAck? ==> AckOk(b, h, p)
  }

  /** Candidate c counted votes of its own epoch, and the late ACKs. */
  ghost predicate TallyFor(b: Ballot, h: History, voters: set<Id>, c: Id) {
    && b.authCount == |Counted(h, c)| + Late(h, c)
    && Counted(h, c) <= voters
    && (!b.authSent ==> Counted(h, c) == {})
    && (forall v :: v in Counted(h, c) ==> VotedFor(h, v, b.authEpoch, c))
  }

  ghost predicate TallyOk(b: map<Id, Ballot>, h: History, voters: set<Id>) {
    forall c :: c in b ==> TallyFor(b[c], h, voters, c)
  }

  /** The ACK of a counted vote is gone. */
  ghost predicate AcksFresh(b: map<Id, Ballot>, net: multiset<Packet>, h: History) {
    forall p :: p in net && p.body.AuthAck? && p.to in b && p.hdr.currentEpoch == b[p.to].authEpoch ==>
      p.hdr.sender !in Counted(h, p.to)
  }

  ghost predicate VotesOk(b: map<Id, Ballot>, h: History) {
    forall v: Id, e: nat :: (v, e) in h.votes ==> v in b && e <= b[v].lastVoteEpoch
  }

  predicate VotedFor(h: History, v: Id, e: nat, c: Id) { (v, e) in h.votes && h.votes[(v, e)] == c }

  /** The count of a winner is the votes it has in its epoch and the late ACKs. */
  ghost predicate Accounted(h: History, voters: set<Id>, w: Victory) {
    && w.voters <= voters && (forall v :: v in w.voters ==> VotedFor(h, v, w.epoch, w.winner))
    && w.count == |w.voters| + w.late && w.count >= w.size / 2 + 1 && w.size >= |voters|
  }

  /** The winner of an election has the votes of a majority in its epoch. */
  ghost predicate MajorityWon(h: History, voters: set<Id>, w: Victory) {
    w.voters <= voters && 2 * |w.voters| > |voters| && forall v :: v in w.voters ==> VotedFor(h, v, w.epoch, w.winner)
  }

  /** The part of a system, and of its past, that elections use. */
  datatype Poll = Poll(b: map<Id, Ballot>, net: multiset<Packet>, h: History)

  ghost function PollOf(s: System, h: History): Poll { Poll(Ballots(s), s.net, h) }

  ghost predicate ElectionsOk(p: Poll, voters: set<Id>) {
    && RequestsOk(p.b, p.net)
    && AcksOnce(p.net)
    && AcksOk(p.b, p.net, p.h)
    && AcksFresh(p.b, p.net, p.h)
    && TallyOk(p.b, p.h, voters)
    && VotesOk(p.b, p.h)
    && forall w :: w in p.h.wins ==> Accounted(p.h, voters, w)
  }

  ghost function Sound(voters: set<Id>): iset<Poll> { iset p: Poll | ElectionsOk(p, voters) }

  ghost predicate AllAccounted(h: History, voters: set<Id>) {
    forall w :: w in h.wins ==> Accounted(h, voters, w)
  }

  lemma Parts(p: Poll, voters: set<Id>)
    ensures p in Sound(voters) <==>
      && RequestsOk(p.b, p.net) && AcksOnce(p.net) && AcksOk(p.b, p.net, p.h) && AcksFresh(p.b, p.net, p.h)
      && TallyOk(p.b, p.h, voters) && VotesOk(p.b, p.h) && AllAccounted(p.h, voters)
  {
    hide RequestsOk, AcksOnce, AcksOk, AcksFresh, TallyOk, VotesOk, Accounted;
  }

  // ---------------------------------------------------------------- each kind of step keeps it

  lemma QuietStep(p: Poll, net': multiset<Packet>, voters: set<Id>)
    requires p in Sound(voters)
    requires forall q :: Electoral(q) ==> net'[q] <= p.net[q]
    ensures p.(net := net') in Sound(voters)
  {
    assert forall q :: q in net' && Electoral(q) ==> q in p.net;
  }

  function AfterVote(p: Poll, v: Id, request: Packet, ack: Packet): Poll
    requires v in p.b
  {
    Poll(p.b[v := p.b[v].(lastVoteEpoch := ack.hdr.currentEpoch)],
         p.net - multiset{request} + multiset{ack},
         p.h.(votes := p.h.votes[(v, ack.hdr.currentEpoch) := ack.to]))
  }

  /** `h'` has every vote of `h`, and the rest of it. */
  ghost predicate MoreVotes(h: History, h': History) {
    && h'.counted == h.counted && h'.late == h.late && h'.wins == h.wins
    && forall x: Id, f: nat, c: Id :: VotedFor(h, x, f, c) ==> VotedFor(h', x, f, c)
  }

  lemma MoreVotesTally(b: map<Id, Ballot>, v: Id, e: nat, h: History, h': History, voters: set<Id>)
    requires TallyOk(b, h, voters) && MoreVotes(h, h') && v in b
    ensures TallyOk(b[v := b[v].(lastVoteEpoch := e)], h', voters)
  {
    var b' := b[v := b[v].(lastVoteEpoch := e)];
    forall c | c in b' ensures TallyFor(b'[c], h', voters, c) {
      assert TallyFor(b[c], h, voters, c);
    }
  }

  lemma MoreVotesWon(h: History, h': History, voters: set<Id>, w: Victory)
    requires Accounted(h, voters, w) && MoreVotes(h, h')
    ensures Accounted(h', voters, w)
  {
  }

  lemma VoteIsFresh(p: Poll, voters: set<Id>, v: Id, ack: Packet)
    requires AcksOk(p.b, p.net, p.h) && VotesOk(p.b, p.h) && TallyOk(p.b, p.h, voters)
    requires v in p.b && ack.hdr.currentEpoch > p.b[v].lastVoteEpoch && ack.hdr.sender == v
    ensures (v, ack.hdr.currentEpoch) !in p.h.votes
    ensures forall q :: q in p.net && q.body.AuthAck? ==> !SameVote(q, ack)
    ensures ack.to in p.b && v in Counted(p.h, ack.to) ==> p.b[ack.to].authEpoch != ack.hdr.currentEpoch
  {
    forall q | q in p.net && q.body.AuthAck? ensures !SameVote(q, ack) {
      assert AckOk(p.b, p.h, q);
    }
    if ack.to in p.b {
      assert TallyFor(p.b[ack.to], p.h, voters, ack.to);
    }
  }

  /** What the vote does to packets and votes. */
  lemma VotePackets(p: Poll, v: Id, request: Packet, ack: Packet)
    requires RequestsOk(p.b, p.net) && AcksOk(p.b, p.net, p.h) && VotesOk(p.b, p.h) && v in p.b
    requires request in p.net && request.body.AuthRequest? && ack.body.AuthAck? && ack.hdr.sender == v
    requires ack.to == request.hdr.sender && ack.hdr.currentEpoch == request.hdr.currentEpoch > p.b[v].lastVoteEpoch
    requires (v, ack.hdr.currentEpoch) !in p.h.votes
    ensures var p' := AfterVote(p, v, request, ack);
      RequestsOk(p'.b, p'.net) && AcksOk(p'.b, p'.net, p'.h) && VotesOk(p'.b, p'.h) && MoreVotes(p.h, p'.h)
  {
    var p' := AfterVote(p, v, request, ack);
    assert VotedFor(p'.h, v, ack.hdr.currentEpoch, ack.to);
    forall q | q in p'.net && q.body.AuthAck? ensures AckOk(p'.b, p'.h, q) {
      if q != ack {
        assert AckOk(p.b, p.h, q);
      }
    }
  }

  lemma VoteFresh(p: Poll, v: Id, request: Packet, ack: Packet)
    requires AcksFresh(p.b, p.net, p.h) && v in p.b && ack.hdr.sender == v
    requires ack.to in p.b && v in Counted(p.h, ack.to) ==> p.b[ack.to].authEpoch != ack.hdr.currentEpoch
    ensures var p' := AfterVote(p, v, request, ack); AcksFresh(p'.b, p'.net, p'.h)
  {
  }

  lemma MoreVotesAll(h: History, h': History, voters: set<Id>)
    requires AllAccounted(h, voters) && MoreVotes(h, h')
    ensures AllAccounted(h', voters)
  {
    hide Accounted;
    forall w | w in h'.wins ensures Accounted(h', voters, w) {
      MoreVotesWon(h, h', voters, w);
    }
  }

  lemma VoteIs(p: Poll, v: Id, request: Packet, ack: Packet)
    requires v in p.b
    ensures AfterVote(p, v, request, ack).b == p.b[v := p.b[v].(lastVoteEpoch := ack.hdr.currentEpoch)]
    ensures AfterVote(p, v, request, ack).net == p.net - multiset{request} + multiset{ack}
  {
  }

  /** Master v votes for c: the ACK carries the epoch of the request. */
  lemma VoteStep(p: Poll, voters: set<Id>, v: Id, request: Packet, ack: Packet)
    requires p in Sound(voters)
    requires request in p.net && request.body.AuthRequest? && v in p.b
    requires ack.body.AuthAck? && ack.hdr.sender == v && ack.to == request.hdr.sender
    requires ack.hdr.currentEpoch == request.hdr.currentEpoch > p.b[v].lastVoteEpoch
    ensures AfterVote(p, v, request, ack) in Sound(voters)
  {
    hide *;
    var p' := AfterVote(p, v, request, ack);
    Parts(p, voters);
    VoteIsFresh(p, voters, v, ack);
    NewAck(p.net, request, ack);
    VoteIs(p, v, request, ack);
    VotePackets(p, v, request, ack);
    VoteFresh(p, v, request, ack);
    MoreVotesTally(p.b, v, ack.hdr.currentEpoch, p.h, p'.h, voters);
    MoreVotesAll(p.h, p'.h, voters);
    Parts(p', voters);
  }

  /** A new ACK, of a vote no ACK in flight stands for, in place of a request. */
  lemma NewAck(net: multiset<Packet>, request: Packet, ack: Packet)
    requires AcksOnce(net) && ack.body.AuthAck? && request.body.AuthRequest?
    requires forall p :: p in net && p.body.AuthAck? ==> !SameVote(p, ack)
    ensures AcksOnce(net - multiset{request} + multiset{ack})
  {
    assert SameVote(ack, ack);
    assert forall p, q :: SameVote(p, q) ==> SameVote(q, p);
  }

  function AfterCount(p: Poll, c: Id, ack: Packet): Poll
    requires c in p.b
  {
    Poll(p.b[c := p.b[c].(authCount := p.b[c].authCount + 1)],
         p.net - multiset{ack},
         WithAck(p.h, c, p.b[c].authSent, ack.hdr.sender))
  }

  /** What one more ACK leaves alone. */
  lemma CountPackets(p: Poll, voters: set<Id>, c: Id, ack: Packet)
    requires RequestsOk(p.b, p.net) && AcksOnce(p.net) && AcksOk(p.b, p.net, p.h) && VotesOk(p.b, p.h) && c in p.b
    ensures var p' := AfterCount(p, c, ack);
      RequestsOk(p'.b, p'.net) && AcksOnce(p'.net) && AcksOk(p'.b, p'.net, p'.h) && VotesOk(p'.b, p'.h)
  {
    var p' := AfterCount(p, c, ack);
    assert forall q :: q in p'.net ==> q in p.net && p'.net[q] <= p.net[q];
    SameVotes(p.h, p'.h);
    hide VotedFor;
    forall q | q in p'.net && q.body.AuthAck? ensures AckOk(p'.b, p'.h, q) {
      assert AckOk(p.b, p.h, q);
    }
  }

  lemma SameVotes(h: History, h': History)
    requires h'.votes == h.votes
    ensures forall v: Id, e: nat, c: Id :: VotedFor(h', v, e, c) == VotedFor(h, v, e, c)
  {
  }

  lemma SameVotesWon(h: History, h': History, voters: set<Id>)
    requires h'.votes == h.votes && h'.wins == h.wins && AllAccounted(h, voters)
    ensures AllAccounted(h', voters)
  {
    SameVotes(h, h');
    hide VotedFor;
    forall w | w in h'.wins ensures Accounted(h', voters, w) {
      assert Accounted(h, voters, w);
    }
  }

  lemma CountTally(p: Poll, voters: set<Id>, c: Id, ack: Packet)
    requires TallyOk(p.b, p.h, voters) && c in p.b && p.b[c].authSent && AckOk(p.b, p.h, ack) && ack.to == c
    requires ack.hdr.currentEpoch == p.b[c].authEpoch && ack.hdr.sender in voters && ack.hdr.sender !in Counted(p.h, c)
    ensures TallyOk(AfterCount(p, c, ack).b, AfterCount(p, c, ack).h, voters)
  {
    var p' := AfterCount(p, c, ack);
    forall i | i in p'.b ensures TallyFor(p'.b[i], p'.h, voters, i) {
      assert TallyFor(p.b[i], p.h, voters, i);
      assert forall v :: VotedFor(p.h, v, p.b[i].authEpoch, i) ==> VotedFor(p'.h, v, p.b[i].authEpoch, i);
    }
  }

  lemma CountFresh(p: Poll, c: Id, ack: Packet)
    requires AcksFresh(p.b, p.net, p.h) && AcksOnce(p.net) && c in p.b && p.b[c].authSent
    requires ack in p.net && ack.body.AuthAck? && ack.to == c && ack.hdr.currentEpoch == p.b[c].authEpoch
    ensures var p' := AfterCount(p, c, ack); AcksFresh(p'.b, p'.net, p'.h)
  {
    var p' := AfterCount(p, c, ack);
    forall q | q in p'.net && q.body.AuthAck? && q.to in p'.b && q.hdr.currentEpoch == p'.b[q.to].authEpoch
      ensures q.hdr.sender !in Counted(p'.h, q.to)
    {
      assert q in p.net && q != ack;
      assert !SameVote(q, ack);
    }
  }

  lemma CountIs(p: Poll, c: Id, ack: Packet)
    requires c in p.b
    ensures AfterCount(p, c, ack).h.votes == p.h.votes && AfterCount(p, c, ack).h.wins == p.h.wins
  {
  }

  lemma AckIs(b: map<Id, Ballot>, net: multiset<Packet>, h: History, p: Packet)
    requires AcksOk(b, net, h) && p in net && p.body.AuthAck?
    ensures AckOk(b, h, p) && p.to in b && p.hdr.currentEpoch <= b[p.to].authEpoch
  {
  }

  lemma NotCountedYet(b: map<Id, Ballot>, net: multiset<Packet>, h: History, p: Packet)
    requires AcksFresh(b, net, h) && p in net && p.body.AuthAck? && p.to in b && p.hdr.currentEpoch == b[p.to].authEpoch
    ensures p.hdr.sender !in Counted(h, p.to)
  {
  }

  /** Candidate c counts an ACK of its own epoch. */
  lemma CountStep(p: Poll, voters: set<Id>, c: Id, ack: Packet)
    requires p in Sound(voters)
    requires ack in p.net && ack.body.AuthAck? && ack.to == c && c in p.b && p.b[c].authSent
    requires ack.hdr.currentEpoch >= p.b[c].authEpoch && ack.hdr.sender in voters
    ensures AfterCount(p, c, ack) in Sound(voters)
  {
    hide *;
    var p' := AfterCount(p, c, ack);
    Parts(p, voters);
    AckIs(p.b, p.net, p.h, ack);
    NotCountedYet(p.b, p.net, p.h, ack);
    CountPackets(p, voters, c, ack);
    CountTally(p, voters, c, ack);
    CountFresh(p, c, ack);
    CountIs(p, c, ack);
    SameVotesWon(p.h, p'.h, voters);
    Parts(p', voters);
  }

  lemma LateTally(p: Poll, voters: set<Id>, c: Id, ack: Packet)
    requires TallyOk(p.b, p.h, voters) && AcksFresh(p.b, p.net, p.h) && c in p.b && !p.b[c].authSent
    ensures var p' := AfterCount(p, c, ack); TallyOk(p'.b, p'.h, voters) && AcksFresh(p'.b, p'.net, p'.h)
  {
    var p' := AfterCount(p, c, ack);
    assert forall q :: q in p'.net ==> q in p.net;
    forall i | i in p'.b ensures TallyFor(p'.b[i], p'.h, voters, i) {
      assert TallyFor(p.b[i], p.h, voters, i);
    }
  }

  /** An ACK counted before the election is started adds to the count and to nothing else. */
  lemma LateStep(p: Poll, voters: set<Id>, c: Id, ack: Packet)
    requires p in Sound(voters)
    requires ack in p.net && ack.body.AuthAck? && ack.to == c && c in p.b && !p.b[c].authSent
    ensures AfterCount(p, c, ack) in Sound(voters)
  {
    hide *;
    var p' := AfterCount(p, c, ack);
    Parts(p, voters);
    CountPackets(p, voters, c, ack);
    LateTally(p, voters, c, ack);
    CountIs(p, c, ack);
    SameVotesWon(p.h, p'.h, voters);
    Parts(p', voters);
  }

  function AfterSchedule(p: Poll, c: Id): Poll
    requires c in p.b
  {
    p.(b := p.b[c := p.b[c].(authCount := 0, authSent := false)],
       h := p.h.(counted := p.h.counted[c := {}], late := p.h.late[c := 0]))
  }

  lemma ScheduleStep(p: Poll, voters: set<Id>, c: Id)
    requires p in Sound(voters) && c in p.b
    ensures AfterSchedule(p, c) in Sound(voters)
  {
    hide *;
    var p' := AfterSchedule(p, c);
    Parts(p, voters);
    ScheduleTally(p, voters, c);
    SchedulePackets(p, c);
    SameVotesWon(p.h, p'.h, voters);
    Parts(p', voters);
  }

  lemma SchedulePackets(p: Poll, c: Id)
    requires RequestsOk(p.b, p.net) && AcksOnce(p.net) && AcksOk(p.b, p.net, p.h) && AcksFresh(p.b, p.net, p.h)
    requires VotesOk(p.b, p.h) && c in p.b
    ensures var p' := AfterSchedule(p, c);
      && RequestsOk(p'.b, p'.net) && AcksOnce(p'.net) && AcksOk(p'.b, p'.net, p'.h) && AcksFresh(p'.b, p'.net, p'.h)
      && VotesOk(p'.b, p'.h) && p'.h.votes == p.h.votes && p'.h.wins == p.h.wins
  {
    var p' := AfterSchedule(p, c);
    SameVotes(p.h, p'.h);
    hide VotedFor;
    forall q | q in p'.net && q.body.AuthAck? ensures AckOk(p'.b, p'.h, q) {
      assert AckOk(p.b, p.h, q);
    }
  }

  lemma ScheduleTally(p: Poll, voters: set<Id>, c: Id)
    requires TallyOk(p.b, p.h, voters) && c in p.b
    ensures TallyOk(AfterSchedule(p, c).b, AfterSchedule(p, c).h, voters)
  {
    var p' := AfterSchedule(p, c);
    forall i | i in p'.b ensures TallyFor(p'.b[i], p'.h, voters, i) {
      assert TallyFor(p.b[i], p.h, voters, i);
    }
  }

  function AfterStart(p: Poll, c: Id, e: nat, requests: multiset<Packet>): Poll
    requires c in p.b
  {
    p.(b := p.b[c := p.b[c].(authEpoch := e, authSent := true)], net := p.net + requests)
  }

  lemma StartStep(p: Poll, voters: set<Id>, c: Id, e: nat, requests: multiset<Packet>)
    requires p in Sound(voters) && c in p.b && !p.b[c].authSent && e > p.b[c].authEpoch
    requires forall q :: q in requests ==> q.body.AuthRequest? && q.hdr.sender == c && q.hdr.currentEpoch == e
    ensures AfterStart(p, c, e, requests) in Sound(voters)
  {
    assert forall q :: q in p.net + requests && q.body.AuthAck? ==> q in p.net && (p.net + requests)[q] == p.net[q];
  }

  function AfterWin(p: Poll, c: Id, size: nat): Poll
    requires c in p.b
  {
    p.(h := p.h.(wins := p.h.wins +
                         {Victory(p.b[c].authEpoch, c, Counted(p.h, c), p.b[c].authCount, Late(p.h, c), size)}))
  }

  lemma WinStep(p: Poll, voters: set<Id>, c: Id, size: nat)
    requires p in Sound(voters) && c in p.b && p.b[c].authCount >= size / 2 + 1 && size >= |voters|
    ensures AfterWin(p, c, size) in Sound(voters)
  {
    var p' := AfterWin(p, c, size);
    assert TallyFor(p.b[c], p.h, voters, c);
    forall w | w in p'.h.wins ensures Accounted(p'.h, voters, w) {
      if w in p.h.wins {
        assert Accounted(p.h, voters, w);
      }
    }
    forall i | i in p'.b ensures TallyFor(p'.b[i], p'.h, voters, i) {
      assert TallyFor(p.b[i], p.h, voters, i);
    }
  }

  // ---------------------------------------------------------------- every step of a system is one of them

  lemma SendsNoBallot(n: Node, p: Packet, timely: bool)
    requires p.hdr.sender != n.id && !Votes(n, p, timely)
    ensures forall q :: q in Receive(n, p, timely).1 ==> !Electoral(q)
  {
  }

  lemma ReceiveBallot(n: Node, p: Packet, timely: bool)
    requires p.hdr.sender != n.id && PacketBounded(p) && !Votes(n, p, timely)
    ensures var r := Receive(n, p, timely).0;
      BallotOf(r) == BallotOf(if Counts(n, p) then n.(authCount := n.authCount + 1) else n)
  {
    ReceiveKeeps(n, p, timely);
  }

  lemma ReceiveVote(n: Node, p: Packet, timely: bool)
    requires p.hdr.sender != n.id && PacketBounded(p) && NodeBounded(n) && Votes(n, p, timely)
    ensures p.hdr.currentEpoch > n.lastVoteEpoch
    ensures var r := Receive(n, p, timely);
      && BallotOf(r.0) == BallotOf(n).(lastVoteEpoch := p.hdr.currentEpoch)
      && |r.1| == 1 && r.1[0].body == AuthAck && r.1[0].to == p.hdr.sender
      && r.1[0].hdr.sender == n.id && r.1[0].hdr.currentEpoch == p.hdr.currentEpoch
  {
  }

  lemma OwnBallot(n: Node, step: Step)
    requires step in Moves(n) && !step.Deliver?
    ensures BallotOf(NodeAfter(n, step)) == match step
      case Schedule(_, _) => BallotOf(n).(authCount := 0, authSent := false)
      case Start(_, _, _) => BallotOf(n).(authEpoch := n.currentEpoch + 1, authSent := true)
      case _ => BallotOf(n)
  {
  }

  lemma SetBallot(s: System, i: Id, n: Node, net: multiset<Packet>)
    requires i in s.nodes
    ensures Ballots(Nodes(s.nodes[i := n], net)) == Ballots(s)[i := BallotOf(n)]
    ensures n == s.nodes[i] ==> Ballots(Nodes(s.nodes[i := n], net)) == Ballots(s)
  {
  }

  lemma NextBallots(s: System, step: Step, b: Ballot)
    requires step in Steps(s) && BallotOf(NodeAfter(s.nodes[Actor(step)], step)) == b
    ensures s.nodes[Actor(step)].id == Actor(step)
    ensures Ballots(Next(s, step)) == Ballots(s)[Actor(step) := b]
    ensures BallotOf(s.nodes[Actor(step)]) == b ==> Ballots(Next(s, step)) == Ballots(s)
  {
    var n := s.nodes[Actor(step)];
    SetBallot(s, n.id, NodeAfter(n, step), Next(s, step).net);
  }

  lemma VoteDelivery(s: System, p: Packet, timely: bool, h: History) returns (ack: Packet)
    requires Deliver(p, timely) in Steps(s) && Bounded(s) && Votes(s.nodes[p.to], p, timely)
    ensures p in s.net && p.body.AuthRequest?
    ensures ack.body.AuthAck? && ack.hdr.sender == p.to && ack.to == p.hdr.sender
    ensures ack.hdr.currentEpoch == p.hdr.currentEpoch > s.nodes[p.to].lastVoteEpoch
    ensures PollOf(Next(s, Deliver(p, timely)), Recorded(h, s, Deliver(p, timely))) ==
      AfterVote(PollOf(s, h), p.to, p, ack)
  {
    assert p in Taken(Deliver(p, timely));
    ReceiveVote(s.nodes[p.to], p, timely);
    NextBallots(s, Deliver(p, timely), BallotOf(s.nodes[p.to]).(lastVoteEpoch := p.hdr.currentEpoch));
    ack := Receive(s.nodes[p.to], p, timely).1[0];
    assert Receive(s.nodes[p.to], p, timely).1 == [ack];
  }

  lemma NetAlgebra(net: multiset<Packet>, taken: multiset<Packet>, sent: multiset<Packet>)
    ensures net - multiset{} + sent == net + sent
    ensures net - taken + multiset{} == net - taken
  {
  }

  lemma AckReply(n: Node, p: Packet, timely: bool)
    requires p.hdr.sender != n.id && p.body.AuthAck?
    ensures multiset(Receive(n, p, timely).1) == multiset{}
  {
  }

  lemma CountNet(s: System, p: Packet, timely: bool)
    requires Deliver(p, timely) in Steps(s) && p.body.AuthAck?
    ensures p in s.net && Next(s, Deliver(p, timely)).net == s.net - multiset{p}
  {
    assert p in Taken(Deliver(p, timely));
    AckReply(s.nodes[p.to], p, timely);
    NetAlgebra(s.net, multiset{p}, multiset{});
  }

  lemma CountBallot(s: System, p: Packet, timely: bool)
    requires Deliver(p, timely) in Steps(s) && Bounded(s) && Counts(s.nodes[p.to], p)
    ensures var n := s.nodes[p.to];
      Ballots(Next(s, Deliver(p, timely))) == Ballots(s)[p.to := BallotOf(n).(authCount := n.authCount + 1)]
  {
    assert p in Taken(Deliver(p, timely));
    ReceiveBallot(s.nodes[p.to], p, timely);
    NextBallots(s, Deliver(p, timely), BallotOf(s.nodes[p.to]).(authCount := s.nodes[p.to].authCount + 1));
  }

  lemma CountRecord(s: System, p: Packet, timely: bool, h: History)
    requires Deliver(p, timely) in Steps(s) && Counts(s.nodes[p.to], p)
    ensures p.body.AuthAck? && p.hdr.currentEpoch >= s.nodes[p.to].authEpoch
    ensures Recorded(h, s, Deliver(p, timely)) == WithAck(h, p.to, s.nodes[p.to].authSent, p.hdr.sender)
  {
  }

  lemma CountDelivery(s: System, p: Packet, timely: bool, h: History)
    requires Deliver(p, timely) in Steps(s) && Bounded(s) && Counts(s.nodes[p.to], p)
    ensures p in s.net && p.body.AuthAck? && p.hdr.currentEpoch >= s.nodes[p.to].authEpoch
    ensures PollOf(Next(s, Deliver(p, timely)), Recorded(h, s, Deliver(p, timely))) == AfterCount(PollOf(s, h), p.to, p)
  {
    CountRecord(s, p, timely, h);
    CountNet(s, p, timely);
    CountBallot(s, p, timely);
    CountPoll(s, Next(s, Deliver(p, timely)), h, p);
  }

  lemma CountPoll(s: System, s': System, h: History, p: Packet)
    requires p.to in s.nodes && s'.net == s.net - multiset{p}
    requires Ballots(s') == Ballots(s)[p.to := BallotOf(s.nodes[p.to]).(authCount := s.nodes[p.to].authCount + 1)]
    ensures PollOf(s', WithAck(h, p.to, s.nodes[p.to].authSent, p.hdr.sender)) == AfterCount(PollOf(s, h), p.to, p)
  {
    assert Ballots(s)[p.to] == BallotOf(s.nodes[p.to]);
  }

  lemma QuietDelivery(s: System, p: Packet, timely: bool, h: History)
    requires Deliver(p, timely) in Steps(s) && Bounded(s)
    requires !Votes(s.nodes[p.to], p, timely) && !Counts(s.nodes[p.to], p)
    ensures var s' := Next(s, Deliver(p, timely));
      && PollOf(s', Recorded(h, s, Deliver(p, timely))) == PollOf(s, h).(net := s'.net)
      && forall q :: Electoral(q) ==> s'.net[q] <= s.net[q]
  {
    assert p in Taken(Deliver(p, timely));
    ReceiveBallot(s.nodes[p.to], p, timely);
    NextBallots(s, Deliver(p, timely), BallotOf(s.nodes[p.to]));
    SendsNoBallot(s.nodes[p.to], p, timely);
  }

  lemma DeliverElections(s: System, p: Packet, timely: bool, h: History, voters: set<Id>)
    requires Deliver(p, timely) in Steps(s) && Bounded(s) && VotersFixed(s, voters, Deliver(p, timely))
    requires PollOf(s, h) in Sound(voters)
    ensures PollOf(Next(s, Deliver(p, timely)), Recorded(h, s, Deliver(p, timely))) in Sound(voters)
  {
    if Votes(s.nodes[p.to], p, timely) {
      var ack := VoteDelivery(s, p, timely, h);
      VoteStep(PollOf(s, h), voters, p.to, p, ack);
    } else if Counts(s.nodes[p.to], p) {
      CountDelivery(s, p, timely, h);
      assert Ballots(s)[p.to] == BallotOf(s.nodes[p.to]);
      if s.nodes[p.to].authSent {
        CountStep(PollOf(s, h), voters, p.to, p);
      } else {
        LateStep(PollOf(s, h), voters, p.to, p);
      }
    } else {
      QuietDelivery(s, p, timely, h);
      QuietStep(PollOf(s, h), Next(s, Deliver(p, timely)).net, voters);
    }
  }

  lemma StartNet(s: System, step: Step)
    requires step in Steps(s) && step.Start?
    ensures Next(s, step).net == s.net + Sent(s.nodes[step.i], step)
  {
    NetAlgebra(s.net, multiset{}, Sent(s.nodes[step.i], step));
  }

  lemma StartBallot(s: System, step: Step, b: Ballot)
    requires step in Steps(s) && step.Start? && BallotOf(NodeAfter(s.nodes[step.i], step)) == b
    ensures Ballots(Next(s, step)) == Ballots(s)[step.i := b]
  {
    NextBallots(s, step, b);
  }

  lemma StartRequests(n: Node, step: Step)
    requires step in Moves(n) && step.Start?
    ensures forall q :: q in Sent(n, step) ==>
      q.body.AuthRequest? && q.hdr.sender == n.id && q.hdr.currentEpoch == n.currentEpoch + 1
  {
  }

  lemma MoveOf(s: System, step: Step)
    requires step in Steps(s)
    ensures Actor(step) in s.nodes && step in Moves(s.nodes[Actor(step)])
    ensures s.nodes[Actor(step)].id == Actor(step)
  {
  }

  lemma StartsAt(step: Step)
    requires step.Start?
    ensures Actor(step) == step.i
  {
  }

  lemma StartedNode(s: System, step: Step, h: History)
    requires step in Steps(s) && step.Start?
    ensures step.i in s.nodes && step.i in Ballots(s) && Recorded(h, s, step) == h
    ensures Ballots(s)[step.i] == BallotOf(s.nodes[step.i])
    ensures BallotOf(NodeAfter(s.nodes[step.i], step)) ==
      Ballots(s)[step.i].(authEpoch := s.nodes[step.i].currentEpoch + 1, authSent := true)
  {
    OwnBallot(s.nodes[step.i], step);
  }

  lemma PollIs(s: System, h: History)
    ensures PollOf(s, h) == Poll(Ballots(s), s.net, h)
  {
  }

  lemma StartPoll(s: System, step: Step, h: History)
    requires step in Steps(s) && step.Start?
    ensures step.i in s.nodes && step.i in PollOf(s, h).b
    ensures var n := s.nodes[step.i];
      PollOf(Next(s, step), Recorded(h, s, step)) == AfterStart(PollOf(s, h), step.i, n.currentEpoch + 1, Sent(n, step))
  {
    hide *;
    StartsAt(step);
    MoveOf(s, step);
    StartedNode(s, step, h);
    StartBallot(s, step, Ballots(s)[step.i].(authEpoch := s.nodes[step.i].currentEpoch + 1, authSent := true));
    StartNet(s, step);
    PollIs(s, h);
    PollIs(Next(s, step), h);
    Restarted(PollOf(s, h), step.i, s.nodes[step.i].currentEpoch + 1, Sent(s.nodes[step.i], step));
  }

  lemma Restarted(p: Poll, c: Id, e: nat, requests: multiset<Packet>)
    requires c in p.b
    ensures AfterStart(p, c, e, requests) ==
      Poll(p.b[c := p.b[c].(authEpoch := e, authSent := true)], p.net + requests, p.h)
  {
  }

  lemma StartElections(s: System, step: Step, h: History, voters: set<Id>)
    requires step in Steps(s) && Bounded(s) && step.Start?
    requires PollOf(s, h) in Sound(voters)
    ensures PollOf(Next(s, step), Recorded(h, s, step)) in Sound(voters)
  {
    var n := s.nodes[step.i];
    StartPoll(s, step, h);
    StartRequests(n, step);
    assert NodeBounded(n);
    StartStep(PollOf(s, h), voters, step.i, n.currentEpoch + 1, Sent(n, step));
  }

  lemma OtherPoll(s: System, step: Step, h: History)
    requires step in Steps(s) && !step.Deliver? && !step.Start?
    ensures var p' := PollOf(s, h).(net := Next(s, step).net);
      PollOf(Next(s, step), Recorded(h, s, step)) ==
        if step.Schedule? then AfterSchedule(p', step.i)
        else if step.Win? then AfterWin(p', step.i, s.nodes[step.i].size) else p'
  {
    var n := s.nodes[Actor(step)];
    OwnBallot(n, step);
    NextBallots(s, step, if step.Schedule? then BallotOf(n).(authCount := 0, authSent := false) else BallotOf(n));
  }

  lemma OtherNet(s: System, step: Step)
    requires step in Steps(s) && !step.Deliver? && !step.Start?
    ensures forall q :: Electoral(q) ==> Next(s, step).net[q] <= s.net[q]
  {
  }

  lemma OtherElections(s: System, step: Step, h: History, voters: set<Id>)
    requires step in Steps(s) && VotersFixed(s, voters, step) && !step.Deliver? && !step.Start?
    requires PollOf(s, h) in Sound(voters)
    ensures PollOf(Next(s, step), Recorded(h, s, step)) in Sound(voters)
  {
    OtherNet(s, step);
    OtherPoll(s, step, h);
    QuietStep(PollOf(s, h), Next(s, step).net, voters);
    var p' := PollOf(s, h).(net := Next(s, step).net);
    if step.Schedule? {
      ScheduleStep(p', voters, step.i);
    } else if step.Win? {
      WinStep(p', voters, step.i, s.nodes[step.i].size);
    }
  }

  lemma StepElections(s: System, step: Step, h: History, voters: set<Id>)
    requires step in Steps(s) && Bounded(s) && VotersFixed(s, voters, step)
    requires PollOf(s, h) in Sound(voters)
    ensures PollOf(Next(s, step), Recorded(h, s, step)) in Sound(voters)
  {
    match step
    case Deliver(p, timely) => DeliverElections(s, p, timely, h, voters);
    case Start(_, _, _) => StartElections(s, step, h, voters);
    case _ => OtherElections(s, step, h, voters);
  }

  // ---------------------------------------------------------------- runs

  /** No election is under way. */
  ghost predicate NoElections(s: System) {
    && (forall i :: i in s.nodes ==> !s.nodes[i].authSent && s.nodes[i].authCount == 0)
    && (forall p :: p in s.net ==> !Electoral(p))
  }

  lemma {:induction false} RunElections(s: System, steps: seq<Step>, h: History, voters: set<Id>)
    requires IsRun(s, steps) && Bounded(s) && VotersFixedRun(s, voters, steps)
    requires PollOf(s, h) in Sound(voters)
    ensures forall w :: w in HistoryOf(h, s, steps).wins ==> Accounted(HistoryOf(h, s, steps), voters, w)
    decreases steps
  {
    if steps != [] {
      StepBounded(s, steps[0]);
      StepElections(s, steps[0], h, voters);
      RunElections(Next(s, steps[0]), steps[1..], Recorded(h, s, steps[0]), voters);
    }
  }

  /** Nothing late was counted. */
  ghost predicate NoneLate(h: History) {
    (forall i :: i in h.late ==> h.late[i] == 0) && forall w :: w in h.wins ==> w.late == 0
  }

  lemma {:induction false} RunNoneLate(s: System, steps: seq<Step>, h: History)
    requires IsRun(s, steps) && NoLateAckRun(s, steps) && NoneLate(h)
    ensures NoneLate(HistoryOf(h, s, steps))
    decreases steps
  {
    if steps != [] {
      StepNoneLate(s, steps[0], h);
      RunNoneLate(Next(s, steps[0]), steps[1..], Recorded(h, s, steps[0]));
    }
  }

  lemma StepNoneLate(s: System, step: Step, h: History)
    requires step in Steps(s) && NoLateAck(s, step) && NoneLate(h)
    ensures NoneLate(Recorded(h, s, step))
  {
  }

  lemma MajoritiesMeet(a: set<Id>, b: set<Id>, all: set<Id>) returns (x: Id)
    requires a <= all && b <= all && 2 * |a| > |all| && 2 * |b| > |all|
    ensures x in a && x in b
  {
    SubsetSize(a + b, all);
    x :| x in a * b;
  }

  lemma NoElectionsSound(s: System, voters: set<Id>)
    requires NoElections(s)
    ensures PollOf(s, NOTHING) in Sound(voters)
  {
  }

  lemma MajorityCounted(h: History, voters: set<Id>, w: Victory)
    requires Accounted(h, voters, w)
    ensures MajorityWon(h, voters, w) <==> w.count - w.late >= |voters| / 2 + 1
    ensures w.late == 0 ==> MajorityWon(h, voters, w)
  {
  }

  lemma OneWinner(h: History, voters: set<Id>, v: Victory, w: Victory)
    requires MajorityWon(h, voters, v) && MajorityWon(h, voters, w) && v.epoch == w.epoch
    ensures v.winner == w.winner
  {
    var x := MajoritiesMeet(v.voters, w.voters, voters);
    assert VotedFor(h, x, v.epoch, v.winner);
  }

  /** What an election is worth, over every run: the voters its winner counted after asking did vote for it in its
      epoch; it has the votes of a majority exactly when its count without the late ACKs reaches the quorum; and of
      the victories in one epoch that have, all are of the same slave. */
  lemma ElectionsExact(s: System, steps: seq<Step>, voters: set<Id>)
    requires IsRun(s, steps) && Bounded(s) && NoElections(s) && VotersFixedRun(s, voters, steps)
    ensures var h := HistoryOf(NOTHING, s, steps);
      && (forall w :: w in h.wins ==> Accounted(h, voters, w))
      && (forall w :: w in h.wins ==> (MajorityWon(h, voters, w) <==> w.count - w.late >= |voters| / 2 + 1))
      && (forall v, w :: v in h.wins && w in h.wins && v.epoch == w.epoch && v.winner != w.winner ==>
            v.count - v.late < |voters| / 2 + 1 || w.count - w.late < |voters| / 2 + 1)
  {
    NoElectionsSound(s, voters);
    RunElections(s, steps, NOTHING, voters);
    var h := HistoryOf(NOTHING, s, steps);
    hide *;
    forall w | w in h.wins ensures MajorityWon(h, voters, w) <==> w.count - w.late >= |voters| / 2 + 1 {
      MajorityCounted(h, voters, w);
    }
    forall v, w | v in h.wins && w in h.wins && v.epoch == w.epoch && v.winner != w.winner
      ensures v.count - v.late < |voters| / 2 + 1 || w.count - w.late < |voters| / 2 + 1
    {
      if MajorityWon(h, voters, v) && MajorityWon(h, voters, w) {
        OneWinner(h, voters, v, w);
      }
    }
  }

  /** Election safety: over every run in which no ACK is late, an election is won with the votes of a majority of the
      masters, and no two slaves win an election in the same epoch. */
  lemma ElectionSafety(s: System, steps: seq<Step>, voters: set<Id>)
    requires IsRun(s, steps) && Bounded(s) && NoElections(s) && VotersFixedRun(s, voters, steps)
    requires NoLateAckRun(s, steps)
    ensures var h := HistoryOf(NOTHING, s, steps);
      && (forall w :: w in h.wins ==> MajorityWon(h, voters, w))
      && (forall v, w :: v in h.wins && w in h.wins && v.epoch == w.epoch ==> v.winner == w.winner)
  {
    NoElectionsSound(s, voters);
    RunElections(s, steps, NOTHING, voters);
    RunNoneLate(s, steps, NOTHING);
    var h := HistoryOf(NOTHING, s, steps);
    assert forall w :: w in h.wins ==> w.late == 0;
    hide *;
    forall w | w in h.wins ensures MajorityWon(h, voters, w) {
      MajorityCounted(h, voters, w);
    }
    forall v, w | v in h.wins && w in h.wins && v.epoch == w.epoch ensures v.winner == w.winner {
      OneWinner(h, voters, v, w);
    }
  }
}
