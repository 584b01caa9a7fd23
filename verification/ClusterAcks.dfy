/** The election an ACK is counted in. */
module ClusterAcks {
  import opened ClusterNode
  import opened ClusterSystem
  import opened ClusterElection

  /** No request and no ACK is ahead of the candidate it is from or for. */
  ghost predicate InOrder(b: map<Id, Ballot>, net: multiset<Packet>) {
    && RequestsOk(b, net)
    && forall p :: p in net && p.body.AuthAck? ==> p.to in b && p.hdr.currentEpoch <= b[p.to].authEpoch
  }

  ghost function Ordered(): iset<Poll> { iset p: Poll | InOrder(p.b, p.net) }

  lemma FewerInOrder(p: Poll, net': multiset<Packet>)
    requires p in Ordered() && forall q :: Electoral(q) ==> net'[q] <= p.net[q]
    ensures p.(net := net') in Ordered()
  {
    assert forall q :: q in net' && Electoral(q) ==> q in p.net;
  }

  lemma VoteInOrder(p: Poll, v: Id, request: Packet, ack: Packet)
    requires p in Ordered() && v in p.b && request in p.net && request.body.AuthRequest? && ack.body.AuthAck?
    requires ack.to == request.hdr.sender && ack.hdr.currentEpoch == request.hdr.currentEpoch
    ensures AfterVote(p, v, request, ack) in Ordered()
  {
  }

  lemma CountInOrder(p: Poll, c: Id, ack: Packet)
    requires p in Ordered() && c in p.b
    ensures AfterCount(p, c, ack) in Ordered()
  {
  }

  lemma StartInOrder(p: Poll, c: Id, e: nat, requests: multiset<Packet>)
    requires p in Ordered() && c in p.b && e > p.b[c].authEpoch
    requires forall q :: q in requests ==> q.body.AuthRequest? && q.hdr.sender == c && q.hdr.currentEpoch == e
    ensures AfterStart(p, c, e, requests) in Ordered()
  {
  }

  lemma OtherInOrder(p: Poll, c: Id, size: nat)
    requires p in Ordered() && c in p.b
    ensures AfterSchedule(p, c) in Ordered() && AfterWin(p, c, size) in Ordered()
  {
  }

  lemma DeliverInOrder(s: System, p: Packet, timely: bool, h: History)
    requires Deliver(p, timely) in Steps(s) && Bounded(s) && PollOf(s, h) in Ordered()
    ensures PollOf(Next(s, Deliver(p, timely)), Recorded(h, s, Deliver(p, timely))) in Ordered()
  {
    hide *;
    ActsHere(s, Deliver(p, timely), h);
    Target(p, timely);
    var n := s.nodes[p.to];
    if Votes(n, p, timely) {
      var ack := VoteDelivery(s, p, timely, h);
      PollParts(s, h);
      VoteInOrder(PollOf(s, h), p.to, p, ack);
    } else if Counts(n, p) {
      CountDelivery(s, p, timely, h);
      CountInOrder(PollOf(s, h), p.to, p);
    } else {
      QuietDelivery(s, p, timely, h);
      PollParts(s, h);
      FewerInOrder(PollOf(s, h), Next(s, Deliver(p, timely)).net);
    }
  }

  lemma Target(p: Packet, timely: bool)
    ensures Actor(Deliver(p, timely)) == p.to
  {
  }

  lemma PollParts(s: System, h: History)
    ensures PollOf(s, h).net == s.net
  {
  }

  lemma StartedInOrder(s: System, step: Step, h: History)
    requires step in Steps(s) && Bounded(s) && step.Start? && PollOf(s, h) in Ordered()
    ensures PollOf(Next(s, step), Recorded(h, s, step)) in Ordered()
  {
    hide *;
    ActsHere(s, step, h);
    MoveOf(s, step);
    StartsAt(step);
    var n := s.nodes[step.i];
    Fields(n);
    StartPoll(s, step, h);
    StartRequests(n, step);
    StartInOrder(PollOf(s, h), step.i, n.currentEpoch + 1, Sent(n, step));
  }

  lemma RestInOrder(s: System, step: Step, h: History)
    requires step in Steps(s) && Bounded(s) && !step.Deliver? && !step.Start? && PollOf(s, h) in Ordered()
    ensures PollOf(Next(s, step), Recorded(h, s, step)) in Ordered()
  {
    ActsHere(s, step, h);
    var i := Actor(step);
    OtherNet(s, step);
    OtherPoll(s, step, h);
    PollParts(s, h);
    assert (step.Schedule? || step.Win?) ==> i == step.i;
    hide *;
    FewerInOrder(PollOf(s, h), Next(s, step).net);
    OtherInOrder(PollOf(s, h).(net := Next(s, step).net), i, s.nodes[i].size);
  }

  lemma StepInOrder(s: System, step: Step, h: History)
    requires step in Steps(s) && Bounded(s) && PollOf(s, h) in Ordered()
    ensures PollOf(Next(s, step), Recorded(h, s, step)) in Ordered()
  {
    hide *;
    match step {
      case Deliver(p, timely) => DeliverInOrder(s, p, timely, h);
      case Start(_, _, _) => StartedInOrder(s, step, h);
      case _ => RestInOrder(s, step, h);
    }
  }

  lemma ActsHere(s: System, step: Step, h: History)
    requires step in Steps(s) && Bounded(s)
    ensures Actor(step) in s.nodes && Actor(step) in PollOf(s, h).b && NodeBounded(s.nodes[Actor(step)])
    ensures PollOf(s, h).b[Actor(step)] == BallotOf(s.nodes[Actor(step)])
    ensures s.nodes[Actor(step)].authEpoch <= s.nodes[Actor(step)].currentEpoch
  {
  }

  lemma {:induction false} RunInOrder(s: System, steps: seq<Step>, h: History)
    requires IsRun(s, steps) && Bounded(s) && PollOf(s, h) in Ordered()
    ensures Bounded(After(s, steps))
    ensures PollOf(After(s, steps), HistoryOf(h, s, steps)) in Ordered()
    decreases steps
  {
    if steps != [] {
      StepBounded(s, steps[0]);
      StepInOrder(s, steps[0], h);
      RunInOrder(Next(s, steps[0]), steps[1..], Recorded(h, s, steps[0]));
    }
  }

  /** What may become of the election of a candidate that does not schedule another. */
  ghost predicate GoesOn(a: Ballot, b: Ballot) {
    if a.authSent then b.authSent && b.authEpoch == a.authEpoch
    else b.authEpoch >= a.authEpoch && (b.authSent ==> b.authEpoch > a.authEpoch)
  }

  lemma PacketGoesOn(n: Node, p: Packet, timely: bool)
    requires p.hdr.sender != n.id && PacketBounded(p) && NodeBounded(n)
    ensures GoesOn(BallotOf(n), BallotOf(Receive(n, p, timely).0))
  {
    if Votes(n, p, timely) {
      ReceiveVote(n, p, timely);
    } else {
      ReceiveBallot(n, p, timely);
    }
    hide Receive, Votes, Counts;
  }

  lemma OwnGoesOn(n: Node, step: Step)
    requires step in Moves(n) && NodeBounded(n) && !step.Deliver? && !step.Schedule?
    ensures GoesOn(BallotOf(n), BallotOf(NodeAfter(n, step)))
  {
    OwnBallot(n, step);
    assert step.Start? ==> !n.authSent;
    hide NodeAfter, Moves;
  }

  lemma ActorMoves(s: System, step: Step)
    requires step in Steps(s) && Bounded(s)
    ensures var n := s.nodes[Actor(step)];
      && n.id == Actor(step) && NodeBounded(n) && Next(s, step).nodes == s.nodes[n.id := NodeAfter(n, step)]
      && step in Moves(n)
      && (step.Deliver? ==> PacketBounded(step.p) && step.p.hdr.sender != n.id
                            && NodeAfter(n, step) == Receive(n, step.p, step.timely).0)
      && (step.Schedule? ==> step.i == Actor(step))
  {
    assert step.Deliver? ==> step.p in Taken(step);
    hide Receive;
  }

  lemma StepGoesOn(s: System, step: Step, c: Id)
    requires step in Steps(s) && Bounded(s) && c in s.nodes && !(step.Schedule? && step.i == c)
    ensures c in Next(s, step).nodes && GoesOn(BallotOf(s.nodes[c]), BallotOf(Next(s, step).nodes[c]))
  {
    hide *;
    ActorMoves(s, step);
    GoesOnFrom(BallotOf(s.nodes[c]));
    if Actor(step) == c {
      if step.Deliver? {
        PacketGoesOn(s.nodes[c], step.p, step.timely);
      } else {
        OwnGoesOn(s.nodes[c], step);
      }
    }
  }

  lemma GoesOnFrom(a: Ballot)
    ensures GoesOn(a, a)
  {
  }

  lemma {:induction false} RunGoesOn(s: System, steps: seq<Step>, c: Id)
    requires IsRun(s, steps) && Bounded(s) && c in s.nodes
    requires forall k :: 0 <= k < |steps| ==> !(steps[k].Schedule? && steps[k].i == c)
    ensures GoesOn(BallotOf(s.nodes[c]), BallotOf(After(s, steps).nodes[c]))
    decreases steps
  {
    hide *;
    RunParts(s, steps);
    if steps == [] {
      GoesOnFrom(BallotOf(s.nodes[c]));
    } else {
      var s1 := Next(s, steps[0]);
      StepBounded(s, steps[0]);
      StepGoesOn(s, steps[0], c);
      RunGoesOn(s1, steps[1..], c);
      GoesOnTwice(BallotOf(s.nodes[c]), BallotOf(s1.nodes[c]), BallotOf(After(s, steps).nodes[c]));
    }
  }

  /** Over every run: an ACK a candidate counts goes into the election it was sent for if and only if the candidate had
      asked for votes when it counted it. Otherwise it goes into the next one. */
  lemma CountedInItsElection(s0: System, before: seq<Step>, p: Packet, timely: bool, later: seq<Step>, manual: bool)
    requires IsRun(s0, before) && Bounded(s0) && NoElections(s0)
    requires var s := After(s0, before); Deliver(p, timely) in Steps(s) && Counts(s.nodes[p.to], p)
    requires IsRun(Next(After(s0, before), Deliver(p, timely)), later)
    requires forall k :: 0 <= k < |later| ==> !(later[k].Schedule? && later[k].i == p.to)
    requires Win(p.to, manual) in Steps(After(Next(After(s0, before), Deliver(p, timely)), later))
    ensures var s := After(s0, before);
      After(Next(s, Deliver(p, timely)), later).nodes[p.to].authEpoch == p.hdr.currentEpoch <==> s.nodes[p.to].authSent
  {
    hide *;
    var s := After(s0, before);
    var s1 := Next(s, Deliver(p, timely));
    var s2 := After(s1, later);
    NothingSent(s0);
    RunInOrder(s0, before, NOTHING);
    CountedNow(s, p, timely, HistoryOf(NOTHING, s0, before));
    StepBounded(s, Deliver(p, timely));
    StepGoesOn(s, Deliver(p, timely), p.to);
    RunGoesOn(s1, later, p.to);
    WinnerAsked(s2, p.to, manual);
    GoesOnTwice(BallotOf(s.nodes[p.to]), BallotOf(s1.nodes[p.to]), BallotOf(s2.nodes[p.to]));
    Fields(s.nodes[p.to]);
    Fields(s2.nodes[p.to]);
    AskedOrNot(BallotOf(s.nodes[p.to]), BallotOf(s2.nodes[p.to]));
  }

  lemma NothingSent(s: System)
    requires NoElections(s)
    ensures PollOf(s, NOTHING) in Ordered()
  {
  }

  lemma CountedNow(s: System, p: Packet, timely: bool, h: History)
    requires Deliver(p, timely) in Steps(s) && PollOf(s, h) in Ordered() && Counts(s.nodes[p.to], p)
    ensures p.to in s.nodes && p.hdr.currentEpoch == s.nodes[p.to].authEpoch
  {
    assert p in Taken(Deliver(p, timely));
    assert Ballots(s)[p.to].authEpoch == s.nodes[p.to].authEpoch;
  }

  lemma WinnerAsked(s: System, c: Id, manual: bool)
    requires Win(c, manual) in Steps(s)
    ensures c in s.nodes && s.nodes[c].authSent
  {
  }

  lemma GoesOnTwice(a: Ballot, b: Ballot, c: Ballot)
    requires GoesOn(a, b) && GoesOn(b, c)
    ensures GoesOn(a, c)
  {
  }

  lemma Fields(n: Node)
    ensures BallotOf(n).authSent == n.authSent && BallotOf(n).authEpoch == n.authEpoch
  {
  }

  lemma AskedOrNot(a: Ballot, b: Ballot)
    requires GoesOn(a, b) && b.authSent
    ensures b.authEpoch == a.authEpoch <==> a.authSent
  {
  }
}
