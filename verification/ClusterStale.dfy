/** A ping that was stale from the start makes a node move once more than there are greater names. */
module ClusterStale {
  import opened Options
  import opened ClusterNode
  import opened ClusterSystem
  import opened ClusterCollision

  /** Node 1 as it knows itself and node 2: two masters without slots. */
  function View(own: nat, known: nat, current: nat): (n: Node)
    ensures Claimed(n, 2) == {}
  {
    Record(1, map[1 := Peer(true, None, own, false), 2 := Peer(true, None, known, false)], seq(SLOTS, _ => None), map[],
           2, current, 0, 0, false, 0)
  }

  function Other(): Node {
    Record(2, map[2 := Peer(true, None, 5, false)], seq(SLOTS, _ => None), map[], 1, 5, 0, 0, false, 0)
  }

  /** Node 2 says that it has the epoch e. */
  function Says(e: nat): Packet { Packet(1, Header(2, e, e, {}, None, false), Config) }

  lemma SeesEpoch(e: nat, known: nat, current: nat)
    requires known <= e <= current
    ensures SeeEpochs(View(e, known, current), Says(e).hdr) == View(e, e, current)
  {
    var n := View(e, known, current);
    assert n.peers[2 := n.peers[2].(configEpoch := e)] == View(e, e, current).peers;
    assert n.peers[2 := n.peers[2]] == n.peers;
  }

  lemma NotDirty(e: nat, current: nat)
    requires e <= current
    ensures var n, h := View(e, e, current), Says(e).hdr;
      && SwitchRole(n, h) == n && h.sender in n.peers && !Dirty(n, h)
  {
  }

  lemma GoesOver(e: nat, current: nat)
    requires e <= current
    ensures ResolveCollision(View(e, e, current), Says(e).hdr) == View(current + 1, e, current + 1)
  {
    var n := View(e, e, current);
    assert n.peers[1 := Peer(true, None, current + 1, false)] == View(current + 1, e, current + 1).peers;
  }

  lemma PingCollides(e: nat, known: nat, current: nat)
    requires known <= e <= current
    ensures var n := View(e, known, current);
      Receive(n, Says(e), true) == (View(current + 1, e, current + 1), []) && !Aborts(n, Says(e))
  {
    SeesEpoch(e, known, current);
    NotDirty(e, current);
    GoesOver(e, current);
    hide View, SeeEpochs, SwitchRole, Dirty, ResolveCollision;
  }

  lemma MovesOnce(s: System, h: Past, p: Packet, n: Node)
    requires p in s.net && p.to in s.nodes && p.hdr.sender != p.to && Receive(s.nodes[p.to], p, true) == (n, [])
    requires !Aborts(s.nodes[p.to], p) && OwnEpoch(n) != OwnEpoch(s.nodes[p.to]) && p.to in h.held && p.to in h.moves
    ensures var step := Deliver(p, true);
      && step in Steps(s) && p.to in Next(s, step).nodes && Next(s, step).nodes[p.to] == n
      && (forall q :: q in s.net && q != p ==> q in Next(s, step).net)
      && var r := Recorded(h, s, step); p.to in r.held && p.to in r.moves && r.moves[p.to] == h.moves[p.to] + 1
  {
    hide Receive, Aborts, OwnEpoch;
    assert Taken(Deliver(p, true)) <= s.net;
  }

  lemma TwoSteps(s: System, h: Past, a: Step, b: Step)
    requires a in Steps(s) && b in Steps(Next(s, a))
    ensures IsRun(s, [a, b]) && PastOf(h, s, [a, b]) == Recorded(Recorded(h, s, a), Next(s, a), b)
  {
    hide Next, Steps, Recorded;
    assert [a, b][1..] == [b] && [b][1..] == [];
    var s1 := Next(s, a);
    var s2 := Next(s1, b);
    assert IsRun(s2, []) && IsRun(s1, [b]);
    assert PastOf(Recorded(Recorded(h, s, a), s1, b), s2, []) == Recorded(Recorded(h, s, a), s1, b);
  }

  function Beginning(): System { Nodes(map[1 := View(3, 3, 4), 2 := Other()], multiset{Says(3), Says(5)}) }

  lemma BeginningParts()
    ensures var s := Beginning();
      && s.nodes.Keys == {1, 2} && s.nodes[1] == View(3, 3, 4) && Says(3) in s.net && Says(5) in s.net
  {
  }

  lemma BeginningBounded()
    ensures Bounded(Beginning())
  {
  }

  lemma NothingMoved(s: System)
    requires 1 in s.nodes
    ensures 1 in NoMoves(s).held && 1 in NoMoves(s).moves && NoMoves(s).moves[1] == 0
  {
  }

  lemma OneGreater(s: System)
    requires s.nodes.Keys == {1, 2}
    ensures |Greater(s, 1)| == 1
  {
    assert Greater(s, 1) == {2};
  }

  lemma OneLate()
    ensures |LateEpochs(Late(Beginning()), 1)| == 1
  {
    assert Late(Beginning()) == {Says(3)};
    assert LateEpochs({Says(3)}, 1) == {3};
  }

  lemma Fields(own: nat, known: nat, current: nat)
    ensures View(own, known, current).id == 1 && OwnEpoch(View(own, known, current)) == own
  {
  }

  lemma SaysParts(e: nat)
    ensures Says(e).to == 1 && Says(e).hdr.sender == 2 && Says(e).hdr.configEpoch == e
    ensures OnlyCollisions(Deliver(Says(e), true))
  {
  }

  /** Node 1 has epoch 3 and node 2, the only greater name, has 5; a ping of node 2 from when it had 3 is on its way.
      Node 1 moves to 5, and then to 6. */
  lemma StaleMovesTwice() returns (s: System, steps: seq<Step>)
    ensures IsRun(s, steps) && Bounded(s) && 1 in s.nodes
    ensures forall k :: 0 <= k < |steps| ==> OnlyCollisions(steps[k])
    ensures var h := PastOf(NoMoves(s), s, steps); 1 in h.moves && h.moves[1] == 2
    ensures |Greater(s, 1)| == 1 && |LateEpochs(Late(s), 1)| == 1
  {
    hide *;
    s := Beginning();
    BeginningParts();
    BeginningBounded();
    NothingMoved(s);
    OneGreater(s);
    OneLate();
    SaysParts(3);
    SaysParts(5);
    Fields(3, 3, 4);
    Fields(5, 3, 5);
    Fields(6, 5, 6);
    PingCollides(3, 3, 4);
    PingCollides(5, 3, 5);
    var a, b := Deliver(Says(3), true), Deliver(Says(5), true);
    MovesOnce(s, NoMoves(s), Says(3), View(5, 3, 5));
    MovesOnce(Next(s, a), Recorded(NoMoves(s), s, a), Says(5), View(6, 5, 6));
    TwoSteps(s, NoMoves(s), a, b);
    steps := [a, b];
  }
}
