/** Whether the k-th receive of a channel gets the k-th send depends on the order in which a start begins its requests. */
module RingPairing {
  import opened Network
  import opened Pigeonhole
  import opened Ring
  import opened RingSafety
  import opened RingDelivery
  import opened RingLiveness

  /** What is posted, recorded about it, and sent so far stays as it is. */
  ghost predicate Kept(s: State, s': State) {
    && |s.peers| <= |s'.peers|
    && (forall r {:trigger s.peers[r].sent} :: 0 <= r < |s.peers| ==> s.peers[r].sent <= s'.peers[r].sent)
    && (forall id :: KeptAt(s, s', id))
  }

  ghost predicate KeptAt(s: State, s': State, id: OpId) {
    Posted(s.net, id) && id in s.marks ==>
      && Posted(s'.net, id) && OpOf(s'.net, id) == OpOf(s.net, id)
      && id in s'.marks && s'.marks[id] == s.marks[id]
  }

  lemma SameKept(s: State, s': State)
    requires s'.net.log == s.net.log && s'.marks == s.marks && |s.peers| == |s'.peers|
    requires forall r :: 0 <= r < |s.peers| ==> s.peers[r].sent <= s'.peers[r].sent
    ensures Kept(s, s')
  {}

  lemma PostedKept(s: State, s': State, r: nat, op: Op, mark: Mark)
    requires r < |s.net.log| && s'.net.log == s.net.log[r := s.net.log[r] + [op]]
    requires s'.marks == s.marks[OpId(r, |s.net.log[r]|) := mark]
    requires |s.peers| == |s'.peers| && forall q :: 0 <= q < |s.peers| ==> s.peers[q].sent == s'.peers[q].sent
    ensures Kept(s, s')
  {}

  lemma StepKept(c: Config, s: State, st: Step)
    requires ValidConfig(c) && Enabled(c, s, st)
    ensures Kept(s, Apply(c, s, st))
  {
    var s' := Apply(c, s, st);
    match st {
      case BeginSend(r, k) => PostedKept(s, s', r, Send(Succ(c, r), c.tag), s'.marks[OpId(r, |s.net.log[r]|)]);
      case BeginRecv(r, k) => PostedKept(s, s', r, Recv(Pred(c, r), c.tag), s'.marks[OpId(r, |s.net.log[r]|)]);
      case _ => SameKept(s, s');
    }
  }

  lemma KeptTrans(s: State, t: State, u: State)
    requires Kept(s, t) && Kept(t, u)
    ensures Kept(s, u)
  {
    forall r | 0 <= r < |s.peers| ensures s.peers[r].sent <= u.peers[r].sent {
      assert s.peers[r].sent <= t.peers[r].sent && t.peers[r].sent <= u.peers[r].sent;
    }
    forall id ensures KeptAt(s, u, id) { assert KeptAt(s, t, id) && KeptAt(t, u, id); }
  }

  /** A list of steps leads to one state only. */
  lemma {:induction false} Unique(c: Config, steps: seq<Step>, s: State, t: State)
    requires ValidConfig(c) && Reaches(c, steps, s) && Reaches(c, steps, t)
    ensures s == t
    decreases |steps|
  {
    if steps != [] {
      var front, last := steps[..|steps| - 1], steps[|steps| - 1];
      var p :| Reaches(c, front, p) && Enabled(c, p, last) && s == Apply(c, p, last);
      var q :| Reaches(c, front, q) && Enabled(c, q, last) && t == Apply(c, q, last);
      Unique(c, front, p, q);
    }
  }

  lemma {:induction false} RunKept(c: Config, steps: seq<Step>, s: State, all: seq<Step>, s': State)
    requires ValidConfig(c) && Reaches(c, steps, s) && Reaches(c, all, s') && steps <= all
    ensures Kept(s, s')
    decreases |all|
  {
    if steps == all {
      Unique(c, steps, s, s');
    } else {
      var front, last := all[..|all| - 1], all[|all| - 1];
      var p :| Reaches(c, front, p) && Enabled(c, p, last) && s' == Apply(c, p, last);
      RunKept(c, steps, s, front, p);
      ReachableOk(c, front, p);
      StepKept(c, p, last);
      KeptTrans(s, p, s');
    }
  }

  // ---------------------------------------------------------------- a crossed pair

  /** The first two send buffers of rank 0 differ once the application has written the first. */
  function Rewritten(c: Config): (r: seq<seq<int>>)
    requires ValidConfig(c) && c.pairs >= 2
    ensures |r| == c.pairs && r[0] != r[1]
  {
    c.init[0][0 := c.init[0][1] + [1]]
  }

  /** Rank 0 began its first cycle with send 1, its successor with receive 0. */
  ghost predicate Crossed(c: Config, s: State, a: OpId, b: OpId)
    requires ValidConfig(c) && c.pairs >= 2
  {
    && Posted(s.net, a) && OpOf(s.net, a).Send? && a.rank == 0 && a in s.marks && s.marks[a] == Mark(0, 1, 0)
    && Posted(s.net, b) && OpOf(s.net, b).Recv? && b.rank == Succ(c, 0) && b in s.marks && s.marks[b] == Mark(0, 0, 0)
    && |s.peers| == c.ranks > 0 && s.peers[0].sent != [] && s.peers[0].sent[0] == Rewritten(c)
  }

  lemma CrossedKept(c: Config, s: State, s': State, a: OpId, b: OpId)
    requires ValidConfig(c) && c.pairs >= 2 && Crossed(c, s, a, b) && Kept(s, s') && |s'.peers| == c.ranks
    ensures Crossed(c, s', a, b)
  {
    assert KeptAt(s, s', a) && KeptAt(s, s', b);
    assert s.peers[0].sent <= s'.peers[0].sent;
  }

  /** Once that cycle is over, receive buffer 0 of the successor holds send buffer 1. */
  lemma CrossedDelivery(c: Config, s: State, a: OpId, b: OpId)
    requires ValidConfig(c) && c.pairs >= 2 && Inv(c, s) && Crossed(c, s, a, b) && AllAt(s, 1)
    ensures s.peers[b.rank].recvBuf != [] && s.peers[b.rank].recvBuf[0] == Rewritten(c)[1]
  {
    RingNeighbours(c, 0);
    PredInRing(c, b.rank);
    assert OpAt(c, s.net, a) && OpAt(c, s.net, b);
    Place(c, s.net, s.peers, s.marks, a);
    Place(c, s.net, s.peers, s.marks, b);
    assert SettledAt(s.net, s.peers, s.marks, b);
    assert b in s.net.done;
    assert GotAt(c, s.net, s.marks, s.got, b);
    assert WireAt(s.net, s.peers, s.marks, a);
    assert BufAt(s.peers, s.marks, s.got, b);
  }

  /** The send buffers rank q starts its first cycle with. */
  function FirstBuffers(c: Config, q: nat): seq<seq<int>>
    requires ValidConfig(c) && c.pairs >= 2 && q < c.ranks
  {
    if q == 0 then Rewritten(c) else c.init[q]
  }

  /** Nothing is posted yet; the ranks in `begun` have started their first cycle, the others none. */
  ghost predicate Fresh(c: Config, s: State, begun: set<nat>)
    requires ValidConfig(c) && c.pairs >= 2
  {
    && |s.peers| == |s.net.log| == c.ranks
    && forall q :: 0 <= q < c.ranks ==> s.net.log[q] == [] && FreshPeer(c, q, s.peers[q], q in begun)
  }

  ghost predicate FreshPeer(c: Config, q: nat, p: Peer, started: bool)
    requires ValidConfig(c) && c.pairs >= 2 && q < c.ranks
  {
    if started
    then p.active && p.cycle == 1 && p.toSend == p.toRecv == Range(c.pairs) && p.sent == [FirstBuffers(c, q)]
    else !p.active && p.cycle == 0 && p.sent == [] && p.sendBuf == FirstBuffers(c, q)
  }

  lemma Took(c: Config, before: seq<Step>, p: State, st: Step) returns (steps: seq<Step>, s: State)
    requires ValidConfig(c) && Reaches(c, before, p) && Enabled(c, p, st)
    ensures Reaches(c, steps, s) && s == Apply(c, p, st)
  {
    Extend(c, before, p, st);
    steps, s := before + [st], Apply(c, p, st);
  }

  lemma Begin(c: Config) returns (steps: seq<Step>, s: State)
    requires ValidConfig(c)
    ensures Reaches(c, steps, s) && s.peers == IdlePeers(c.init) && s.net == Empty(c.ranks)
  {
    steps, s := [], Init(c);
  }

  lemma CrossedWrite(c: Config) returns (steps: seq<Step>, s: State)
    requires ValidConfig(c) && c.pairs >= 2
    ensures Reaches(c, steps, s) && Fresh(c, s, {})
  {
    var before, p := Begin(c);
    steps, s := Took(c, before, p, WriteBuffer(0, 0, c.init[0][1] + [1]));
    forall q | 0 <= q < c.ranks ensures FreshPeer(c, q, s.peers[q], false) {
      assert p.peers[q] == IdlePeer(c.init[q]);
    }
  }

  lemma CrossedOne(c: Config, before: seq<Step>, p: State, begun: set<nat>, r: nat) returns (steps: seq<Step>, s: State)
    requires ValidConfig(c) && c.pairs >= 2 && r < c.ranks && r !in begun
    requires Reaches(c, before, p) && Fresh(c, p, begun)
    ensures Reaches(c, steps, s) && Fresh(c, s, begun + {r})
  {
    steps, s := Took(c, before, p, Start(r));
  }

  /** Rank 0 writes a buffer, then it and its successor start. */
  lemma CrossedStart(c: Config) returns (steps: seq<Step>, s: State)
    requires ValidConfig(c) && c.pairs >= 2
    ensures Reaches(c, steps, s) && Fresh(c, s, {0, Succ(c, 0)}) && Within(s, 1)
  {
    var r := Succ(c, 0);
    RingNeighbours(c, 0);
    steps, s := CrossedWrite(c);
    steps, s := CrossedOne(c, steps, s, {}, 0);
    if r != 0 {
      steps, s := CrossedOne(c, steps, s, {0}, r);
      assert {0} + {r} == {0, r};
    } else {
      assert {} + {0} == {0, r};
    }
  }

  lemma NothingPosted(n: Net, t: Stream)
    requires forall q :: 0 <= q < |n.log| ==> n.log[q] == []
    ensures SendsOn(n, t) == [] && RecvsOn(n, t) == []
  {
    assert LogOf(n, t.src) == [] && LogOf(n, t.dst) == [];
  }

  lemma CrossedSend(c: Config) returns (steps: seq<Step>, s: State, a: OpId)
    requires ValidConfig(c) && !c.inOrder && c.pairs >= 2
    ensures Reaches(c, steps, s) && Within(s, 1) && |s.peers| == |s.net.log| == c.ranks
    ensures Posted(s.net, a) && OpOf(s.net, a).Send? && a.rank == 0 && a in s.marks && s.marks[a] == Mark(0, 1, 0)
    ensures s.peers[0].sent == [Rewritten(c)]
    ensures var r := Succ(c, 0);
      r < c.ranks && s.peers[r].active && s.peers[r].cycle == 1 && s.peers[r].toRecv == Range(c.pairs)
      && RecvsOn(s.net, In(c, r)) == []
  {
    var r := Succ(c, 0);
    RingNeighbours(c, 0);
    steps, s := CrossedStart(c);
    NothingPosted(s.net, Out(c, 0));
    NothingPosted(s.net, In(c, r));
    assert 1 in Range(c.pairs);
    a := OpId(0, 0);
    PostStreams(s.net, 0, Send(r, c.tag), In(c, r));
    steps, s := Took(c, steps, s, BeginSend(0, 1));
  }

  lemma CrossedBegin(c: Config) returns (steps: seq<Step>, s: State, a: OpId, b: OpId)
    requires ValidConfig(c) && !c.inOrder && c.pairs >= 2
    ensures Reaches(c, steps, s) && Within(s, 1) && Crossed(c, s, a, b)
  {
    var r := Succ(c, 0);
    steps, s, a := CrossedSend(c);
    assert 0 in Range(c.pairs);
    b := OpId(r, |s.net.log[r]|);
    steps, s := Took(c, steps, s, BeginRecv(r, 0));
  }

  /** In every run, between cycles, the k-th receive buffer holds the k-th send buffer of the same cycle. */
  ghost predicate AlwaysPaired(c: Config)
    requires ValidConfig(c)
  {
    forall steps, s, r: nat | Reaches(c, steps, s) && r < |s.peers| && !s.peers[r].active && s.peers[r].cycle > 0 ::
      Pred(c, r) < |s.peers| && s.peers[r].cycle <= |s.peers[Pred(c, r)].sent|
      && s.peers[r].recvBuf == s.peers[Pred(c, r)].sent[s.peers[r].cycle - 1]
  }

  lemma CrossedRun(c: Config) returns (steps: seq<Step>, s: State)
    requires ValidConfig(c) && !c.inOrder && c.pairs >= 2
    ensures Reaches(c, steps, s) && AllAt(s, 1) && |s.peers| == c.ranks > Succ(c, 0)
    ensures s.peers[0].sent != [] && s.peers[0].sent[0] == Rewritten(c)
    ensures s.peers[Succ(c, 0)].recvBuf != [] && s.peers[Succ(c, 0)].recvBuf[0] == Rewritten(c)[1]
  {
    var start, p, a, b := CrossedBegin(c);
    steps, s := CyclesComplete(c, start, p, 1);
    ReachableOk(c, steps, s);
    RunKept(c, start, p, steps, s);
    CrossedKept(c, p, s, a, b);
    CrossedDelivery(c, s, a, b);
  }

  lemma OneByOne(x: seq<seq<int>>, y: seq<seq<int>>)
    requires |x| == |y| == 1 && multiset(x) == multiset(y)
    ensures x == y
  {
    assert x == [x[0]] && y == [y[0]];
    assert x[0] in multiset(x);
  }

  /** Pairing always holds exactly when starts are ordered or there is one pair a channel. */
  lemma PairingTheorem(c: Config)
    requires ValidConfig(c)
    ensures AlwaysPaired(c) <==> c.inOrder || c.pairs == 1
  {
    if c.inOrder || c.pairs == 1 {
      forall steps, s, r: nat | Reaches(c, steps, s) && r < |s.peers| && !s.peers[r].active && s.peers[r].cycle > 0
        ensures Pred(c, r) < |s.peers| && s.peers[r].cycle <= |s.peers[Pred(c, r)].sent|
        ensures s.peers[r].recvBuf == s.peers[Pred(c, r)].sent[s.peers[r].cycle - 1]
      {
        Paired(c, steps, s, r);
      }
    } else {
      var steps, s := CrossedRun(c);
      var r := Succ(c, 0);
      RingNeighbours(c, 0);
      assert !s.peers[r].active && s.peers[r].cycle == 1 && Pred(c, r) == 0;
      assert s.peers[r].recvBuf[0] != s.peers[0].sent[0][0];
    }
  }

  lemma Paired(c: Config, steps: seq<Step>, s: State, r: nat)
    requires ValidConfig(c) && (c.inOrder || c.pairs == 1)
    requires Reaches(c, steps, s) && r < |s.peers| && !s.peers[r].active && s.peers[r].cycle > 0
    ensures Pred(c, r) < |s.peers| && s.peers[r].cycle <= |s.peers[Pred(c, r)].sent|
    ensures s.peers[r].recvBuf == s.peers[Pred(c, r)].sent[s.peers[r].cycle - 1]
  {
    ReachableOk(c, steps, s);
    IdleHolds(c, s, r);
    if c.pairs == 1 {
      assert PeerOk(c, s.peers[r]) && PeerOk(c, s.peers[Pred(c, r)]);
      OneByOne(s.peers[r].recvBuf, s.peers[Pred(c, r)].sent[s.peers[r].cycle - 1]);
    }
  }
}
