/** A ring of channels does not deadlock: the rank that is furthest behind can always be moved on. */
module RingProgress {
  import opened MixedRadix
  import opened Network
  import opened Ring
  import opened RingSafety
  import opened RingDelivery

  /** Neither an application writing a buffer nor a rank starting a cycle. */
  predicate Inner(st: Step) {
    !st.WriteBuffer? && !st.Start?
  }

  lemma LeastOf(todo: set<nat>) returns (k: nat)
    requires todo != {}
    ensures k in todo && forall l :: l in todo ==> k <= l
    decreases todo
  {
    var pivot :| pivot in todo;
    k := pivot;
    var smaller := set l | l in todo && l < pivot;
    if smaller != {} {
      assert pivot !in smaller;
      k := LeastOf(smaller);
    }
    forall l | l in todo ensures k <= l {
      if l < pivot { assert l in smaller; }
    }
  }

  /** With nothing left to begin, both lines of a rank are as long as its cycles make them. */
  lemma LineLengths(c: Config, s: State, r: nat)
    requires ValidConfig(c) && Inv(c, s) && r < c.ranks && s.peers[r].toSend == {} && s.peers[r].toRecv == {}
    ensures |SendsOn(s.net, Out(c, r))| == c.pairs * s.peers[r].cycle
    ensures |RecvsOn(s.net, In(c, r))| == c.pairs * s.peers[r].cycle
  {
    assert LinesAt(c, s.net, s.peers[r], s.marks, r);
  }

  /** An operation of the rank furthest behind can be matched. */
  lemma LaggardMatches(c: Config, s: State, id: OpId)
    requires ValidConfig(c) && Inv(c, s) && Posted(s.net, id) && id !in s.net.matched && id.rank < c.ranks
    requires forall q :: 0 <= q < c.ranks ==> s.peers[q].toSend == {} && s.peers[q].toRecv == {}
    requires forall q :: 0 <= q < c.ranks ==> s.peers[id.rank].cycle <= s.peers[q].cycle
    ensures CanMatch(s.net, StreamOf(id.rank, OpOf(s.net, id)))
  {
    var r := id.rank;
    assert OpAt(c, s.net, id);
    UnmatchedProgress(s.net, id);
    RingNeighbours(c, r);
    PredInRing(c, r);
    var q := if OpOf(s.net, id).Send? then Succ(c, r) else Pred(c, r);
    LineLengths(c, s, r);
    LineLengths(c, s, q);
    MulMono(c.pairs, s.peers[r].cycle, s.peers[q].cycle);
    assert In(c, Succ(c, r)) == Out(c, r);
  }

  lemma MatchedRecv(c: Config, s: State, id: OpId) returns (t: Stream, j: nat)
    requires Inv(c, s) && id in s.net.matched && Posted(s.net, id) && OpOf(s.net, id).Recv?
    ensures j < |Get(s.net.recvm, t)| && j < |Get(s.net.sentm, t)| && s.net.recvm[t][j] == id
    ensures Posted(s.net, s.net.sentm[t][j]) && OpOf(s.net, s.net.sentm[t][j]).Send?
  {
    t := StreamOf(id.rank, OpOf(s.net, id));
    assert Ordered(s.net, t) && InPairs(s.net, id, t);
    if id in Get(s.net.sentm, t) {
      assert id in Get(s.net.sentm, t) + Get(s.net.sendq, t);
      SelectMember(t.src, LogOf(s.net, t.src), true, t.dst, t.tag, id);
      assert false;
    }
    j :| 0 <= j < |Get(s.net.recvm, t)| && s.net.recvm[t][j] == id;
    NonOvertaking(s.net, t, j);
    assert s.net.sentm[t][j] in SendsOn(s.net, t);
    SelectMember(t.src, LogOf(s.net, t.src), true, t.dst, t.tag, s.net.sentm[t][j]);
  }

  lemma OpProgress(c: Config, s: State, id: OpId) returns (st: Step)
    requires ValidConfig(c) && Inv(c, s) && Posted(s.net, id) && id !in s.net.done && id.rank < c.ranks
    requires forall q :: 0 <= q < c.ranks ==> s.peers[q].toSend == {} && s.peers[q].toRecv == {}
    requires forall q :: 0 <= q < c.ranks ==> s.peers[id.rank].cycle <= s.peers[q].cycle
    ensures Enabled(c, s, st) && Inner(st)
  {
    if id !in s.net.matched {
      LaggardMatches(c, s, id);
      return MatchHeads(StreamOf(id.rank, OpOf(s.net, id)));
    }
    if OpOf(s.net, id).Send? {
      return if id in s.net.wire then SendDone(id) else InjectSend(id);
    }
    var t, j := MatchedRecv(c, s, id);
    return if s.net.sentm[t][j] in s.net.wire then RecvDone(t, j) else InjectSend(s.net.sentm[t][j]);
  }

  /** While the rank furthest behind is in a cycle, some step inside the cycle is enabled, even in synchronous mode. */
  lemma Progress(c: Config, s: State, r: nat) returns (st: Step)
    requires ValidConfig(c) && Inv(c, s) && r < c.ranks && s.peers[r].active
    requires forall q :: 0 <= q < c.ranks ==> s.peers[r].cycle <= s.peers[q].cycle
    ensures Enabled(c, s, st) && Inner(st)
  {
    if q: nat :| q < c.ranks && s.peers[q].toSend != {} {
      assert PeerOk(c, s.peers[q]);
      var k := LeastOf(s.peers[q].toSend);
      return BeginSend(q, k);
    }
    if q: nat :| q < c.ranks && s.peers[q].toRecv != {} {
      assert PeerOk(c, s.peers[q]);
      var k := LeastOf(s.peers[q].toRecv);
      return BeginRecv(q, k);
    }
    if k: nat :| k < |s.net.log[r]| && OpId(r, k) !in s.net.done {
      st := OpProgress(c, s, OpId(r, k));
    } else {
      st := WaitReturns(r);
    }
  }

  lemma {:induction false} FurthestBehind(s: State, n: nat) returns (r: nat)
    requires 0 < n <= |s.peers|
    ensures r < n && forall q :: 0 <= q < n ==> s.peers[r].cycle <= s.peers[q].cycle
    decreases n
  {
    r := 0;
    if n > 1 {
      r := FurthestBehind(s, n - 1);
      if s.peers[n - 1].cycle < s.peers[r].cycle { r := n - 1; }
    }
  }

  /** A run that can go on only by starting cycles beyond the goal has every rank at the goal. */
  lemma NoDeadlock(c: Config, steps: seq<Step>, s: State, goal: nat)
    requires ValidConfig(c) && Reaches(c, steps, s)
    requires forall st :: Enabled(c, s, st) && Inner(st) ==> false
    requires forall r: nat :: Enabled(c, s, Start(r)) ==> s.peers[r].cycle >= goal
    ensures |s.peers| == c.ranks && forall r :: 0 <= r < c.ranks ==> s.peers[r].cycle >= goal
  {
    ReachableOk(c, steps, s);
    var r := FurthestBehind(s, c.ranks);
    if s.peers[r].active {
      var st := Progress(c, s, r);
      assert false;
    }
    assert Enabled(c, s, Start(r));
  }
}
