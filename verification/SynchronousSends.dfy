/**
 What synchronous mode means for both protocols: in every reachable state a completed send has been
 matched with a receive.
 */
module SynchronousSends {
  import opened Network
  import X = NeighbourExchange
  import XD = ExchangeDelivery
  import R = Ring
  import RS = RingSafety

  /** Some receive of its stream is paired with the send. */
  ghost predicate HasReceive(n: Net, id: OpId, t: Stream) {
    exists j :: 0 <= j < |Get(n.sentm, t)| && j < |Get(n.recvm, t)| && Get(n.sentm, t)[j] == id
  }

  lemma RecvMatched(n: Net, t: Stream, j: nat)
    requires NetInv(n) && CanCompleteRecv(n, t, j)
    ensures n.recvm[t][j] in n.matched
  {
    assert n.recvm[t][j] in Get(n.recvm, t);
    assert InPairs(n, n.recvm[t][j], t);
  }

  lemma MatchedHasReceive(n: Net, id: OpId)
    requires NetInv(n) && id in n.matched && Posted(n, id) && OpOf(n, id).Send?
    ensures HasReceive(n, id, StreamOf(id.rank, OpOf(n, id)))
  {
    var t := StreamOf(id.rank, OpOf(n, id));
    assert Ordered(n, t) && InPairs(n, id, t);
    if id in Get(n.sentm, t) {
      var j :| 0 <= j < |Get(n.sentm, t)| && Get(n.sentm, t)[j] == id;
    } else {
      assert id in Get(n.recvm, t) + Get(n.recvq, t);
      SelectMember(t.dst, LogOf(n, t.dst), false, t.src, t.tag, id);
      assert false;
    }
  }

  // ---------------------------------------------------------------- the neighbour exchange

  /** The steps that complete nothing. */
  lemma ExchangeQuiet(c: X.Config, s: X.State, st: X.Step)
    requires X.Enabled(c, s, st) && !st.SendDone? && !st.RecvDone?
    ensures X.Apply(c, s, st).net.done == s.net.done && s.net.matched <= X.Apply(c, s, st).net.matched
  {}

  lemma ExchangeStep(c: X.Config, s: X.State, st: X.Step)
    requires c.sync && NetInv(s.net) && X.Enabled(c, s, st) && s.net.done <= s.net.matched
    ensures X.Apply(c, s, st).net.done <= X.Apply(c, s, st).net.matched
  {
    match st
    case SendDone(id) =>
    case RecvDone(t, j) => RecvMatched(s.net, t, j);
    case _ => ExchangeQuiet(c, s, st);
  }

  lemma {:induction false} ExchangeRun(c: X.Config, steps: seq<X.Step>, s: X.State)
    requires X.ValidConfig(c) && c.sync && X.Reaches(c, steps, s)
    ensures s.net.done <= s.net.matched
    decreases |steps|
  {
    if steps != [] {
      var front, last := steps[..|steps| - 1], steps[|steps| - 1];
      var p :| X.Reaches(c, front, p) && X.Enabled(c, p, last) && s == X.Apply(c, p, last);
      ExchangeRun(c, front, p);
      XD.ReachableOk(c, front, p);
      ExchangeStep(c, p, last);
    }
  }

  /** In synchronous mode a send of the exchange that is complete has been matched. */
  lemma ExchangeSendsMatched(c: X.Config, steps: seq<X.Step>, s: X.State, id: OpId)
    requires X.ValidConfig(c) && c.sync && X.Reaches(c, steps, s)
    requires id in s.net.done && Posted(s.net, id) && OpOf(s.net, id).Send?
    ensures HasReceive(s.net, id, StreamOf(id.rank, OpOf(s.net, id)))
  {
    ExchangeRun(c, steps, s);
    XD.ReachableOk(c, steps, s);
    MatchedHasReceive(s.net, id);
  }

  // ---------------------------------------------------------------- the ring of channels

  lemma RingStep(c: R.Config, s: R.State, st: R.Step)
    requires c.sync && NetInv(s.net) && R.Enabled(c, s, st) && s.net.done <= s.net.matched
    ensures R.Apply(c, s, st).net.done <= R.Apply(c, s, st).net.matched
  {
    if st.RecvDone? { RecvMatched(s.net, st.s, st.j); }
  }

  lemma {:induction false} RingRun(c: R.Config, steps: seq<R.Step>, s: R.State)
    requires R.ValidConfig(c) && c.sync && R.Reaches(c, steps, s)
    ensures s.net.done <= s.net.matched
    decreases |steps|
  {
    if steps != [] {
      var front, last := steps[..|steps| - 1], steps[|steps| - 1];
      var p :| R.Reaches(c, front, p) && R.Enabled(c, p, last) && s == R.Apply(c, p, last);
      RingRun(c, front, p);
      RS.ReachableOk(c, front, p);
      RingStep(c, p, last);
    }
  }

  /** In synchronous mode a send of a channel that is complete has been matched. */
  lemma RingSendsMatched(c: R.Config, steps: seq<R.Step>, s: R.State, id: OpId)
    requires R.ValidConfig(c) && c.sync && R.Reaches(c, steps, s)
    requires id in s.net.done && Posted(s.net, id) && OpOf(s.net, id).Send?
    ensures HasReceive(s.net, id, StreamOf(id.rank, OpOf(s.net, id)))
  {
    RingRun(c, steps, s);
    RS.ReachableOk(c, steps, s);
    MatchedHasReceive(s.net, id);
  }
}
