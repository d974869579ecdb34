/** Cycle-by-cycle delivery on a ring of channels, and how far neighbours can run apart. */
module RingDelivery {
  import opened MixedRadix
  import opened Pigeonhole
  import opened Network
  import opened Ring
  import opened RingSafety

  lemma PredInRing(c: Config, r: nat)
    requires r < c.ranks
    ensures Pred(c, r) < c.ranks && Succ(c, r) < c.ranks && In(c, r) == Out(c, Pred(c, r))
  {}

  /** A completed receive and the send at its place of the stream belong to the same cycle. */
  lemma SendOf(c: Config, s: State, b: OpId) returns (a: OpId)
    requires ValidConfig(c) && Inv(c, s) && b in s.got
    ensures b.rank < c.ranks && Posted(s.net, b) && OpOf(s.net, b).Recv? && b in s.marks && a in s.marks
    ensures s.marks[b].pos < |SendsOn(s.net, In(c, b.rank))| && a == SendsOn(s.net, In(c, b.rank))[s.marks[b].pos]
    ensures s.marks[a].cycle == s.marks[b].cycle && s.marks[a].slot < c.pairs && s.marks[b].slot < c.pairs
    ensures c.inOrder ==> s.marks[a].slot == s.marks[b].slot
    ensures a in s.net.wire && s.got[b] == s.net.wire[a]
  {
    assert GotAt(c, s.net, s.marks, s.got, b) && OpAt(c, s.net, b);
    PredInRing(c, b.rank);
    var q, j := Pred(c, b.rank), s.marks[b].pos;
    a := SendsOn(s.net, In(c, b.rank))[j];
    assert LinesAt(c, s.net, s.peers[q], s.marks, q) && LinesAt(c, s.net, s.peers[b.rank], s.marks, b.rank);
    Place(c, s.net, s.peers, s.marks, b);
    assert RecvsOn(s.net, In(c, b.rank))[j] == b;
    SameCycle(c.pairs, j, s.marks[a].cycle, s.marks[b].cycle);
  }

  lemma DataOf(c: Config, s: State, b: OpId, a: OpId)
    requires ValidConfig(c) && Inv(c, s) && b.rank < c.ranks && a in s.marks && a in s.net.wire
    requires exists j :: 0 <= j < |SendsOn(s.net, In(c, b.rank))| && a == SendsOn(s.net, In(c, b.rank))[j]
    ensures var q := Pred(c, b.rank);
      && q < |s.peers| && s.marks[a].cycle < |s.peers[q].sent| && |s.peers[q].sent[s.marks[a].cycle]| == c.pairs
      && s.marks[a].slot < c.pairs && s.net.wire[a] == s.peers[q].sent[s.marks[a].cycle][s.marks[a].slot]
  {
    var t := In(c, b.rank);
    PredInRing(c, b.rank);
    SelectMember(t.src, LogOf(s.net, t.src), true, t.dst, t.tag, a);
    assert WireAt(s.net, s.peers, s.marks, a) && PeerOk(c, s.peers[t.src]);
  }

  /**
   Whatever a receive of cycle x was given, its predecessor had in a send buffer when it started
   cycle x; with ordered starts, in the send buffer registered at the same place.
   */
  lemma CycleDelivered(c: Config, steps: seq<Step>, s: State, b: OpId) returns (k: nat)
    requires ValidConfig(c) && Reaches(c, steps, s) && b in s.got
    ensures b.rank < c.ranks && b in s.marks
    ensures var q, x := Pred(c, b.rank), s.marks[b].cycle;
      q < |s.peers| && x < |s.peers[q].sent| && k < |s.peers[q].sent[x]| && s.got[b] == s.peers[q].sent[x][k]
    ensures c.inOrder ==> k == s.marks[b].slot
  {
    ReachableOk(c, steps, s);
    var a := SendOf(c, s, b);
    DataOf(c, s, b, a);
    k := s.marks[a].slot;
  }

  // ---------------------------------------------------------------- one whole cycle

  ghost function CycleSlots(ids: seq<OpId>, marks: map<OpId, Mark>, from: nat, n: nat): (r: seq<nat>)
    requires from + n <= |ids| && forall j :: 0 <= j < |ids| ==> ids[j] in marks
    ensures |r| == n && forall i :: 0 <= i < n ==> r[i] == marks[ids[from + i]].slot
  {
    if n == 0 then [] else CycleSlots(ids, marks, from, n - 1) + [marks[ids[from + n - 1]].slot]
  }

  lemma InFullCycle(n: nat, inOrder: bool, cycle: nat, todo: set<nat>, ids: seq<OpId>, marks: map<OpId, Mark>,
                    x: nat, from: nat, i: nat)
    requires LineOk(n, inOrder, cycle, todo, ids, marks) && from == n * x && from + n <= |ids| && i < n
    ensures ids[from + i] in marks && marks[ids[from + i]].cycle == x && marks[ids[from + i]].slot < n
    ensures inOrder ==> marks[ids[from + i]].slot == i
  {
    SameCycle(n, from + i, marks[ids[from + i]].cycle, x);
  }

  lemma SlotsApart(n: nat, inOrder: bool, cycle: nat, todo: set<nat>, ids: seq<OpId>, marks: map<OpId, Mark>,
                   i: nat, j: nat)
    requires LineOk(n, inOrder, cycle, todo, ids, marks) && i < j < |ids|
    requires ids[i] in marks && ids[j] in marks && marks[ids[i]].cycle == marks[ids[j]].cycle
    ensures marks[ids[i]].slot != marks[ids[j]].slot
  {}

  /** The n operations of a full cycle use every slot once; in order, if starts are ordered. */
  lemma FullCycle(n: nat, inOrder: bool, cycle: nat, todo: set<nat>, ids: seq<OpId>, marks: map<OpId, Mark>,
                  x: nat, from: nat)
    requires LineOk(n, inOrder, cycle, todo, ids, marks) && from == n * x && from + n <= |ids|
    ensures forall j :: 0 <= j < |ids| ==> ids[j] in marks
    ensures var slots := CycleSlots(ids, marks, from, n);
      Distinct(slots) && Below(slots, n) && (inOrder ==> forall i :: 0 <= i < n ==> slots[i] == i)
  {
    forall j | 0 <= j < |ids| ensures ids[j] in marks {}
    var slots := CycleSlots(ids, marks, from, n);
    forall i | 0 <= i < n ensures slots[i] < n && (inOrder ==> slots[i] == i) {
      InFullCycle(n, inOrder, cycle, todo, ids, marks, x, from, i);
    }
    forall i, j | 0 <= i < j < n ensures slots[i] != slots[j] {
      InFullCycle(n, inOrder, cycle, todo, ids, marks, x, from, i);
      InFullCycle(n, inOrder, cycle, todo, ids, marks, x, from, j);
      SlotsApart(n, inOrder, cycle, todo, ids, marks, from + i, from + j);
    }
  }

  /** The i-th receive of the last cycle of an idle rank is complete. */
  lemma LastReceive(c: Config, s: State, r: nat, from: nat, i: nat)
    requires ValidConfig(c) && Inv(c, s) && r < c.ranks && !s.peers[r].active && s.peers[r].cycle > 0
    requires from == c.pairs * (s.peers[r].cycle - 1) && i < c.pairs
    ensures var ids := RecvsOn(s.net, In(c, r));
      && |ids| == from + c.pairs && ids[from + i] in s.got && ids[from + i].rank == r
      && ids[from + i] in s.marks && s.marks[ids[from + i]].cycle == s.peers[r].cycle - 1
      && s.marks[ids[from + i]].pos == from + i
  {
    var p, t := s.peers[r], In(c, r);
    assert PeerOk(c, p) && LinesAt(c, s.net, p, s.marks, r);
    var ids := RecvsOn(s.net, t);
    assert c.pairs * p.cycle == from + c.pairs;
    InFullCycle(c.pairs, c.inOrder, p.cycle, p.toRecv, ids, s.marks, p.cycle - 1, from, i);
    var b := ids[from + i];
    assert b in ids;
    SelectMember(t.dst, LogOf(s.net, t.dst), false, t.src, t.tag, b);
    assert SettledAt(s.net, s.peers, s.marks, b) && GotAt(c, s.net, s.marks, s.got, b);
  }

  /** After its wait a rank has, buffer by buffer, the messages its predecessor sent in the same cycle. */
  lemma ArrivedSlot(c: Config, s: State, r: nat, from: nat, i: nat)
    requires ValidConfig(c) && Inv(c, s) && r < c.ranks && !s.peers[r].active && s.peers[r].cycle > 0
    requires from == c.pairs * (s.peers[r].cycle - 1) && i < c.pairs
    ensures var x, t, q := s.peers[r].cycle - 1, In(c, r), Pred(c, r);
      && |RecvsOn(s.net, t)| == from + c.pairs && from + i < |SendsOn(s.net, t)|
      && var b, a := RecvsOn(s.net, t)[from + i], SendsOn(s.net, t)[from + i];
      && b in s.marks && a in s.marks
      && q < |s.peers| && x < |s.peers[q].sent| && |s.peers[q].sent[x]| == c.pairs == |s.peers[r].recvBuf|
      && s.marks[b].slot < c.pairs && s.marks[a].slot < c.pairs
      && s.peers[r].recvBuf[s.marks[b].slot] == s.peers[q].sent[x][s.marks[a].slot]
  {
    LastReceive(c, s, r, from, i);
    var b := RecvsOn(s.net, In(c, r))[from + i];
    var a := SendOf(c, s, b);
    DataOf(c, s, b, a);
    assert BufAt(s.peers, s.marks, s.got, b) && PeerOk(c, s.peers[r]);
  }

  /** The slots of the last cycle's receives, and of the sends they were matched with. */
  lemma LastCycle(c: Config, s: State, r: nat, from: nat)
    returns (into: seq<nat>, out: seq<nat>)
    requires ValidConfig(c) && Inv(c, s) && r < c.ranks && !s.peers[r].active && s.peers[r].cycle > 0
    requires from == c.pairs * (s.peers[r].cycle - 1)
    ensures |into| == |out| == c.pairs && Distinct(into) && Distinct(out) && Below(into, c.pairs) && Below(out, c.pairs)
    ensures c.inOrder ==> forall i :: 0 <= i < c.pairs ==> into[i] == out[i] == i
    ensures var x, q := s.peers[r].cycle - 1, Pred(c, r);
      && q < |s.peers| && x < |s.peers[q].sent| && |s.peers[q].sent[x]| == c.pairs == |s.peers[r].recvBuf|
      && forall i :: 0 <= i < c.pairs ==> s.peers[r].recvBuf[into[i]] == s.peers[q].sent[x][out[i]]
  {
    var n, p, q, t := c.pairs, s.peers[r], Pred(c, r), In(c, r);
    PredInRing(c, r);
    assert LinesAt(c, s.net, p, s.marks, r) && LinesAt(c, s.net, s.peers[q], s.marks, q);
    ArrivedSlot(c, s, r, from, n - 1);
    FullCycle(n, c.inOrder, p.cycle, p.toRecv, RecvsOn(s.net, t), s.marks, p.cycle - 1, from);
    FullCycle(n, c.inOrder, s.peers[q].cycle, s.peers[q].toSend, SendsOn(s.net, t), s.marks, p.cycle - 1, from);
    into := CycleSlots(RecvsOn(s.net, t), s.marks, from, n);
    out := CycleSlots(SendsOn(s.net, t), s.marks, from, n);
    forall i | 0 <= i < n ensures p.recvBuf[into[i]] == s.peers[q].sent[p.cycle - 1][out[i]] {
      ArrivedSlot(c, s, r, from, i);
    }
  }

  lemma SamePicks(a: seq<seq<int>>, b: seq<seq<int>>, into: seq<nat>, out: seq<nat>)
    requires |a| == |b| == |into| == |out| && Distinct(into) && Distinct(out) && Below(into, |a|) && Below(out, |b|)
    requires forall i :: 0 <= i < |a| ==> a[into[i]] == b[out[i]]
    ensures multiset(a) == multiset(b)
  {
    assert Pick(a, into) == Pick(b, out);
    PickPermutes(a, into);
    PickPermutes(b, out);
  }

  /** The receive buffers of rank r hold what rank q sent in r's last cycle. */
  ghost predicate HoldsLastCycle(c: Config, s: State, r: nat, q: nat) {
    && r < |s.peers| && q < |s.peers| && 0 < s.peers[r].cycle <= |s.peers[q].sent|
    && multiset(s.peers[r].recvBuf) == multiset(s.peers[q].sent[s.peers[r].cycle - 1])
    && (c.inOrder ==> s.peers[r].recvBuf == s.peers[q].sent[s.peers[r].cycle - 1])
  }

  lemma IdleHolds(c: Config, s: State, r: nat)
    requires ValidConfig(c) && Inv(c, s) && r < c.ranks && !s.peers[r].active && s.peers[r].cycle > 0
    ensures HoldsLastCycle(c, s, r, Pred(c, r))
  {
    var x, buf := s.peers[r].cycle - 1, s.peers[r].recvBuf;
    var into, out := LastCycle(c, s, r, c.pairs * x);
    var sent := s.peers[Pred(c, r)].sent[x];
    SamePicks(buf, sent, into, out);
    if c.inOrder {
      forall i | 0 <= i < c.pairs ensures buf[i] == sent[i] {
        assert buf[into[i]] == sent[out[i]];
      }
    }
  }

  /**
   Once the wait of a cycle has returned, and until the next start, a rank's receive buffers hold
   the multiset of messages its predecessor sent in that same cycle; with ordered starts, the k-th
   receive buffer holds the k-th send buffer.
   */
  lemma ChannelDelivered(c: Config, steps: seq<Step>, s: State, r: nat)
    requires ValidConfig(c) && Reaches(c, steps, s) && r < c.ranks
    requires r < |s.peers| && !s.peers[r].active && s.peers[r].cycle > 0
    ensures HoldsLastCycle(c, s, r, Pred(c, r))
  {
    ReachableOk(c, steps, s);
    IdleHolds(c, s, r);
  }

  // ---------------------------------------------------------------- skew

  /** A rank cannot be a whole cycle further than its predecessor allows. */
  lemma StepAhead(c: Config, s: State, r: nat)
    requires ValidConfig(c) && Inv(c, s) && r < c.ranks
    ensures s.peers[r].cycle <= s.peers[Pred(c, r)].cycle + 1
  {
    var p, q, t, n := s.peers[r], Pred(c, r), In(c, r), c.pairs;
    PredInRing(c, r);
    if p.cycle >= 2 {
      var j := n * (p.cycle - 1) - 1;
      CompletedBefore(c, s, r, j);
      assert LinesAt(c, s.net, s.peers[q], s.marks, q);
      if s.peers[q].cycle < p.cycle - 1 {
        MulStep(n, s.peers[q].cycle, p.cycle - 1);
        assert false;
      }
    }
  }

  /** The receives of earlier cycles are complete, so their messages have been sent. */
  lemma CompletedBefore(c: Config, s: State, r: nat, j: nat)
    requires ValidConfig(c) && Inv(c, s) && r < c.ranks && s.peers[r].cycle > 0
    requires j < c.pairs * (s.peers[r].cycle - 1)
    ensures Received(s.net, In(c, r), j) && j < |SendsOn(s.net, In(c, r))|
  {
    var p, t, n := s.peers[r], In(c, r), c.pairs;
    assert PeerOk(c, p) && LinesAt(c, s.net, p, s.marks, r);
    RangeCard(n);
    SubsetCard(p.toRecv, Range(n));
    assert n * p.cycle == n * (p.cycle - 1) + n;
    var ids := RecvsOn(s.net, t);
    var b := ids[j];
    assert b in ids;
    SelectMember(t.dst, LogOf(s.net, t.dst), false, t.src, t.tag, b);
    assert SettledAt(s.net, s.peers, s.marks, b) && GotAt(c, s.net, s.marks, s.got, b);
    if s.marks[b].cycle == p.cycle - 1 { assert false; }
  }

  function Back(c: Config, r: nat, i: nat): nat {
    if i == 0 then r else Pred(c, Back(c, r, i - 1))
  }

  lemma {:induction false} BackAt(c: Config, r: nat, i: nat)
    requires r < c.ranks && i < c.ranks
    ensures Back(c, r, i) == if i <= r then r - i else r + c.ranks - i
  {
    if i > 0 { BackAt(c, r, i - 1); }
  }

  lemma {:induction false} ChainAhead(c: Config, s: State, r: nat, i: nat)
    requires ValidConfig(c) && Inv(c, s) && r < c.ranks
    ensures Back(c, r, i) < c.ranks && s.peers[r].cycle <= s.peers[Back(c, r, i)].cycle + i
    decreases i
  {
    if i > 0 {
      ChainAhead(c, s, r, i - 1);
      PredInRing(c, Back(c, r, i - 1));
      StepAhead(c, s, Back(c, r, i - 1));
    }
  }

  lemma SkewOfInv(c: Config, s: State, r: nat)
    requires ValidConfig(c) && Inv(c, s) && r < c.ranks
    ensures s.peers[r].cycle <= s.peers[Succ(c, r)].cycle + c.ranks - 1
  {
    BackAt(c, r, c.ranks - 1);
    ChainAhead(c, s, r, c.ranks - 1);
  }

  /** In every reachable state a rank has started at most ranks - 1 cycles more than its successor. */
  lemma SkewBound(c: Config, steps: seq<Step>, s: State, r: nat)
    requires ValidConfig(c) && Reaches(c, steps, s) && r < c.ranks
    ensures |s.peers| == c.ranks && Succ(c, r) < c.ranks
    ensures s.peers[r].cycle <= s.peers[Succ(c, r)].cycle + c.ranks - 1
  {
    ReachableOk(c, steps, s);
    PredInRing(c, r);
    SkewOfInv(c, s, r);
  }

  ghost predicate Received(net: Net, t: Stream, j: nat) {
    j < |RecvsOn(net, t)| && RecvsOn(net, t)[j] in net.done
  }

  /** The messages of a stream that have been posted and not yet received. */
  ghost function InFlight(net: Net, t: Stream, n: nat): nat {
    if n == 0 then 0 else InFlight(net, t, n - 1) + if Received(net, t, n - 1) then 0 else 1
  }

  /** The first `before` receives of a stream are posted and complete. */
  ghost predicate AllReceived(net: Net, t: Stream, before: nat) {
    forall j: nat :: j < before ==> Received(net, t, j)
  }

  lemma {:induction false} InFlightBound(net: Net, t: Stream, n: nat, m: nat)
    requires AllReceived(net, t, m)
    ensures InFlight(net, t, n) <= if n <= m then 0 else n - m
    decreases n
  {
    if n > 0 { InFlightBound(net, t, n - 1, m); }
  }

  lemma LineLength(c: Config, s: State, r: nat)
    requires ValidConfig(c) && Inv(c, s) && r < c.ranks
    ensures |SendsOn(s.net, Out(c, r))| <= c.pairs * s.peers[r].cycle
  {
    assert LinesAt(c, s.net, s.peers[r], s.marks, r);
  }

  lemma EarlierReceived(c: Config, s: State, q: nat)
    requires ValidConfig(c) && Inv(c, s) && q < c.ranks
    ensures AllReceived(s.net, In(c, q), BeforeCycle(c.pairs, s.peers[q].cycle))
  {
    forall j: nat | j < BeforeCycle(c.pairs, s.peers[q].cycle) ensures Received(s.net, In(c, q), j) {
      if s.peers[q].cycle == 0 { assert false; }
      CompletedBefore(c, s, q, j);
    }
  }

  function BeforeCycle(n: nat, cycle: nat): nat {
    if cycle == 0 then 0 else n * (cycle - 1)
  }

  lemma FlightOfInv(c: Config, s: State, r: nat, most: nat)
    requires ValidConfig(c) && Inv(c, s) && r < c.ranks && most == c.pairs * c.ranks
    ensures InFlight(s.net, Out(c, r), |SendsOn(s.net, Out(c, r))|) <= most
  {
    var q := Succ(c, r);
    PredInRing(c, r);
    SkewOfInv(c, s, r);
    var before := BeforeCycle(c.pairs, s.peers[q].cycle);
    var length := |SendsOn(s.net, Out(c, r))|;
    assert length <= before + most by {
      LineLength(c, s, r);
      FlightArithmetic(c.pairs, s.peers[r].cycle, s.peers[q].cycle, c.ranks, before);
    }
    EarlierReceived(c, s, q);
    assert In(c, q) == Out(c, r);
    InFlightBound(s.net, Out(c, r), length, before);
  }

  /** The places of the first n sends of a stream whose receive is not posted or not done. */
  function Unreceived(net: Net, t: Stream, n: nat): set<nat> {
    set j: nat | j < n && !(j < |RecvsOn(net, t)| && RecvsOn(net, t)[j] in net.done)
  }

  lemma {:induction false} InFlightCounts(net: Net, t: Stream, n: nat)
    ensures InFlight(net, t, n) == |Unreceived(net, t, n)|
    decreases n
  {
    if n == 0 {
      assert Unreceived(net, t, 0) == {};
    } else {
      InFlightCounts(net, t, n - 1);
      if Received(net, t, n - 1) {
        assert Unreceived(net, t, n) == Unreceived(net, t, n - 1);
      } else {
        assert Unreceived(net, t, n) == Unreceived(net, t, n - 1) + {n - 1};
      }
    }
  }

  /** At most `ranks` messages per registered pair are ever in flight on a link: posted, and not yet received. */
  lemma FlightBound(c: Config, steps: seq<Step>, s: State, r: nat)
    requires ValidConfig(c) && Reaches(c, steps, s) && r < c.ranks
    ensures InFlight(s.net, Out(c, r), |SendsOn(s.net, Out(c, r))|) <= c.pairs * c.ranks
    ensures |set j: nat | j < |SendsOn(s.net, Out(c, r))|
                && !(j < |RecvsOn(s.net, Out(c, r))| && RecvsOn(s.net, Out(c, r))[j] in s.net.done)| <= c.pairs * c.ranks
  {
    InFlightCounts(s.net, Out(c, r), |SendsOn(s.net, Out(c, r))|);
    ReachableOk(c, steps, s);
    FlightOfInv(c, s, r, c.pairs * c.ranks);
  }

  lemma FlightArithmetic(n: nat, x: nat, y: nat, ranks: nat, before: nat)
    requires x <= y + ranks - 1 && ranks >= 1 && before == BeforeCycle(n, y)
    ensures n * x <= before + n * ranks
  {
    if y == 0 {
      MulMono(n, x, ranks);
    } else {
      MulMono(n, x, (y - 1) + ranks);
      assert n * ((y - 1) + ranks) == n * (y - 1) + n * ranks;
    }
  }
}
