/** What every reachable state of a ring of channels guarantees, whatever the interleaving. */
module RingSafety {
  import opened MixedRadix
  import opened Pigeonhole
  import opened Network
  import opened Ring

  // ---------------------------------------------------------------- invariant

  ghost predicate PeerOk(c: Config, p: Peer) {
    && |p.sent| == p.cycle && |p.sendBuf| == |p.recvBuf| == c.pairs
    && (forall x :: 0 <= x < |p.sent| ==> |p.sent[x]| == c.pairs)
    && (if p.active then p.cycle > 0 && p.sendBuf == p.sent[p.cycle - 1] else p.toSend == {} && p.toRecv == {})
  }

  ghost predicate LinesAt(c: Config, net: Net, p: Peer, marks: map<OpId, Mark>, r: nat) {
    && LineOk(c.pairs, c.inOrder, p.cycle, p.toSend, SendsOn(net, Out(c, r)), marks)
    && LineOk(c.pairs, c.inOrder, p.cycle, p.toRecv, RecvsOn(net, In(c, r)), marks)
  }

  ghost predicate RanksOk(c: Config, net: Net, peers: seq<Peer>, marks: map<OpId, Mark>) {
    && |peers| == |net.log| == c.ranks
    && (forall r {:trigger PeerOk(c, peers[r])} :: 0 <= r < |peers| ==> PeerOk(c, peers[r]))
    && (forall r {:trigger LinesAt(c, net, peers[r], marks, r)} ::
          0 <= r < |peers| ==> LinesAt(c, net, peers[r], marks, r))
  }

  /** The only operations a rank posts are sends to its successor and receives from its predecessor. */
  ghost predicate OpAt(c: Config, net: Net, id: OpId) {
    Posted(net, id) ==>
      OpOf(net, id) == if OpOf(net, id).Send? then Send(Succ(c, id.rank), c.tag) else Recv(Pred(c, id.rank), c.tag)
  }

  /** Whatever is not yet complete belongs to the current cycle of an active rank. */
  ghost predicate SettledAt(net: Net, peers: seq<Peer>, marks: map<OpId, Mark>, id: OpId) {
    Posted(net, id) && id !in net.done ==>
      && id in marks && id.rank < |peers| && peers[id.rank].active
      && marks[id].cycle == peers[id.rank].cycle - 1
  }

  /** Injected data is what the send buffer held at the start of its cycle. */
  ghost predicate WireAt(net: Net, peers: seq<Peer>, marks: map<OpId, Mark>, id: OpId) {
    id in net.wire ==>
      && id in marks && id.rank < |peers|
      && marks[id].cycle < |peers[id.rank].sent| && marks[id].slot < |peers[id.rank].sent[marks[id].cycle]|
      && net.wire[id] == peers[id.rank].sent[marks[id].cycle][marks[id].slot]
  }

  /** A completed receive was given the data of the send at its own place in the stream. */
  ghost predicate GotAt(c: Config, net: Net, marks: map<OpId, Mark>, got: map<OpId, seq<int>>, id: OpId) {
    && (id in net.done && Posted(net, id) && OpOf(net, id).Recv? ==> id in got)
    && (id in got ==>
          && Posted(net, id) && OpOf(net, id).Recv? && id in marks
          && marks[id].pos < |SendsOn(net, In(c, id.rank))|
          && var a := SendsOn(net, In(c, id.rank))[marks[id].pos]; a in net.wire && got[id] == net.wire[a])
  }

  /** The receive buffers hold what the receives of the current cycle were given. */
  ghost predicate BufAt(peers: seq<Peer>, marks: map<OpId, Mark>, got: map<OpId, seq<int>>, id: OpId) {
    id in got && id in marks && id.rank < |peers| && marks[id].cycle == peers[id.rank].cycle - 1 ==>
      && marks[id].slot < |peers[id.rank].recvBuf| && peers[id.rank].recvBuf[marks[id].slot] == got[id]
  }

  ghost predicate Inv(c: Config, s: State) {
    && NetInv(s.net)
    && RanksOk(c, s.net, s.peers, s.marks)
    && (forall id :: OpAt(c, s.net, id))
    && (forall id :: SettledAt(s.net, s.peers, s.marks, id))
    && (forall id :: WireAt(s.net, s.peers, s.marks, id))
    && (forall id :: GotAt(c, s.net, s.marks, s.got, id))
    && (forall id :: BufAt(s.peers, s.marks, s.got, id))
  }

  lemma InitLines(c: Config, net: Net, bufs: seq<seq<int>>, r: nat)
    requires c.pairs >= 1 && r < |net.log| && net.log[r] == []
    ensures LinesAt(c, net, IdlePeer(bufs), map[], r)
  {
    assert LogOf(net, r) == [];
    assert c.pairs * 0 == 0;
  }

  lemma InitOk(c: Config)
    requires ValidConfig(c)
    ensures Inv(c, Init(c))
  {
    var s := Init(c);
    InitInv(c.ranks);
    forall r | 0 <= r < c.ranks ensures PeerOk(c, s.peers[r]) && LinesAt(c, s.net, s.peers[r], s.marks, r) {
      InitLines(c, s.net, c.init[r], r);
    }
  }

  /** Where a posted operation stands in its stream. */
  lemma Place(c: Config, net: Net, peers: seq<Peer>, marks: map<OpId, Mark>, id: OpId)
    requires RanksOk(c, net, peers, marks) && Posted(net, id) && OpAt(c, net, id)
    ensures id in marks && marks[id].cycle < peers[id.rank].cycle && marks[id].slot < c.pairs
    ensures var ids := if OpOf(net, id).Send? then SendsOn(net, Out(c, id.rank)) else RecvsOn(net, In(c, id.rank));
      marks[id].pos < |ids| && ids[marks[id].pos] == id
  {
    var r, l := id.rank, LogOf(net, id.rank);
    assert LinesAt(c, net, peers[r], marks, r);
    var send := OpOf(net, id).Send?;
    var ids := if send then SendsOn(net, Out(c, r)) else RecvsOn(net, In(c, r));
    SelectMember(r, l, send, if send then Succ(c, r) else Pred(c, r), c.tag, id);
    assert id in ids;
    var j :| 0 <= j < |ids| && ids[j] == id;
  }

  // ---------------------------------------------------------------- steps at one rank

  /** Changing one rank's buffers and flags, but no record. */
  lemma PeerChange(c: Config, s: State, r: nat, p: Peer)
    requires RanksOk(c, s.net, s.peers, s.marks) && r < |s.peers|
    requires PeerOk(c, p) && LinesAt(c, s.net, p, s.marks, r)
    ensures RanksOk(c, s.net, s.peers[r := p], s.marks)
  {
    var peers' := s.peers[r := p];
    forall q | 0 <= q < |peers'| ensures PeerOk(c, peers'[q]) && LinesAt(c, s.net, peers'[q], s.marks, q) {
      if q != r { assert peers'[q] == s.peers[q]; }
    }
  }

  lemma WriteOk(c: Config, s: State, r: nat, k: nat, data: seq<int>)
    requires ValidConfig(c) && Inv(c, s) && Enabled(c, s, WriteBuffer(r, k, data))
    ensures Inv(c, Apply(c, s, WriteBuffer(r, k, data)))
  {
    var p := s.peers[r].(sendBuf := s.peers[r].sendBuf[k := data]);
    assert PeerOk(c, s.peers[r]) && LinesAt(c, s.net, s.peers[r], s.marks, r);
    PeerChange(c, s, r, p);
    var peers' := s.peers[r := p];
    forall id ensures SettledAt(s.net, peers', s.marks, id) { assert SettledAt(s.net, s.peers, s.marks, id); }
    forall id ensures WireAt(s.net, peers', s.marks, id) { assert WireAt(s.net, s.peers, s.marks, id); }
    forall id ensures BufAt(peers', s.marks, s.got, id) { assert BufAt(s.peers, s.marks, s.got, id); }
  }

  lemma StartRanks(c: Config, s: State, r: nat)
    requires RanksOk(c, s.net, s.peers, s.marks) && r < |s.peers| && !s.peers[r].active
    ensures RanksOk(c, s.net, s.peers[r := Starting(c, s.peers[r])], s.marks)
  {
    var p := s.peers[r];
    assert PeerOk(c, p) && LinesAt(c, s.net, p, s.marks, r);
    LineStart(c.pairs, c.inOrder, p.cycle, SendsOn(s.net, Out(c, r)), s.marks);
    LineStart(c.pairs, c.inOrder, p.cycle, RecvsOn(s.net, In(c, r)), s.marks);
    PeerChange(c, s, r, Starting(c, p));
  }

  lemma StartOk(c: Config, s: State, r: nat)
    requires ValidConfig(c) && Inv(c, s) && Enabled(c, s, Start(r))
    ensures Inv(c, Apply(c, s, Start(r)))
  {
    StartRanks(c, s, r);
    var p := s.peers[r];
    assert PeerOk(c, p);
    var peers' := s.peers[r := Starting(c, p)];
    forall id ensures SettledAt(s.net, peers', s.marks, id) { assert SettledAt(s.net, s.peers, s.marks, id); }
    forall id ensures WireAt(s.net, peers', s.marks, id) { assert WireAt(s.net, s.peers, s.marks, id); }
    forall id ensures BufAt(peers', s.marks, s.got, id) {
      assert BufAt(s.peers, s.marks, s.got, id) && GotAt(c, s.net, s.marks, s.got, id);
      if id in s.got && id.rank == r {
        assert OpAt(c, s.net, id);
        Place(c, s.net, s.peers, s.marks, id);
      }
    }
  }

  lemma WaitOk(c: Config, s: State, r: nat)
    requires ValidConfig(c) && Inv(c, s) && Enabled(c, s, WaitReturns(r))
    ensures Inv(c, Apply(c, s, WaitReturns(r)))
  {
    var p := s.peers[r].(active := false);
    assert PeerOk(c, s.peers[r]) && LinesAt(c, s.net, s.peers[r], s.marks, r);
    PeerChange(c, s, r, p);
    var peers' := s.peers[r := p];
    forall id ensures SettledAt(s.net, peers', s.marks, id) {
      assert SettledAt(s.net, s.peers, s.marks, id);
      if Posted(s.net, id) && id.rank == r { assert OpId(r, id.idx) == id; }
    }
    forall id ensures WireAt(s.net, peers', s.marks, id) { assert WireAt(s.net, s.peers, s.marks, id); }
    forall id ensures BufAt(peers', s.marks, s.got, id) { assert BufAt(s.peers, s.marks, s.got, id); }
  }

  // ---------------------------------------------------------------- beginning a request

  lemma FreshId(net: Net, r: nat, s: Stream)
    requires r < |net.log|
    ensures OpId(r, |net.log[r]|) !in SendsOn(net, s) && OpId(r, |net.log[r]|) !in RecvsOn(net, s)
  {
    var id := OpId(r, |net.log[r]|);
    SelectMember(s.src, LogOf(net, s.src), true, s.dst, s.tag, id);
    SelectMember(s.dst, LogOf(net, s.dst), false, s.src, s.tag, id);
  }

  /** A line gets the new operation, if it is its own, or stays as it is. */
  lemma LineGrows(n: nat, inOrder: bool, cycle: nat, todo: set<nat>, ids: seq<OpId>, ids': seq<OpId>,
                  marks: map<OpId, Mark>, id: OpId, mark: Mark, k: nat, own: bool)
    requires LineOk(n, inOrder, cycle, todo, ids, marks) && id !in ids
    requires own ==> cycle > 0 && k in todo && (inOrder ==> forall l :: l in todo ==> k <= l)
    requires own ==> mark == Mark(cycle - 1, k, |ids|)
    requires ids' == if own then ids + [id] else ids
    ensures LineOk(n, inOrder, cycle, if own then todo - {k} else todo, ids', marks[id := mark])
  {
    if own {
      LinePost(n, inOrder, cycle, todo, ids, marks, id, k);
    } else {
      LineFrame(n, inOrder, cycle, todo, ids, marks, id, mark);
    }
  }

  /** A rank that begins request k on one side keeps the send line of every rank ... */
  lemma BeginSendLine(c: Config, s: State, r: nat, k: nat, send: bool, q: nat)
    requires r < |s.net.log| && q < |s.peers| && |s.peers| == |s.net.log|
    requires s.peers[r].cycle > 0 && MayBegin(c, if send then s.peers[r].toSend else s.peers[r].toRecv, k)
    requires LinesAt(c, s.net, s.peers[q], s.marks, q)
    ensures var s' := if send then BeginningSend(c, s, r, k) else BeginningRecv(c, s, r, k);
      LineOk(c.pairs, c.inOrder, s'.peers[q].cycle, s'.peers[q].toSend, SendsOn(s'.net, Out(c, q)), s'.marks)
  {
    var s' := if send then BeginningSend(c, s, r, k) else BeginningRecv(c, s, r, k);
    var p, id := s.peers[q], OpId(r, |s.net.log[r]|);
    PostStreams(s.net, r, if send then Send(Succ(c, r), c.tag) else Recv(Pred(c, r), c.tag), Out(c, q));
    FreshId(s.net, r, Out(c, q));
    LineGrows(c.pairs, c.inOrder, p.cycle, p.toSend, SendsOn(s.net, Out(c, q)), SendsOn(s'.net, Out(c, q)), s.marks, id,
              s'.marks[id], k, q == r && send);
  }

  /** ... and the receive line. */
  lemma BeginRecvLine(c: Config, s: State, r: nat, k: nat, send: bool, q: nat)
    requires r < |s.net.log| && q < |s.peers| && |s.peers| == |s.net.log|
    requires s.peers[r].cycle > 0 && MayBegin(c, if send then s.peers[r].toSend else s.peers[r].toRecv, k)
    requires LinesAt(c, s.net, s.peers[q], s.marks, q)
    ensures var s' := if send then BeginningSend(c, s, r, k) else BeginningRecv(c, s, r, k);
      LineOk(c.pairs, c.inOrder, s'.peers[q].cycle, s'.peers[q].toRecv, RecvsOn(s'.net, In(c, q)), s'.marks)
  {
    var s' := if send then BeginningSend(c, s, r, k) else BeginningRecv(c, s, r, k);
    var p, id := s.peers[q], OpId(r, |s.net.log[r]|);
    PostStreams(s.net, r, if send then Send(Succ(c, r), c.tag) else Recv(Pred(c, r), c.tag), In(c, q));
    FreshId(s.net, r, In(c, q));
    LineGrows(c.pairs, c.inOrder, p.cycle, p.toRecv, RecvsOn(s.net, In(c, q)), RecvsOn(s'.net, In(c, q)), s.marks, id,
              s'.marks[id], k, q == r && !send);
  }

  lemma BeginRanks(c: Config, s: State, r: nat, k: nat, send: bool)
    requires RanksOk(c, s.net, s.peers, s.marks) && r < |s.peers| && s.peers[r].active
    requires MayBegin(c, if send then s.peers[r].toSend else s.peers[r].toRecv, k)
    ensures var s' := if send then BeginningSend(c, s, r, k) else BeginningRecv(c, s, r, k);
      RanksOk(c, s'.net, s'.peers, s'.marks)
  {
    var s' := if send then BeginningSend(c, s, r, k) else BeginningRecv(c, s, r, k);
    assert PeerOk(c, s.peers[r]);
    forall q | 0 <= q < |s'.peers| ensures PeerOk(c, s'.peers[q]) && LinesAt(c, s'.net, s'.peers[q], s'.marks, q) {
      assert PeerOk(c, s.peers[q]) && LinesAt(c, s.net, s.peers[q], s.marks, q);
      BeginSendLine(c, s, r, k, send, q);
      BeginRecvLine(c, s, r, k, send, q);
    }
  }

  /** What is recorded about operations already posted stays as it is. */
  lemma BeginPosted(c: Config, s: State, r: nat, k: nat, send: bool, id: OpId)
    requires Inv(c, s) && r < |s.peers| && s.peers[r].active
    ensures var s' := if send then BeginningSend(c, s, r, k) else BeginningRecv(c, s, r, k);
      OpAt(c, s'.net, id) && SettledAt(s'.net, s'.peers, s'.marks, id)
  {
    assert PeerOk(c, s.peers[r]);
    assert OpAt(c, s.net, id) && SettledAt(s.net, s.peers, s.marks, id);
  }

  lemma BeginData(c: Config, s: State, r: nat, k: nat, send: bool, id: OpId)
    requires Inv(c, s) && r < |s.peers| && s.peers[r].active
    ensures var s' := if send then BeginningSend(c, s, r, k) else BeginningRecv(c, s, r, k);
      WireAt(s'.net, s'.peers, s'.marks, id) && BufAt(s'.peers, s'.marks, s'.got, id)
  {
    assert WireAt(s.net, s.peers, s.marks, id) && BufAt(s.peers, s.marks, s.got, id);
    assert GotAt(c, s.net, s.marks, s.got, id);
    assert !Posted(s.net, OpId(r, |s.net.log[r]|));
    assert id in s.net.wire ==> Posted(s.net, id);
  }

  lemma BeginGot(c: Config, s: State, r: nat, k: nat, send: bool, id: OpId)
    requires Inv(c, s) && r < |s.peers| && s.peers[r].active
    ensures var s' := if send then BeginningSend(c, s, r, k) else BeginningRecv(c, s, r, k);
      GotAt(c, s'.net, s'.marks, s'.got, id)
  {
    assert GotAt(c, s.net, s.marks, s.got, id);
    var newId := OpId(r, |s.net.log[r]|);
    var op := if send then Send(Succ(c, r), c.tag) else Recv(Pred(c, r), c.tag);
    assert !Posted(s.net, newId);
    assert newId !in s.net.done;
    PostStreams(s.net, r, op, In(c, id.rank));
  }

  lemma BeginOk(c: Config, s: State, r: nat, k: nat, send: bool)
    requires ValidConfig(c) && Inv(c, s) && Enabled(c, s, if send then BeginSend(r, k) else BeginRecv(r, k))
    ensures Inv(c, if send then BeginningSend(c, s, r, k) else BeginningRecv(c, s, r, k))
  {
    var s' := if send then BeginningSend(c, s, r, k) else BeginningRecv(c, s, r, k);
    PostInv(s.net, r, if send then Send(Succ(c, r), c.tag) else Recv(Pred(c, r), c.tag));
    BeginRanks(c, s, r, k, send);
    forall id
      ensures OpAt(c, s'.net, id) && SettledAt(s'.net, s'.peers, s'.marks, id)
      ensures WireAt(s'.net, s'.peers, s'.marks, id) && BufAt(s'.peers, s'.marks, s'.got, id)
      ensures GotAt(c, s'.net, s'.marks, s'.got, id)
    {
      BeginPosted(c, s, r, k, send, id);
      BeginData(c, s, r, k, send, id);
      BeginGot(c, s, r, k, send, id);
    }
  }

  // ---------------------------------------------------------------- network steps

  /** Steps that post nothing keep the record of posts. */
  lemma SameLog(c: Config, s: State, net': Net)
    requires RanksOk(c, s.net, s.peers, s.marks) && net'.log == s.net.log
    ensures RanksOk(c, net', s.peers, s.marks)
  {
    forall r | 0 <= r < |s.peers| ensures LinesAt(c, net', s.peers[r], s.marks, r) {
      assert LinesAt(c, s.net, s.peers[r], s.marks, r);
    }
  }

  lemma InjectedData(c: Config, s: State, id: OpId)
    requires Inv(c, s) && CanInject(s.net, id)
    ensures WireAt(Inject(s.net, id, Reading(s, id)), s.peers, s.marks, id)
  {
    assert SettledAt(s.net, s.peers, s.marks, id) && OpAt(c, s.net, id);
    assert id !in s.net.done;
    Place(c, s.net, s.peers, s.marks, id);
    assert PeerOk(c, s.peers[id.rank]);
  }

  lemma InjectOk(c: Config, s: State, id: OpId)
    requires ValidConfig(c) && Inv(c, s) && CanInject(s.net, id)
    ensures Inv(c, s.(net := Inject(s.net, id, Reading(s, id))))
  {
    var net' := Inject(s.net, id, Reading(s, id));
    InjectInv(s.net, id, Reading(s, id));
    SameLog(c, s, net');
    InjectedData(c, s, id);
    forall i
      ensures OpAt(c, net', i) && SettledAt(net', s.peers, s.marks, i)
      ensures WireAt(net', s.peers, s.marks, i) && GotAt(c, net', s.marks, s.got, i)
    {
      assert OpAt(c, s.net, i) && SettledAt(s.net, s.peers, s.marks, i);
      assert WireAt(s.net, s.peers, s.marks, i) && GotAt(c, s.net, s.marks, s.got, i);
    }
  }

  lemma MatchOk(c: Config, s: State, t: Stream)
    requires ValidConfig(c) && Inv(c, s) && CanMatch(s.net, t)
    ensures Inv(c, s.(net := Match(s.net, t)))
  {
    var net' := Match(s.net, t);
    MatchInv(s.net, t);
    SameLog(c, s, net');
    forall i
      ensures OpAt(c, net', i) && SettledAt(net', s.peers, s.marks, i)
      ensures WireAt(net', s.peers, s.marks, i) && GotAt(c, net', s.marks, s.got, i)
    {
      assert OpAt(c, s.net, i) && SettledAt(s.net, s.peers, s.marks, i);
      assert WireAt(s.net, s.peers, s.marks, i) && GotAt(c, s.net, s.marks, s.got, i);
    }
  }

  lemma SendDoneOk(c: Config, s: State, id: OpId)
    requires ValidConfig(c) && Inv(c, s) && CanCompleteSend(s.net, id, c.sync)
    ensures Inv(c, s.(net := Complete(s.net, id)))
  {
    var net' := Complete(s.net, id);
    assert Posted(s.net, id) && OpOf(s.net, id).Send?;
    CompleteInv(s.net, id);
    SameLog(c, s, net');
    forall i
      ensures OpAt(c, net', i) && SettledAt(net', s.peers, s.marks, i)
      ensures WireAt(net', s.peers, s.marks, i) && GotAt(c, net', s.marks, s.got, i)
    {
      assert OpAt(c, s.net, i) && SettledAt(s.net, s.peers, s.marks, i);
      assert WireAt(s.net, s.peers, s.marks, i) && GotAt(c, s.net, s.marks, s.got, i);
    }
  }

  /** A matched pair stands at the same place of the sender's and the receiver's record. */
  lemma MatchedPlace(c: Config, s: State, t: Stream, j: nat)
    requires Inv(c, s) && CanCompleteRecv(s.net, t, j)
    ensures var a, b := s.net.sentm[t][j], s.net.recvm[t][j];
      && Posted(s.net, b) && OpOf(s.net, b).Recv? && b in s.net.matched && t == In(c, b.rank)
      && b in s.marks && s.marks[b].pos == j && j < |SendsOn(s.net, t)| && SendsOn(s.net, t)[j] == a
  {
    assert Ordered(s.net, t);
    NonOvertaking(s.net, t, j);
    var b := s.net.recvm[t][j];
    SelectMember(t.dst, LogOf(s.net, t.dst), false, t.src, t.tag, b);
    assert InPairs(s.net, b, t);
    assert OpAt(c, s.net, b);
    assert LinesAt(c, s.net, s.peers[b.rank], s.marks, b.rank);
  }

  lemma ReceivePeers(c: Config, s: State, b: OpId, data: seq<int>)
    requires Inv(c, s) && Posted(s.net, b)
    ensures var s' := Receiving(s, b, data); RanksOk(c, s'.net, s'.peers, s'.marks)
  {
    var s' := Receiving(s, b, data);
    SameLog(c, s, s'.net);
    assert PeerOk(c, s.peers[b.rank]) && LinesAt(c, s'.net, s.peers[b.rank], s.marks, b.rank);
    PeerChange(c, s.(net := s'.net), b.rank, s'.peers[b.rank]);
  }

  /** Two receives of one cycle of one rank use different buffers. */
  lemma SlotsDiffer(c: Config, s: State, a: OpId, b: OpId)
    requires Inv(c, s) && Posted(s.net, a) && Posted(s.net, b) && OpOf(s.net, a).Recv? && OpOf(s.net, b).Recv?
    requires a.rank == b.rank && a != b && a in s.marks && b in s.marks && s.marks[a].cycle == s.marks[b].cycle
    ensures s.marks[a].slot != s.marks[b].slot
  {
    assert OpAt(c, s.net, a) && OpAt(c, s.net, b) && LinesAt(c, s.net, s.peers[a.rank], s.marks, a.rank);
    Place(c, s.net, s.peers, s.marks, a);
    Place(c, s.net, s.peers, s.marks, b);
    var ids, i, j := RecvsOn(s.net, In(c, a.rank)), s.marks[a].pos, s.marks[b].pos;
    assert ids[i] == a && ids[j] == b;
  }

  lemma ReceiveBuf(c: Config, s: State, b: OpId, data: seq<int>, id: OpId)
    requires Inv(c, s) && Posted(s.net, b) && OpOf(s.net, b).Recv? && b !in s.net.done
    ensures var s' := Receiving(s, b, data); BufAt(s'.peers, s'.marks, s'.got, id)
  {
    assert BufAt(s.peers, s.marks, s.got, id) && GotAt(c, s.net, s.marks, s.got, id);
    assert SettledAt(s.net, s.peers, s.marks, b) && OpAt(c, s.net, b) && PeerOk(c, s.peers[b.rank]);
    Place(c, s.net, s.peers, s.marks, b);
    if id != b && id in s.got && id.rank == b.rank && s.marks[id].cycle == s.marks[b].cycle {
      SlotsDiffer(c, s, id, b);
    }
  }

  lemma ReceiveRecords(c: Config, s: State, b: OpId, data: seq<int>, id: OpId)
    requires Inv(c, s) && Posted(s.net, b)
    ensures var s' := Receiving(s, b, data);
      OpAt(c, s'.net, id) && SettledAt(s'.net, s'.peers, s'.marks, id) && WireAt(s'.net, s'.peers, s'.marks, id)
  {
    assert OpAt(c, s.net, id) && SettledAt(s.net, s.peers, s.marks, id) && WireAt(s.net, s.peers, s.marks, id);
  }

  lemma ReceiveGot(c: Config, s: State, t: Stream, j: nat, id: OpId)
    requires Inv(c, s) && CanCompleteRecv(s.net, t, j)
    ensures var s' := Receiving(s, s.net.recvm[t][j], s.net.wire[s.net.sentm[t][j]]);
      GotAt(c, s'.net, s'.marks, s'.got, id)
  {
    MatchedPlace(c, s, t, j);
    assert GotAt(c, s.net, s.marks, s.got, id);
  }

  lemma RecvDoneOk(c: Config, s: State, t: Stream, j: nat)
    requires ValidConfig(c) && Inv(c, s) && CanCompleteRecv(s.net, t, j)
    ensures Inv(c, Receiving(s, s.net.recvm[t][j], s.net.wire[s.net.sentm[t][j]]))
  {
    var b, data := s.net.recvm[t][j], s.net.wire[s.net.sentm[t][j]];
    var s' := Receiving(s, b, data);
    MatchedPlace(c, s, t, j);
    CompleteInv(s.net, b);
    ReceivePeers(c, s, b, data);
    forall id
      ensures OpAt(c, s'.net, id) && SettledAt(s'.net, s'.peers, s'.marks, id)
      ensures WireAt(s'.net, s'.peers, s'.marks, id) && BufAt(s'.peers, s'.marks, s'.got, id)
      ensures GotAt(c, s'.net, s'.marks, s'.got, id)
    {
      ReceiveRecords(c, s, b, data, id);
      ReceiveGot(c, s, t, j, id);
      ReceiveBuf(c, s, b, data, id);
    }
  }

  /** Every step of every rank and of the network keeps the invariant. */
  lemma StepOk(c: Config, s: State, st: Step)
    requires ValidConfig(c) && Inv(c, s) && Enabled(c, s, st)
    ensures Inv(c, Apply(c, s, st))
  {
    match st
    case WriteBuffer(r, k, data) => WriteOk(c, s, r, k, data);
    case Start(r) => StartOk(c, s, r);
    case BeginSend(r, k) => BeginOk(c, s, r, k, true);
    case BeginRecv(r, k) => BeginOk(c, s, r, k, false);
    case InjectSend(id) => InjectOk(c, s, id);
    case MatchHeads(t) => MatchOk(c, s, t);
    case SendDone(id) => SendDoneOk(c, s, id);
    case RecvDone(t, j) => RecvDoneOk(c, s, t, j);
    case WaitReturns(r) => WaitOk(c, s, r);
  }

  lemma {:induction false} ReachableOk(c: Config, steps: seq<Step>, s: State)
    requires ValidConfig(c) && Reaches(c, steps, s)
    ensures Inv(c, s)
    decreases |steps|
  {
    if steps == [] {
      InitOk(c);
    } else {
      var front, last := steps[..|steps| - 1], steps[|steps| - 1];
      var p :| Reaches(c, front, p) && Enabled(c, p, last) && s == Apply(c, p, last);
      ReachableOk(c, front, p);
      StepOk(c, p, last);
    }
  }
}
