/** Block exchange among all ranks: the grouped send/receive loop, and the guards of the MPI version. */
module AllToAll {
  import opened Common
  import opened MixedRadix

  /** off is an int added to the data pointer; it should name the block of the peer. */
  datatype GroupOp = Send(peer: nat, off: int, count: nat) | Recv(peer: nat, off: int, count: nat)

  /** The product of two ints, as an int. */
  function Offset(count: nat, p: nat): int {
    Narrow(count * p)
  }

  /** What one rank issues between group start and group end, for the first n peers. */
  function GroupOps(n: nat, count: nat): (r: seq<GroupOp>)
    ensures |r| == 2 * n
  {
    if n == 0 then []
    else
      GroupOps(n - 1, count) + [Send(n - 1, Offset(count, n - 1), count), Recv(n - 1, Offset(count, n - 1), count)]
  }

  /** The send to peer p, or the receive from it. */
  function Issued(n: nat, count: nat, p: nat, send: bool): GroupOp
    requires p < n
  {
    GroupOps(n, count)[if send then 2 * p else 2 * p + 1]
  }

  /** For each peer a send, then a receive, of the peer's block. */
  lemma {:induction false} OpAt(n: nat, count: nat, p: nat, send: bool)
    requires p < n
    ensures Issued(n, count, p, send)
      == if send then Send(p, Offset(count, p), count) else Recv(p, Offset(count, p), count)
    decreases n
  {
    if p < n - 1 { OpAt(n - 1, count, p, send); }
  }

  /** The largest offset fits an int. */
  predicate NoWrap(ranks: nat, count: nat) {
    ranks > 0 ==> count * (ranks - 1) <= INT_MAX
  }

  lemma OffsetExact(ranks: nat, count: nat, p: nat)
    requires p < ranks && NoWrap(ranks, count)
    ensures Offset(count, p) == count * p
  {
    MulMono(count, p, ranks - 1);
    NarrowExact(count * p);
  }

  /** Every issued send and receive starts at the peer's block. */
  ghost predicate OffsetsRight(ranks: nat, count: nat) {
    forall p: nat, send: bool :: p < ranks ==> Issued(ranks, count, p, send).off == count * p
  }

  /** All offsets are right exactly when the last of them fits an int. */
  lemma OffsetTheorem(ranks: nat, count: nat)
    ensures OffsetsRight(ranks, count) <==> NoWrap(ranks, count)
  {
    if NoWrap(ranks, count) {
      forall p: nat, send: bool | p < ranks ensures Issued(ranks, count, p, send).off == count * p {
        OpAt(ranks, count, p, send);
        OffsetExact(ranks, count, p);
      }
    } else {
      OpAt(ranks, count, ranks - 1, true);
      NarrowExact(count * (ranks - 1));
      assert Issued(ranks, count, ranks - 1, true).off != count * (ranks - 1);
    }
  }

  /** With three ranks and blocks of 2^30 the last send and the last receive start before the buffer. */
  lemma WrappedOffset()
    ensures Issued(3, 0x4000_0000, 2, true) == Send(2, -0x8000_0000, 0x4000_0000)
    ensures Issued(3, 0x4000_0000, 2, false) == Recv(2, -0x8000_0000, 0x4000_0000)
  {
    OpAt(3, 0x4000_0000, 2, true);
    OpAt(3, 0x4000_0000, 2, false);
  }

  lemma Halves(k: nat, n: nat) returns (p: nat, send: bool)
    requires k < 2 * n
    ensures p < n && k == if send then 2 * p else 2 * p + 1
  {
    p, send := k / 2, k % 2 == 0;
  }

  /** The block of peer p lies in the first ranks * count elements. */
  lemma BlockFits(ranks: nat, count: nat, p: nat)
    requires p < ranks
    ensures count * p + count <= count * ranks
  {
    MulStep(count, p, ranks);
  }

  /** The issuing loop; unless offsets wrap, every block it names lies within ranks * count elements. */
  method IssueGroup(ranks: nat, count: nat) returns (ops: seq<GroupOp>)
    ensures ops == GroupOps(ranks, count)
    ensures NoWrap(ranks, count) ==> OffsetsRight(ranks, count)
    ensures NoWrap(ranks, count) ==> forall k :: 0 <= k < |ops| ==> 0 <= ops[k].off <= count * ranks - ops[k].count
  {
    ops := [];
    for r := 0 to ranks
      invariant ops == GroupOps(r, count)
      invariant NoWrap(ranks, count) ==> forall k :: 0 <= k < |ops| ==> 0 <= ops[k].off <= count * ranks - ops[k].count
    {
      BlockFits(ranks, count, r);
      if NoWrap(ranks, count) { OffsetExact(ranks, count, r); }
      ops := ops + [Send(r, Offset(count, r), count), Recv(r, Offset(count, r), count)];
    }
    OffsetTheorem(ranks, count);
  }

  // ---------------------------------------------------------------- what the library does with a group

  /** How many of the first n operations are sends (or receives) with a peer. */
  function Earlier(ops: seq<GroupOp>, n: nat, send: bool, peer: nat): nat
    requires n <= |ops|
  {
    if n == 0 then 0
    else Earlier(ops, n - 1, send, peer) + if ops[n - 1].Send? == send && ops[n - 1].peer == peer then 1 else 0
  }

  /** Between two ranks the k-th send goes to the k-th receive. */
  ghost predicate Pairs(from: seq<GroupOp>, a: nat, dst: nat, to: seq<GroupOp>, b: nat, src: nat) {
    && a < |from| && b < |to| && from[a].Send? && to[b].Recv? && from[a].peer == dst && to[b].peer == src
    && Earlier(from, a, true, dst) == Earlier(to, b, false, src)
  }

  lemma {:induction false} EarlierAt(ranks: nat, count: nat, n: nat, send: bool, peer: nat)
    requires n <= 2 * ranks
    ensures Earlier(GroupOps(ranks, count), n, send, peer)
      == if (if send then 2 * peer else 2 * peer + 1) < n then 1 else 0
    decreases n
  {
    if n > 0 {
      EarlierAt(ranks, count, n - 1, send, peer);
      var p, sends := Halves(n - 1, ranks);
      OpAt(ranks, count, p, sends);
    }
  }

  /** The receive from rank i at rank j is paired with the send to j at i, and with nothing else. */
  lemma GroupPairs(ranks: nat, count: nat, i: nat, j: nat, a: nat, b: nat)
    requires i < ranks && j < ranks
    ensures Pairs(GroupOps(ranks, count), a, j, GroupOps(ranks, count), b, i) <==> a == 2 * j && b == 2 * i + 1
  {
    var ops := GroupOps(ranks, count);
    OpAt(ranks, count, j, true);
    OpAt(ranks, count, i, false);
    EarlierAt(ranks, count, 2 * j, true, j);
    EarlierAt(ranks, count, 2 * i + 1, false, i);
    if a < |ops| && b < |ops| {
      var p, sends := Halves(a, ranks);
      var q, sends' := Halves(b, ranks);
      OpAt(ranks, count, p, sends);
      OpAt(ranks, count, q, sends');
    }
  }

  // ---------------------------------------------------------------- the exchange

  ghost predicate Roomy(bufs: seq<seq<int>>, count: nat) {
    forall r :: 0 <= r < |bufs| ==> count * |bufs| <= |bufs[r]|
  }

  /** The blocks rank j is sent by the first n ranks, one after the other. */
  function Received(ins: seq<seq<int>>, count: nat, j: nat, n: nat): (r: seq<int>)
    requires Roomy(ins, count) && j < |ins| && n <= |ins|
  {
    if n == 0 then []
    else
      BlockFits(|ins|, count, j);
      Received(ins, count, j, n - 1) + ins[n - 1][count * j..count * j + count]
  }

  lemma {:induction false} ReceivedLength(ins: seq<seq<int>>, count: nat, j: nat, n: nat)
    requires Roomy(ins, count) && j < |ins| && n <= |ins|
    ensures |Received(ins, count, j, n)| == count * n
    decreases n
  {
    if n > 0 {
      ReceivedLength(ins, count, j, n - 1);
      NextBlock(count, n - 1);
      BlockFits(|ins|, count, j);
    }
  }

  lemma {:induction false} ReceivedPrefix(ins: seq<seq<int>>, count: nat, j: nat, m: nat, n: nat)
    requires Roomy(ins, count) && j < |ins| && m <= n <= |ins|
    ensures Received(ins, count, j, m) <= Received(ins, count, j, n)
    decreases n
  {
    if m < n { ReceivedPrefix(ins, count, j, m, n - 1); }
  }

  lemma ReceivedLast(ins: seq<seq<int>>, count: nat, j: nat, i: nat, from: nat, k: nat)
    requires Roomy(ins, count) && j < |ins| && i < |ins| && k < count && from == count * j
    ensures from + count <= |ins[i]| && |Received(ins, count, j, i)| + k < |Received(ins, count, j, i + 1)|
    ensures Received(ins, count, j, i + 1)[|Received(ins, count, j, i)| + k] == ins[i][from + k]
  {
    BlockFits(|ins|, count, j);
    var front, block := Received(ins, count, j, i), ins[i][from..from + count];
    assert Received(ins, count, j, i + 1) == front + block;
    assert (front + block)[|front| + k] == block[k];
  }

  lemma ReceivedEntry(ins: seq<seq<int>>, count: nat, j: nat, n: nat, i: nat, from: nat, k: nat)
    requires Roomy(ins, count) && j < |ins| && i < n <= |ins| && k < count && from == count * j
    ensures from + k < |ins[i]| && |Received(ins, count, j, i)| + k < |Received(ins, count, j, n)|
    ensures Received(ins, count, j, n)[|Received(ins, count, j, i)| + k] == ins[i][from + k]
  {
    ReceivedLast(ins, count, j, i, from, k);
    ReceivedPrefix(ins, count, j, i + 1, n);
  }

  /** Place k of block i at rank j holds place k of block j of rank i. */
  lemma ReceivedAt(ins: seq<seq<int>>, count: nat, j: nat, n: nat, i: nat, k: nat)
    requires Roomy(ins, count) && j < |ins| && i < n <= |ins| && k < count
    ensures count * i + k < |Received(ins, count, j, n)| && count * j + k < |ins[i]|
    ensures Received(ins, count, j, n)[count * i + k] == ins[i][count * j + k]
  {
    ReceivedLength(ins, count, j, i);
    ReceivedEntry(ins, count, j, n, i, count * j, k);
  }

  /** A receive buffer after the exchange: the blocks, then what was there before. */
  function AfterExchange(ins: seq<seq<int>>, count: nat, j: nat, held: seq<int>): seq<int>
    requires Roomy(ins, count) && j < |ins| && count * |ins| <= |held|
  {
    Received(ins, count, j, |ins|) + held[count * |ins|..]
  }

  /** Place k of block i holds what rank i had in place k of block j. */
  ghost predicate PlaceIs(ins: seq<seq<int>>, count: nat, j: nat, out: seq<int>, i: nat, k: nat) {
    && i < |ins| && count * i + k < |out| && count * j + k < |ins[i]|
    && out[count * i + k] == ins[i][count * j + k]
  }

  /** Rank j's buffer holds block j of every rank, by rank, and beyond the blocks what it held before. */
  ghost predicate Exchanged(ins: seq<seq<int>>, count: nat, j: nat, held: seq<int>, out: seq<int>) {
    && |out| == |held|
    && (forall i: nat, k: nat :: i < |ins| && k < count ==> PlaceIs(ins, count, j, out, i, k))
    && (forall p :: count * |ins| <= p < |out| ==> out[p] == held[p])
  }

  lemma AfterIsExchanged(ins: seq<seq<int>>, count: nat, j: nat, held: seq<int>)
    requires Roomy(ins, count) && j < |ins| && count * |ins| <= |held|
    ensures Exchanged(ins, count, j, held, AfterExchange(ins, count, j, held))
  {
    ReceivedLength(ins, count, j, |ins|);
    forall i: nat, k: nat | i < |ins| && k < count
      ensures PlaceIs(ins, count, j, AfterExchange(ins, count, j, held), i, k)
    {
      ReceivedAt(ins, count, j, |ins|, i, k);
    }
  }

  /** The send a receive is paired with. */
  method PairedSend(from: seq<GroupOp>, dst: nat, to: seq<GroupOp>, b: nat, src: nat) returns (a: nat)
    requires b < |to| && exists a: nat :: Pairs(from, a, dst, to, b, src)
    ensures Pairs(from, a, dst, to, b, src)
  {
    a := 0;
    while !(from[a].Send? && to[b].Recv? && from[a].peer == dst && to[b].peer == src
            && Earlier(from, a, true, dst) == Earlier(to, b, false, src))
      invariant exists e: nat :: e >= a && Pairs(from, e, dst, to, b, src)
      decreases |from| - a
    {
      a := a + 1;
    }
  }

  /** One message: the block is put where the blocks so far end. */
  method FillBlock(data: seq<int>, from: nat, rv: array<int>, to: nat, count: nat, limit: nat)
    requires from + count <= |data| && to + count <= limit <= rv.Length
    modifies rv
    ensures rv[..to + count] == old(rv[..to]) + data[from..from + count] && rv[limit..] == old(rv[limit..])
  {
    for k := 0 to count
      invariant rv[..to + k] == old(rv[..to]) + data[from..from + k] && rv[limit..] == old(rv[limit..])
    {
      rv[to + k] := data[from + k];
      assert rv[..to + k + 1] == rv[..to + k] + [rv[to + k]];
    }
  }

  lemma BlockSpot(ins: seq<seq<int>>, count: nat, j: nat, i: nat, from: int, at: int, limit: nat)
    requires Roomy(ins, count) && j < |ins| && i < |ins|
    requires from == count * j && at == count * i && limit == count * |ins|
    ensures 0 <= from && from + count <= |ins[i]| && 0 <= at && at + count <= limit
    ensures |Received(ins, count, j, i)| == at
    ensures Received(ins, count, j, i + 1) == Received(ins, count, j, i) + ins[i][from..from + count]
  {
    ReceivedLength(ins, count, j, i);
    BlockFits(|ins|, count, j);
    BlockFits(|ins|, count, i);
  }

  /** The next block of rank j, from rank i. */
  method NextFilled(ins: seq<seq<int>>, count: nat, j: nat, i: nat, rv: array<int>, from: int, at: int, limit: nat)
      returns (end: nat)
    requires Roomy(ins, count) && j < |ins| && i < |ins| && from == count * j && at == count * i
    requires limit == count * |ins| <= rv.Length && |Received(ins, count, j, i)| <= limit
    requires rv[..|Received(ins, count, j, i)|] == Received(ins, count, j, i)
    modifies rv
    ensures end == |Received(ins, count, j, i + 1)| <= limit && rv[..end] == Received(ins, count, j, i + 1)
    ensures rv[limit..] == old(rv[limit..])
  {
    BlockSpot(ins, count, j, i, from, at, limit);
    FillBlock(ins[i], from, rv, at, count, limit);
    end := at + count;
  }

  /** Where the receive from rank i puts its data, and where the send it is paired with takes them. */
  method Located(ops: seq<GroupOp>, ranks: nat, count: nat, j: nat, b: nat, i: nat) returns (from: int, to: int)
    requires ops == GroupOps(ranks, count) && i < ranks && j < ranks && b == 2 * i + 1 && OffsetsRight(ranks, count)
    ensures from == count * j && to == count * i
  {
    GroupPairs(ranks, count, i, j, 2 * j, b);
    var a := PairedSend(ops, j, ops, b, i);
    GroupPairs(ranks, count, i, j, a, b);
    assert ops[a] == Issued(ranks, count, j, true) && ops[b] == Issued(ranks, count, i, false);
    from, to := ops[a].off, ops[b].off;
  }

  /** One receive of rank j: the block from rank i is filled from the send it is paired with. */
  method FillFrom(ins: seq<seq<int>>, count: nat, ops: seq<GroupOp>, j: nat, b: nat, i: nat, rv: array<int>, limit: nat)
      returns (end: nat)
    requires Roomy(ins, count) && j < |ins| && i < |ins| && ops == GroupOps(|ins|, count) && b == 2 * i + 1
    requires limit == count * |ins| <= rv.Length && OffsetsRight(|ins|, count)
    requires |Received(ins, count, j, i)| <= limit
    requires rv[..|Received(ins, count, j, i)|] == Received(ins, count, j, i)
    modifies rv
    ensures end == |Received(ins, count, j, i + 1)| <= limit && rv[..end] == Received(ins, count, j, i + 1)
    ensures rv[limit..] == old(rv[limit..])
  {
    var from, to := Located(ops, |ins|, count, j, b, i);
    end := NextFilled(ins, count, j, i, rv, from, to, limit);
  }

  method FillAll(ins: seq<seq<int>>, count: nat, ops: seq<GroupOp>, j: nat, rv: array<int>, limit: nat)
    requires Roomy(ins, count) && j < |ins| && ops == GroupOps(|ins|, count) && limit == count * |ins| <= rv.Length
    requires OffsetsRight(|ins|, count)
    modifies rv
    ensures rv[..limit] == Received(ins, count, j, |ins|) && rv[limit..] == old(rv[limit..])
  {
    var end := 0;
    for i := 0 to |ins|
      invariant end == |Received(ins, count, j, i)| <= limit && rv[..end] == Received(ins, count, j, i)
      invariant rv[limit..] == old(rv[limit..])
    {
      end := FillFrom(ins, count, ops, j, 2 * i + 1, i, rv, limit);
    }
    ReceivedLength(ins, count, j, |ins|);
  }

  /**
   Rank j's side of the group end: each receive is filled from the send it is paired with. `ins` are
   the send buffers of all ranks, and `ops` is what each of them issued. Wrapped offsets would name
   memory that is not the peer's block, or none of the buffer's.
   */
  method GroupEnd(ins: seq<seq<int>>, count: nat, ops: seq<GroupOp>, j: nat, rv: array<int>, limit: nat)
    requires Roomy(ins, count) && j < |ins| && ops == GroupOps(|ins|, count) && limit == count * |ins| <= rv.Length
    requires NoWrap(|ins|, count)
    modifies rv
    ensures rv[..] == AfterExchange(ins, count, j, old(rv[..]))
    ensures Exchanged(ins, count, j, old(rv[..]), rv[..])
  {
    OffsetTheorem(|ins|, count);
    ghost var before := rv[..];
    FillAll(ins, count, ops, j, rv, limit);
    assert rv[..] == rv[..limit] + rv[limit..];
    assert before[limit..] == old(rv[limit..]);
    AfterIsExchanged(ins, count, j, before);
  }

  /** Through the group, what lies at the receive's offset is what lay at the paired send's. */
  lemma GroupReceivedAt(ins: seq<seq<int>>, count: nat, i: nat, j: nat, k: nat)
    requires Roomy(ins, count) && i < |ins| && j < |ins| && k < count && NoWrap(|ins|, count)
    ensures var s, r := Issued(|ins|, count, j, true).off, Issued(|ins|, count, i, false).off;
      && 0 <= s && s + k < |ins[i]| && 0 <= r && r + k < |Received(ins, count, j, |ins|)|
      && Received(ins, count, j, |ins|)[r + k] == ins[i][s + k]
  {
    OffsetTheorem(|ins|, count);
    ReceivedAt(ins, count, j, |ins|, i, k);
  }

  /** MPI_Alltoall, seen from rank j: the library finds the blocks itself. */
  method MpiAlltoall(ins: seq<seq<int>>, count: nat, j: nat, rv: array<int>, limit: nat)
    requires Roomy(ins, count) && j < |ins| && limit == count * |ins| <= rv.Length
    modifies rv
    ensures rv[..] == AfterExchange(ins, count, j, old(rv[..]))
    ensures Exchanged(ins, count, j, old(rv[..]), rv[..])
  {
    ghost var before := rv[..];
    var end := 0;
    for i := 0 to |ins|
      invariant end == |Received(ins, count, j, i)| <= limit && rv[..end] == Received(ins, count, j, i)
      invariant rv[limit..] == old(rv[limit..])
    {
      end := NextFilled(ins, count, j, i, rv, count * j, count * i, limit);
    }
    ReceivedLength(ins, count, j, |ins|);
    assert rv[..] == rv[..limit] + rv[limit..];
    assert before[limit..] == old(rv[limit..]);
    AfterIsExchanged(ins, count, j, before);
  }

  lemma NextBlock(count: nat, i: nat)
    ensures count * (i + 1) == count * i + count
  {}

  /** Every place lies in one block only, so each is written exactly once. */
  lemma SlotOnce(count: nat, i: nat, k: nat, i': nat, k': nat)
    requires k < count && k' < count && count * i + k == count * i' + k'
    ensures i == i' && k == k'
  {
    DivModUnique(count, i, k, i', k');
  }

  /** The receive buffers of all ranks, exchanged blocks only. */
  function AllReceived(ins: seq<seq<int>>, count: nat, n: nat): (r: seq<seq<int>>)
    requires Roomy(ins, count) && n <= |ins|
    ensures |r| == n && forall j :: 0 <= j < n ==> r[j] == Received(ins, count, j, |ins|)
  {
    if n == 0 then [] else AllReceived(ins, count, n - 1) + [Received(ins, count, n - 1, |ins|)]
  }

  lemma OutsRoomy(ins: seq<seq<int>>, count: nat)
    requires Roomy(ins, count)
    ensures Roomy(AllReceived(ins, count, |ins|), count)
  {
    forall j | 0 <= j < |ins| ensures count * |ins| <= |AllReceived(ins, count, |ins|)[j]| {
      ReceivedLength(ins, count, j, |ins|);
    }
  }

  /** Exchanging twice restores every rank's input. */
  lemma Involution(ins: seq<seq<int>>, count: nat, i: nat)
    requires Roomy(ins, count) && i < |ins|
    ensures var outs := AllReceived(ins, count, |ins|);
      Roomy(outs, count) && Received(outs, count, i, |ins|) == ins[i][..count * |ins|]
  {
    var n, outs := |ins|, AllReceived(ins, count, |ins|);
    OutsRoomy(ins, count);
    ReceivedLength(outs, count, i, n);
    var back := Received(outs, count, i, n);
    forall s | 0 <= s < count * n ensures back[s] == ins[i][..count * n][s] {
      var (j, k) := Split(s, count, n);
      ReceivedAt(outs, count, i, n, j, k);
      ReceivedAt(ins, count, j, n, i, k);
    }
  }

  // ---------------------------------------------------------------- the guards of the MPI version

  datatype Verdict = Passed | NotContiguous | SendTooLarge | RecvTooLarge

  /** The product of a count and the communicator size, in the arithmetic of an unsigned 64-bit size. */
  function Times(count: nat, ranks: nat): nat {
    (count * ranks) % SIZE_T
  }

  /** The guards, in the order they are tried. */
  function Guard(sContiguous: bool, rContiguous: bool, sendCount: nat, recvCount: nat, ranks: nat,
                 sExtent: nat, rExtent: nat): Verdict {
    if !sContiguous || !rContiguous then NotContiguous
    else if Times(sendCount, ranks) > sExtent then SendTooLarge
    else if Times(recvCount, ranks) > rExtent then RecvTooLarge
    else Passed
  }

  /** Passing the guards means that all blocks fit, whatever the extents, exactly when no product wraps. */
  lemma GuardTheorem(sendCount: nat, recvCount: nat, ranks: nat)
    requires sendCount < SIZE_T && recvCount < SIZE_T && ranks <= INT_MAX
    ensures (forall sExtent: nat, rExtent: nat ::
               sExtent < SIZE_T && rExtent < SIZE_T
               && Guard(true, true, sendCount, recvCount, ranks, sExtent, rExtent) == Passed ==>
                 sendCount * ranks <= sExtent && recvCount * ranks <= rExtent)
      <==> sendCount * ranks < SIZE_T && recvCount * ranks < SIZE_T
  {
    var s, r := sendCount * ranks, recvCount * ranks;
    if s < SIZE_T && r < SIZE_T {
      assert Times(sendCount, ranks) == s && Times(recvCount, ranks) == r;
    } else {
      assert Times(sendCount, ranks) < SIZE_T && Times(recvCount, ranks) < SIZE_T;
      assert Guard(true, true, sendCount, recvCount, ranks, Times(sendCount, ranks), Times(recvCount, ranks)) == Passed;
    }
  }

  /** With two ranks and blocks of 2^63 two empty views pass. */
  lemma GuardWraps()
    ensures Guard(true, true, 0x8000_0000_0000_0000, 0x8000_0000_0000_0000, 2, 0, 0) == Passed
  {
    assert 0x8000_0000_0000_0000 * 2 == SIZE_T;
  }

  /**
   The MPI alltoall, seen from rank j, with `count` elements per block at every rank. The library is
   handed the count as an int: it moves that many elements per block, and refuses a negative count.
   */
  method Alltoall(ins: seq<seq<int>>, j: nat, sContiguous: bool, rContiguous: bool, count: nat, rv: array<int>)
      returns (verdict: Verdict)
    requires j < |ins| && count * |ins| < SIZE_T
    requires forall r :: 0 <= r < |ins| && r != j ==> count * |ins| <= |ins[r]|
    modifies rv
    ensures verdict == Passed <==>
      sContiguous && rContiguous && count * |ins| <= |ins[j]| && count * |ins| <= rv.Length
    ensures verdict == NotContiguous <==> !(sContiguous && rContiguous)
    ensures verdict == SendTooLarge <==> sContiguous && rContiguous && count * |ins| > |ins[j]|
    ensures verdict == Passed && Narrow(count) >= 0 ==>
      Roomy(ins, Narrow(count)) && Narrow(count) * |ins| <= rv.Length
      && rv[..] == AfterExchange(ins, Narrow(count), j, old(rv[..]))
      && Exchanged(ins, Narrow(count), j, old(rv[..]), rv[..])
    ensures verdict != Passed || Narrow(count) < 0 ==> rv[..] == old(rv[..])
    ensures verdict == Passed && count <= INT_MAX ==>
      && Roomy(ins, count) && rv[..] == AfterExchange(ins, count, j, old(rv[..]))
      && Exchanged(ins, count, j, old(rv[..]), rv[..])
  {
    verdict := Guard(sContiguous, rContiguous, count, count, |ins|, |ins[j]|, rv.Length);
    if verdict != Passed {
      return;
    }
    var passed := Narrow(count);
    NarrowExact(count);
    if passed >= 0 {
      RoomyLess(ins, count, passed);
      MpiAlltoall(ins, passed, j, rv, passed * |ins|);
    }
  }

  lemma RoomyLess(ins: seq<seq<int>>, count: nat, less: nat)
    requires Roomy(ins, count) && less <= count
    ensures Roomy(ins, less) && less * |ins| <= count * |ins|
  {
    MulComm(less, |ins|);
    MulComm(count, |ins|);
    MulMono(|ins|, less, count);
  }

  /** Whatever the buffers hold, whole blocks are exchanged. */
  ghost predicate AlwaysWhole(ranks: nat, count: nat) {
    forall ins: seq<seq<int>>, j: nat, held: seq<int> | Full(ranks, count, ins, j, held) ::
      Narrow(count) >= 0 && Roomy(ins, Narrow(count)) && Narrow(count) * ranks <= |held|
      && AfterExchange(ins, Narrow(count), j, held) == AfterExchange(ins, count, j, held)
  }

  /** Buffers with room for all blocks. */
  ghost predicate Full(ranks: nat, count: nat, ins: seq<seq<int>>, j: nat, held: seq<int>) {
    |ins| == ranks && j < ranks && Roomy(ins, count) && count * ranks <= |held|
  }

  ghost function Copies(n: nat, s: seq<int>): (r: seq<seq<int>>)
    ensures |r| == n && forall k :: 0 <= k < n ==> r[k] == s
  {
    if n == 0 then [] else Copies(n - 1, s) + [s]
  }

  lemma TailKept(ins: seq<seq<int>>, count: nat, j: nat, held: seq<int>, p: nat)
    requires Roomy(ins, count) && j < |ins| && count * |ins| <= p < |held|
    ensures |AfterExchange(ins, count, j, held)| == |held| && AfterExchange(ins, count, j, held)[p] == held[p]
  {
    ReceivedLength(ins, count, j, |ins|);
  }

  lemma LastPlace(ins: seq<seq<int>>, count: nat, j: nat, held: seq<int>, last: nat, data: seq<int>)
    requires Roomy(ins, count) && j < |ins| && count > 0 && last + 1 == count * |ins| <= |held|
    requires data == ins[|ins| - 1] && forall p :: 0 <= p < |data| ==> data[p] == 1
    ensures last < |AfterExchange(ins, count, j, held)| && AfterExchange(ins, count, j, held)[last] == 1
  {
    NextBlock(count, |ins| - 1);
    ReceivedAt(ins, count, j, |ins|, |ins| - 1, count - 1);
  }

  /** Moving fewer elements per block leaves the last place as it was. */
  lemma ShortExchange(ranks: nat, count: nat, less: nat)
    requires ranks > 0 && less < count
    ensures var ins, held := Copies(ranks, Const(count * ranks, 1)), Const(count * ranks, 0);
      && Full(ranks, count, ins, 0, held) && Roomy(ins, less) && less * ranks <= |held|
      && AfterExchange(ins, less, 0, held) != AfterExchange(ins, count, 0, held)
  {
    var ins, held := Copies(ranks, Const(count * ranks, 1)), Const(count * ranks, 0);
    var last := count * ranks - 1;
    assert Full(ranks, count, ins, 0, held);
    RoomyLess(ins, count, less);
    ShortBlocks(ranks, count, less);
    TailKept(ins, less, 0, held, last);
    LastPlace(ins, count, 0, held, last, ins[ranks - 1]);
  }

  lemma ShortBlocks(ranks: nat, count: nat, less: nat)
    requires ranks > 0 && less < count
    ensures less * ranks < count * ranks
  {
    MulComm(less, ranks);
    MulComm(count, ranks);
    MulStep(ranks, less, count);
  }

  /** Whole blocks are exchanged for all contents exactly when the count fits the int it is handed over as. */
  lemma CountTheorem(ranks: nat, count: nat)
    requires ranks > 0
    ensures AlwaysWhole(ranks, count) <==> count <= INT_MAX
  {
    NarrowExact(count);
    if count > INT_MAX {
      var ins, held := Copies(ranks, Const(count * ranks, 1)), Const(count * ranks, 0);
      assert Full(ranks, count, ins, 0, held);
      if Narrow(count) >= 0 { ShortExchange(ranks, count, Narrow(count)); }
    }
  }
}
