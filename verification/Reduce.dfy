/**
 Reduction to a root over views of rank at most one. Section 5.9 of MPI 3.1: element by element,
 the root's receive buffer gets the contributions of all ranks combined in rank order, and the
 receive buffers of the other ranks are not significant.
 */
module Reduce {
  import opened Common
  import opened MixedRadix
  import opened StridedView
  import opened Packer
  import opened Requests
  import P2P = PointToPoint

  type Operator = (int, int) -> int

  /** x0 op x1 op ... in this order. */
  function Fold(op: Operator, xs: seq<int>): int
    requires xs != []
  {
    if |xs| == 1 then xs[0] else op(Fold(op, xs[..|xs| - 1]), xs[|xs| - 1])
  }

  /** acc runs up the combination: it starts with the first value and takes in the others one by one. */
  ghost predicate RunsUp(op: Operator, xs: seq<int>, acc: seq<int>) {
    && |acc| == |xs| > 0 && acc[0] == xs[0]
    && forall q :: 1 <= q < |xs| ==> acc[q] == op(acc[q - 1], xs[q])
  }

  lemma {:induction false} FoldRunsUp(op: Operator, xs: seq<int>, acc: seq<int>)
    requires RunsUp(op, xs, acc)
    ensures Fold(op, xs) == acc[|acc| - 1]
    decreases |xs|
  {
    var n := |xs| - 1;
    if n > 0 { FoldRunsUp(op, xs[..n], acc[..n]); }
  }

  /** The sum of a list, from its first element on. */
  function Sum(xs: seq<int>): int {
    if xs == [] then 0 else xs[0] + Sum(xs[1..])
  }

  lemma {:induction false} SumSnoc(xs: seq<int>, x: int)
    ensures Sum(xs + [x]) == Sum(xs) + x
  {
    var all := xs + [x];
    if xs != [] {
      SumSnoc(xs[1..], x);
      assert all[1..] == xs[1..] + [x];
    } else {
      assert all[1..] == [];
    }
  }

  ghost predicate Adds(op: Operator) {
    forall a, b :: op(a, b) == a + b
  }

  /** Combining with addition adds up. */
  lemma {:induction false} FoldSums(op: Operator, xs: seq<int>)
    requires xs != [] && Adds(op)
    ensures Fold(op, xs) == Sum(xs)
    decreases |xs|
  {
    var n := |xs| - 1;
    assert xs == xs[..n] + [xs[n]];
    SumSnoc(xs[..n], xs[n]);
    if n > 0 { FoldSums(op, xs[..n]); }
  }

  ghost predicate Even(data: seq<seq<int>>, n: nat) {
    data != [] && forall r :: 0 <= r < |data| ==> |data[r]| == n
  }

  ghost predicate Wide(data: seq<seq<int>>, n: nat) {
    forall r :: 0 <= r < |data| ==> n <= |data[r]|
  }

  /** The k-th element of every rank. */
  function Column(data: seq<seq<int>>, k: nat): (r: seq<int>)
    requires Wide(data, k + 1)
    ensures |r| == |data| && forall q :: 0 <= q < |r| ==> r[q] == data[q][k]
  {
    if data == [] then [] else [data[0][k]] + Column(data[1..], k)
  }

  function CombinedAt(op: Operator, data: seq<seq<int>>, k: nat): int
    requires data != [] && Wide(data, k + 1)
  {
    Fold(op, Column(data, k))
  }

  /** What the library puts in the first n places of the root's receive buffer. */
  function Combined(op: Operator, data: seq<seq<int>>, n: nat): (r: seq<int>)
    requires data != [] && Wide(data, n)
    ensures |r| == n && forall k {:trigger r[k]} :: 0 <= k < n ==> r[k] == CombinedAt(op, data, k)
  {
    if n == 0 then [] else Combined(op, data, n - 1) + [CombinedAt(op, data, n - 1)]
  }

  /** A rank's part in a reduction: who it is, who the root is, and what the ranks contribute. */
  datatype Role = Role(rank: nat, root: nat, op: Operator, contributions: seq<seq<int>>)

  ghost predicate ValidRole(role: Role, n: nat) {
    Even(role.contributions, n) && role.rank < |role.contributions| && role.root < |role.contributions|
  }

  /** What the root is given, with this rank contributing `own`. */
  function Result(role: Role, own: seq<int>): (r: seq<int>)
    requires ValidRole(role, |own|)
    ensures |r| == |own|
  {
    Combined(role.op, role.contributions[role.rank := own], |own|)
  }

  /** The rank's receive buffer when the library is done. */
  function Delivered(role: Role, own: seq<int>, buf: seq<int>, off: nat): (r: seq<int>)
    requires ValidRole(role, |own|) && (role.rank == role.root ==> off + |own| <= |buf|)
    ensures |r| == |buf|
  {
    if role.rank == role.root then Splice(buf, off, Result(role, own)) else buf
  }

  /** MPI_Reduce of n elements, seen from one rank, whose send buffer holds `own`. */
  method MpiReduce(sbuf: array<int>, soff: nat, rbuf: array<int>, roff: nat, n: nat, role: Role, ghost own: seq<int>)
    requires ValidRole(role, n) && soff + n <= sbuf.Length && (role.rank == role.root ==> roff + n <= rbuf.Length)
    requires |own| == n && sbuf[soff..soff + n] == own
    modifies rbuf
    ensures rbuf[..] == Delivered(role, own, old(rbuf[..]), roff)
  {
    if role.rank == role.root {
      var result := Result(role, sbuf[soff..soff + n]);
      forall k | 0 <= k < n {
        rbuf[roff + k] := result[k];
      }
    }
  }

  /**
   A rank's view of sends and receives: at most one dimension, room for them, equal sizes at the root,
   and a number of elements that fits the int it is handed over as.
   */
  ghost predicate Suitable(sv: View, slen: nat, rv: View, rlen: nat, role: Role) {
    && Fits(sv, slen) && |sv.extents| <= 1 && ValidRole(role, Size(sv)) && Size(sv) <= INT_MAX
    && (role.rank == role.root ==> Fits(rv, rlen) && |rv.extents| <= 1 && Size(rv) == Size(sv))
    && Valid(rv)
  }

  /** The receive side of a reduction. */
  function Landed(own: seq<int>, rmem: seq<int>, rv: View, rl: Layout, role: Role): (r: seq<int>)
    requires ValidRole(role, |own|) && (role.rank == role.root ==> Fits(rv, |rmem|) && Size(rv) == |own|)
    ensures |r| == |rmem|
  {
    if role.rank == role.root then Receive(rmem, rv, rl, Result(role, own)) else rmem
  }

  /** The receiving allocation after a reduction. */
  function Reduced(smem: seq<int>, sv: View, sl: Layout, rmem: seq<int>, rv: View, rl: Layout, role: Role): (r: seq<int>)
    requires Suitable(sv, |smem|, rv, |rmem|, role)
    ensures |r| == |rmem|
  {
    Landed(WireOf(smem, sv, sl), rmem, rv, rl, role)
  }

  // ---------------------------------------------------------------- what each rank ends up with

  /** What the ranks put in for element k: this rank `mine`, the others their contributions. */
  ghost predicate Inputs(role: Role, mine: int, k: nat, xs: seq<int>) {
    && |xs| == |role.contributions|
    && forall q :: 0 <= q < |xs| ==>
         if q == role.rank then xs[q] == mine else k < |role.contributions[q]| && xs[q] == role.contributions[q][k]
  }

  /** Element k of rv is what running up op over the ranks, from rank 0 on, arrives at; with addition, their sum. */
  ghost predicate ElementReduced(role: Role, smem: seq<int>, sv: View, out: seq<int>, rv: View, k: nat)
    requires Valid(sv) && |sv.extents| <= 1 && Valid(rv) && |rv.extents| <= 1
  {
    && Element(sv, k) < |smem| && Element(rv, k) < |out|
    && (forall xs: seq<int>, acc: seq<int> | Inputs(role, smem[Element(sv, k)], k, xs) && RunsUp(role.op, xs, acc) ::
          out[Element(rv, k)] == acc[|acc| - 1])
    && (Adds(role.op) ==>
          forall xs: seq<int> | Inputs(role, smem[Element(sv, k)], k, xs) :: out[Element(rv, k)] == Sum(xs))
  }

  /** Only the root's view changes, and all of its elements are the combinations over all ranks. */
  ghost predicate ReducedRight(role: Role, smem: seq<int>, sv: View, before: seq<int>, rv: View, out: seq<int>)
    requires Valid(sv) && |sv.extents| <= 1 && Valid(rv)
  {
    if role.rank != role.root then out == before
    else
      && |out| == |before| && |rv.extents| <= 1
      && (Injective(rv) ==> forall k :: 0 <= k < Size(rv) ==> ElementReduced(role, smem, sv, out, rv, k))
      && (Injective(rv) ==>
            forall a | 0 <= a < |out| && forall k :: 0 <= k < Size(rv) ==> Element(rv, k) != a :: out[a] == before[a])
  }

  lemma ResultElement(role: Role, own: seq<int>, k: nat, xs: seq<int>)
    requires ValidRole(role, |own|) && k < |own| && Inputs(role, own[k], k, xs)
    ensures Result(role, own)[k] == Fold(role.op, xs)
  {
    assert Column(role.contributions[role.rank := own], k) == xs;
  }

  lemma ReducedElement(smem: seq<int>, sv: View, sl: Layout, rmem: seq<int>, rv: View, rl: Layout, role: Role, k: nat)
    requires Suitable(sv, |smem|, rv, |rmem|, role) && role.rank == role.root && Injective(rv) && k < Size(rv)
    ensures ElementReduced(role, smem, sv, Reduced(smem, sv, sl, rmem, rv, rl, role), rv, k)
  {
    var own, out := WireOf(smem, sv, sl), Reduced(smem, sv, sl, rmem, rv, rl, role);
    Contributed(smem, sv, sl, k);
    var i := ElementIndex(rv, rl, k);
    ReceiveAt(rmem, rv, rl, Result(role, own), i);
    forall xs: seq<int> | Inputs(role, own[k], k, xs) ensures out[Element(rv, k)] == Fold(role.op, xs) {
      ResultElement(role, own, k, xs);
    }
    forall xs: seq<int>, acc: seq<int> | Inputs(role, own[k], k, xs) && RunsUp(role.op, xs, acc)
      ensures out[Element(rv, k)] == acc[|acc| - 1]
    {
      FoldRunsUp(role.op, xs, acc);
    }
    if Adds(role.op) {
      forall xs: seq<int> | Inputs(role, own[k], k, xs) ensures out[Element(rv, k)] == Sum(xs) {
        FoldSums(role.op, xs);
      }
    }
  }

  /** An address that is no element of the view is not written. */
  lemma ReducedElsewhere(smem: seq<int>, sv: View, sl: Layout, rmem: seq<int>, rv: View, rl: Layout, role: Role, a: nat)
    requires Suitable(sv, |smem|, rv, |rmem|, role) && role.rank == role.root && Injective(rv) && a < |rmem|
    requires forall k :: 0 <= k < Size(rv) ==> Element(rv, k) != a
    ensures Reduced(smem, sv, sl, rmem, rv, rl, role)[a] == rmem[a]
  {
    NotElement(rv, rl, a);
    ReceiveFrame(rmem, rv, rl, Result(role, WireOf(smem, sv, sl)), a);
  }

  lemma NotElement(rv: View, rl: Layout, a: nat)
    requires Valid(rv) && |rv.extents| <= 1 && Injective(rv)
    requires forall k :: 0 <= k < Size(rv) ==> Element(rv, k) != a
    ensures forall i | InBounds(rv.extents, i) :: Addr(rv, i) != a
  {
    forall i | InBounds(rv.extents, i) ensures Addr(rv, i) != a {
      WirePosBound(rv, rl, i);
      var j := ElementIndex(rv, rl, WirePos(rv, rl, i));
      WirePosInjective(rv, rl, i, j);
    }
  }

  lemma ReducedIsRight(smem: seq<int>, sv: View, sl: Layout, rmem: seq<int>, rv: View, rl: Layout, role: Role)
    requires Suitable(sv, |smem|, rv, |rmem|, role)
    ensures ReducedRight(role, smem, sv, rmem, rv, Reduced(smem, sv, sl, rmem, rv, rl, role))
  {
    var out := Reduced(smem, sv, sl, rmem, rv, rl, role);
    if role.rank == role.root && Injective(rv) {
      forall k | 0 <= k < Size(rv) ensures ElementReduced(role, smem, sv, out, rv, k) {
        ReducedElement(smem, sv, sl, rmem, rv, rl, role, k);
      }
      forall a | 0 <= a < |out| && forall k :: 0 <= k < Size(rv) ==> Element(rv, k) != a ensures out[a] == rmem[a] {
        ReducedElsewhere(smem, sv, sl, rmem, rv, rl, role, a);
      }
    }
  }

  // ---------------------------------------------------------------- blocking

  /** The receive side, the same for both kinds of send view: straight into rv, or by way of a packed copy. */
  method ReduceFrom(sbuf: array<int>, soff: nat, n: nat, rmem: array<int>, rv: View, rl: Layout, role: Role,
                    ghost own: seq<int>)
    requires soff + n <= sbuf.Length && |own| == n && sbuf[soff..soff + n] == own && ValidRole(role, n) && Valid(rv)
    requires role.rank == role.root ==> Fits(rv, rmem.Length) && Size(rv) == n
    modifies rmem
    ensures rmem[..] == Landed(own, old(rmem[..]), rv, rl, role)
  {
    if role.rank == role.root && !Contiguous(rv) {
      var staging := new int[Size(rv)];
      MpiReduce(sbuf, soff, staging, 0, n, role, own);
      assert staging[..] == Result(role, own);
      UnpackInto(rmem, rv, rl, staging);
    } else {
      MpiReduce(sbuf, soff, rmem, rv.base, n, role, own);
    }
  }

  method ReduceBlocking(smem: array<int>, sv: View, sl: Layout, rmem: array<int>, rv: View, rl: Layout, role: Role)
    requires Suitable(sv, smem.Length, rv, rmem.Length, role)
    modifies rmem
    ensures rmem[..] == Reduced(old(smem[..]), sv, sl, old(rmem[..]), rv, rl, role)
    ensures ReducedRight(role, old(smem[..]), sv, old(rmem[..]), rv, rmem[..])
  {
    ghost var own := WireOf(smem[..], sv, sl);
    var sbuf, soff, n := SendBuffer(smem, sv, sl);
    NarrowExact(n);
    ReduceFrom(sbuf, soff, Narrow(n), rmem, rv, rl, role, own);
    ReducedIsRight(old(smem[..]), sv, sl, old(rmem[..]), rv, rl, role);
  }

  // ---------------------------------------------------------------- non-blocking

  predicate Staged(rv: View, role: Role)
    requires Valid(rv)
  {
    role.rank == role.root && !Contiguous(rv)
  }

  /** What the request of a reduction keeps alive. */
  function Retained(sv: View, packed: array<int>, smem: array<int>, rmem: array<int>,
                    managedSend: bool, managedRecv: bool): seq<Callback>
    requires Valid(sv)
  {
    P2P.Sent(sv, packed, smem, managedSend) + if managedRecv then [Retain(rmem)] else []
  }

  /** The library's side of the receive buffer: rv itself, or at a root with a strided rv a staging buffer. */
  method Landing(rmem: array<int>, rv: View, n: nat, role: Role) returns (recv: Operation)
    requires Valid(rv) && (role.rank == role.root ==> Fits(rv, rmem.Length) && Size(rv) == n)
    ensures fresh(recv) && recv.Valid() && !recv.complete
    ensures if Staged(rv, role) then fresh(recv.buf) && recv.buf.Length == n else recv.buf == rmem
    ensures role.rank == role.root ==> recv.count == n && recv.off == if Contiguous(rv) then rv.base else 0
  {
    if role.rank == role.root {
      if !Contiguous(rv) {
        var staging := new int[Size(rv)];
        recv := new Operation(staging, 0, n, false);
      } else {
        recv := new Operation(rmem, rv.base, n, false);
      }
    } else {
      recv := new Operation(rmem, 0, 0, false);
    }
  }

  lemma RetainedRuns(sv: View, packed: array<int>, smem: array<int>, rmem: array<int>,
                     managedSend: bool, managedRecv: bool, world: set<array<int>>)
    requires Valid(sv) && packed in world && smem in world && rmem in world
    ensures var cbs := Retained(sv, packed, smem, rmem, managedSend, managedRecv);
      CanRun(cbs, world) && forall cb :: cb in cbs ==> cb.Retain?
  {}

  /** The callbacks of a reduction: the unpacking, if it is staged, then what is kept alive. */
  method Registered(recv: Operation, rmem: array<int>, rv: View, rl: Layout, role: Role, sv: View, packed: array<int>,
                    smem: array<int>, managedSend: bool, managedRecv: bool) returns (req: Request)
    requires Valid(sv) && Valid(rv)
    ensures fresh(req) && req.handle == recv
    ensures req.callbacks == (if Staged(rv, role) then [Unpack(rmem, rv, rl, recv.buf)] else [])
      + Retained(sv, packed, smem, rmem, managedSend, managedRecv)
  {
    req := new Request();
    req.handle := recv;
    if Staged(rv, role) {
      req.AddCallback(Unpack(rmem, rv, rl, recv.buf));
    }
    P2P.KeepSent(req, sv, packed, smem, managedSend);
    req.ExtendViewLifetime(rmem, managedRecv);
  }

  /** Starts a reduction; the handle is the library's side of the receive buffer. */
  method Ireduce(smem: array<int>, sv: View, sl: Layout, rmem: array<int>, rv: View, rl: Layout, role: Role,
                 managedSend: bool, managedRecv: bool) returns (req: Request, given: Operation)
    requires Suitable(sv, smem.Length, rv, rmem.Length, role)
    ensures fresh(req) && req.handle != null && fresh(req.handle) && req.handle.Valid() && !req.handle.complete
    ensures fresh(given) && given.Valid() && given.count == Size(sv) >= 0 && given.Data() == WireOf(smem[..], sv, sl)
    ensures (if Contiguous(sv) then given.buf == smem else fresh(given.buf)) && given != req.handle
    ensures if Staged(rv, role)
            then fresh(req.handle.buf) && req.handle.buf != given.buf && req.handle.buf.Length == Size(sv)
            else req.handle.buf == rmem
    ensures role.rank == role.root ==>
      req.handle.count == Size(sv) && req.handle.off == if Contiguous(rv) then rv.base else 0
    ensures req.callbacks == (if Staged(rv, role) then [Unpack(rmem, rv, rl, req.handle.buf)] else [])
      + Retained(sv, given.buf, smem, rmem, managedSend, managedRecv)
    ensures req.callbacks ==
      (if role.rank == role.root && !Contiguous(rv) then [Unpack(rmem, rv, rl, req.handle.buf)] else [])
      + ((if Contiguous(sv) then [] else [Retain(given.buf)])
         + (if managedSend then [Retain(smem)] else []) + if managedRecv then [Retain(rmem)] else [])
  {
    var sbuf, soff, n := SendBuffer(smem, sv, sl);
    NarrowExact(n);
    given := new Operation(sbuf, soff, Narrow(n), true);
    var recv := Landing(rmem, rv, Narrow(n), role);
    req := Registered(recv, rmem, rv, rl, role, sv, sbuf, smem, managedSend, managedRecv);
  }

  /** The library finishes a rank's part of a non-blocking reduction. */
  method MpiFinish(given: Operation, recv: Operation, role: Role, ghost own: seq<int>)
    requires given != recv && given.Valid() && given.Accepted() && recv.Valid() && ValidRole(role, given.count)
    requires |own| == given.count && given.Data() == own
    requires role.rank == role.root ==> recv.count == given.count
    modifies recv.buf, recv`complete
    ensures recv.complete
    ensures recv.buf[..] == Delivered(role, own, old(recv.buf[..]), recv.off)
  {
    recv.complete := true;
    MpiReduce(given.buf, given.off, recv.buf, recv.off, given.count, role, own);
  }

  /** Waiting for a finished reduction unpacks the staging buffer, if there is one. */
  method FinishReduce(req: Request, rmem: array<int>, rv: View, rl: Layout, role: Role, ghost retain: seq<Callback>,
                      ghost world: set<array<int>>)
    requires Valid(rv) && req.handle != null && req.handle.complete
    requires req.callbacks == (if Staged(rv, role) then [Unpack(rmem, rv, rl, req.handle.buf)] else []) + retain
    requires CanRun(retain, world) && forall cb :: cb in retain ==> cb.Retain?
    requires rmem in world && req.handle.buf in world
    requires Staged(rv, role) ==>
      Fits(rv, rmem.Length) && req.handle.buf.Length == Size(rv) && req.handle.buf != rmem
    modifies req, rmem
    ensures rmem[..] == if Staged(rv, role) then Scatter(old(rmem[..]), rv, rl, old(req.handle.buf[..]))
                        else old(rmem[..])
  {
    ghost var unpack := if Staged(rv, role) then [Unpack(rmem, rv, rl, req.handle.buf)] else [];
    assert AllWritten(unpack + retain) <= {rmem};
    RunTail(unpack, retain, Snap(world));
    req.Wait(world);
    assert rmem[..] == Snap(world)[rmem];
  }

  /** What the library leaves in rv itself is what a reduction leaves there, unless it was staged. */
  lemma DeliveredLands(role: Role, own: seq<int>, rmem: seq<int>, rv: View, rl: Layout, off: nat)
    requires ValidRole(role, |own|) && Valid(rv) && !Staged(rv, role)
    requires role.rank == role.root ==> Fits(rv, |rmem|) && Size(rv) == |own| && off == rv.base
    ensures Delivered(role, own, rmem, off) == Landed(own, rmem, rv, rl, role)
  {}

  lemma StagedLands(role: Role, own: seq<int>, staging: seq<int>, rmem: seq<int>, rv: View, rl: Layout)
    requires ValidRole(role, |own|) && Valid(rv) && Staged(rv, role)
    requires Fits(rv, |rmem|) && Size(rv) == |own| == |staging|
    ensures |Delivered(role, own, staging, 0)| == Size(rv)
    ensures Scatter(rmem, rv, rl, Delivered(role, own, staging, 0)) == Landed(own, rmem, rv, rl, role)
  {
    assert Delivered(role, own, staging, 0) == Result(role, own);
  }

  /** Starting a reduction and waiting for it leaves what the blocking reduction leaves. */
  method IreduceWait(smem: array<int>, sv: View, sl: Layout, rmem: array<int>, rv: View, rl: Layout, role: Role,
                     managedSend: bool, managedRecv: bool)
    requires Suitable(sv, smem.Length, rv, rmem.Length, role)
    modifies rmem
    ensures rmem[..] == Reduced(old(smem[..]), sv, sl, old(rmem[..]), rv, rl, role)
    ensures ReducedRight(role, old(smem[..]), sv, old(rmem[..]), rv, rmem[..])
  {
    ghost var own := WireOf(smem[..], sv, sl);
    var req, given := Ireduce(smem, sv, sl, rmem, rv, rl, role, managedSend, managedRecv);
    ghost var world := {smem, rmem, given.buf, req.handle.buf};
    RetainedRuns(sv, given.buf, smem, rmem, managedSend, managedRecv, world);
    CompleteReduce(req, given, rmem, rv, rl, role, own,
                   Retained(sv, given.buf, smem, rmem, managedSend, managedRecv), world);
    ReducedIsRight(old(smem[..]), sv, sl, old(rmem[..]), rv, rl, role);
  }

  /** The library finishes, then the wait returns. */
  method CompleteReduce(req: Request, given: Operation, rmem: array<int>, rv: View, rl: Layout, role: Role,
                        ghost own: seq<int>, ghost retain: seq<Callback>, ghost world: set<array<int>>)
    requires req.handle != null && given != req.handle && given.Valid() && req.handle.Valid() && given.Accepted()
    requires |own| == given.count && given.Data() == own && ValidRole(role, |own|) && Valid(rv)
    requires role.rank == role.root ==> Fits(rv, rmem.Length) && Size(rv) == |own|
    requires CanRun(retain, world) && (forall cb :: cb in retain ==> cb.Retain?)
    requires rmem in world && req.handle.buf in world
    requires req.callbacks == (if Staged(rv, role) then [Unpack(rmem, rv, rl, req.handle.buf)] else []) + retain
    requires role.rank == role.root ==>
      req.handle.count == |own| && req.handle.off == if Contiguous(rv) then rv.base else 0
    requires if Staged(rv, role) then req.handle.buf != rmem && req.handle.buf.Length == |own| else req.handle.buf == rmem
    modifies req, req.handle, req.handle.buf, rmem
    ensures rmem[..] == Landed(own, old(rmem[..]), rv, rl, role)
  {
    ghost var before, staging := rmem[..], req.handle.buf[..];
    if Staged(rv, role) {
      StagedLands(role, own, staging, before, rv, rl);
    } else {
      DeliveredLands(role, own, before, rv, rl, req.handle.off);
    }
    MpiFinish(given, req.handle, role, own);
    FinishReduce(req, rmem, rv, rl, role, retain, world);
  }

  /** Callbacks that keep views alive add nothing to the unpacking before them. */
  lemma RunTail(unpack: seq<Callback>, retain: seq<Callback>, m: Store)
    requires CanRun(unpack, m.Keys) && CanRun(retain, m.Keys) && Sized(m)
    requires |unpack| <= 1 && forall cb :: cb in retain ==> cb.Retain?
    ensures CanRun(unpack + retain, m.Keys)
    ensures RunAll(unpack + retain, m) == if unpack == [] then m else RunOne(unpack[0], m)
  {
    RunAppend(unpack, retain, m);
    RunRetains(retain, RunAll(unpack, m));
    if unpack != [] {
      assert unpack[..0] == [];
      RunStep(unpack, 0, m);
      assert unpack[..1] == unpack;
    }
  }

  // ---------------------------------------------------------------- what the root ends up with

  /** Where the k-th element of a view of rank at most one lies. */
  function Element(v: View, k: nat): nat
    requires Valid(v) && |v.extents| <= 1
  {
    v.base + if |v.extents| == 0 then 0 else v.strides[0] * k
  }

  lemma ElementIndex(v: View, layout: Layout, k: nat) returns (i: seq<nat>)
    requires Valid(v) && |v.extents| <= 1 && k < Size(v)
    ensures InBounds(v.extents, i) && Addr(v, i) == Element(v, k) && WirePos(v, layout, i) == k
  {
    if |v.extents| == 0 {
      i := [];
      WirePosBound(v, layout, i);
    } else {
      assert v.extents[1..] == [] && Size(v) == v.extents[0] * Product(v.extents[1..]);
      i := [k];
      assert i[1..] == [];
      assert Dot(v.strides, i) == v.strides[0] * k + Dot(v.strides[1..], i[1..]);
      if v.extents[0] >= 2 {
        RankOneStride(v, layout);
        assert Dot([1], i) == 1 * k + Dot([1][1..], i[1..]);
      } else {
        WirePosBound(v, layout, i);
      }
    }
  }

  /** The k-th thing sent is the k-th element. */
  lemma Contributed(mem: seq<int>, v: View, layout: Layout, k: nat)
    requires Fits(v, |mem|) && |v.extents| <= 1 && k < Size(v)
    ensures Element(v, k) < |mem| && WireOf(mem, v, layout)[k] == mem[Element(v, k)]
  {
    var i := ElementIndex(v, layout, k);
    WireAt(mem, v, layout, i);
  }

  /** A rank's send side. */
  datatype Party = Party(mem: seq<int>, sv: View, sl: Layout)

  predicate PartyFits(p: Party) {
    Fits(p.sv, |p.mem|) && |p.sv.extents| <= 1
  }

  function Contribution(p: Party): (r: seq<int>)
    requires PartyFits(p)
    ensures |r| == Size(p.sv)
  {
    WireOf(p.mem, p.sv, p.sl)
  }

  ghost predicate ValidParties(parties: seq<Party>, n: nat) {
    && parties != []
    && forall r :: 0 <= r < |parties| ==> PartyFits(parties[r]) && Size(parties[r].sv) == n
  }

  function Contributions(parties: seq<Party>): (r: seq<seq<int>>)
    requires forall q :: 0 <= q < |parties| ==> PartyFits(parties[q])
    ensures |r| == |parties|
    ensures forall q :: 0 <= q < |r| ==> r[q] == Contribution(parties[q])
  {
    if parties == [] then [] else [Contribution(parties[0])] + Contributions(parties[1..])
  }

  predicate HasElement(p: Party, k: nat) {
    PartyFits(p) && Element(p.sv, k) < |p.mem|
  }

  function ElementOf(p: Party, k: nat): int
    requires HasElement(p, k)
  {
    p.mem[Element(p.sv, k)]
  }

  /** The k-th element of every rank's send view, by rank. */
  function Values(parties: seq<Party>, k: nat): (r: seq<int>)
    requires forall q :: 0 <= q < |parties| ==> HasElement(parties[q], k)
    ensures |r| == |parties| && forall q :: 0 <= q < |r| ==> r[q] == ElementOf(parties[q], k)
  {
    if parties == [] then [] else [ElementOf(parties[0], k)] + Values(parties[1..], k)
  }

  lemma Columns(parties: seq<Party>, n: nat, k: nat)
    requires ValidParties(parties, n) && k < n
    ensures forall q :: 0 <= q < |parties| ==> HasElement(parties[q], k)
    ensures Column(Contributions(parties), k) == Values(parties, k)
  {
    forall q | 0 <= q < |parties|
      ensures HasElement(parties[q], k) && Contributions(parties)[q][k] == ElementOf(parties[q], k)
    {
      Contributed(parties[q].mem, parties[q].sv, parties[q].sl, k);
    }
  }

  /** One rank's own part of the whole reduction. */
  function RoleOf(parties: seq<Party>, rank: nat, root: nat, op: Operator): Role
    requires forall q :: 0 <= q < |parties| ==> PartyFits(parties[q])
  {
    Role(rank, root, op, Contributions(parties))
  }

  lemma RootResult(parties: seq<Party>, root: nat, op: Operator, n: nat)
    requires ValidParties(parties, n) && root < |parties|
    ensures var role, p := RoleOf(parties, root, root, op), parties[root];
      ValidRole(role, n) && Result(role, WireOf(p.mem, p.sv, p.sl)) == Combined(op, Contributions(parties), n)
  {
    var data := Contributions(parties);
    assert data[root := data[root]] == data;
  }

  /** The k-th elements of all ranks' send views, by rank. */
  ghost predicate AreElements(parties: seq<Party>, k: nat, xs: seq<int>) {
    |xs| == |parties| && forall q :: 0 <= q < |parties| ==> HasElement(parties[q], k) && xs[q] == ElementOf(parties[q], k)
  }

  /**
   At the root rv(k) ends as what running up the operator over sv(k) of rank 0, rank 1 and so on
   arrives at, for every mixture of contiguous and strided buffers; with addition, as their sum.
   */
  lemma RootReduced(parties: seq<Party>, root: nat, op: Operator, rmem: seq<int>, rv: View, rl: Layout, n: nat, k: nat)
    requires ValidParties(parties, n) && root < |parties| && k < n <= INT_MAX
    requires Fits(rv, |rmem|) && |rv.extents| <= 1 && Size(rv) == n && Injective(rv)
    ensures Suitable(parties[root].sv, |parties[root].mem|, rv, |rmem|, RoleOf(parties, root, root, op))
    ensures forall q :: 0 <= q < |parties| ==> HasElement(parties[q], k)
    ensures var p := parties[root];
      var out := Reduced(p.mem, p.sv, p.sl, rmem, rv, rl, RoleOf(parties, root, root, op));
      && Element(rv, k) < |out| && out[Element(rv, k)] == Fold(op, Values(parties, k))
      && (forall xs: seq<int>, acc: seq<int> | AreElements(parties, k, xs) && RunsUp(op, xs, acc) ::
            out[Element(rv, k)] == acc[|acc| - 1])
      && (Adds(op) ==> forall xs: seq<int> | AreElements(parties, k, xs) :: out[Element(rv, k)] == Sum(xs))
  {
    var p := parties[root];
    RootResult(parties, root, op, n);
    Columns(parties, n, k);
    var i := ElementIndex(rv, rl, k);
    ReceiveAt(rmem, rv, rl, Combined(op, Contributions(parties), n), i);
    RunningValues(parties, op, k);
  }

  lemma RunningValues(parties: seq<Party>, op: Operator, k: nat)
    requires parties != [] && forall q :: 0 <= q < |parties| ==> HasElement(parties[q], k)
    ensures forall xs: seq<int>, acc: seq<int> | AreElements(parties, k, xs) && RunsUp(op, xs, acc) ::
      Fold(op, Values(parties, k)) == acc[|acc| - 1]
    ensures Adds(op) ==> forall xs: seq<int> | AreElements(parties, k, xs) :: Fold(op, Values(parties, k)) == Sum(xs)
  {
    forall xs: seq<int> | AreElements(parties, k, xs) ensures xs == Values(parties, k) {}
    forall xs: seq<int>, acc: seq<int> | AreElements(parties, k, xs) && RunsUp(op, xs, acc)
      ensures Fold(op, Values(parties, k)) == acc[|acc| - 1]
    {
      assert xs == Values(parties, k);
      FoldRunsUp(op, xs, acc);
    }
    if Adds(op) { FoldSums(op, Values(parties, k)); }
  }

  lemma RootFrame(parties: seq<Party>, root: nat, op: Operator, rmem: seq<int>, rv: View, rl: Layout, n: nat, a: nat)
    requires ValidParties(parties, n) && root < |parties| && a < |rmem| && n <= INT_MAX
    requires Fits(rv, |rmem|) && |rv.extents| <= 1 && Size(rv) == n && Injective(rv)
    requires forall k :: 0 <= k < n ==> Element(rv, k) != a
    ensures Suitable(parties[root].sv, |parties[root].mem|, rv, |rmem|, RoleOf(parties, root, root, op))
    ensures var p := parties[root];
      Reduced(p.mem, p.sv, p.sl, rmem, rv, rl, RoleOf(parties, root, root, op))[a] == rmem[a]
  {
    var p := parties[root];
    RootResult(parties, root, op, n);
    ReducedElsewhere(p.mem, p.sv, p.sl, rmem, rv, rl, RoleOf(parties, root, root, op), a);
  }
}
