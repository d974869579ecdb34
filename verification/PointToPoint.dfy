/** Non-blocking send and receive of a view, contiguous or strided on either side. */
module PointToPoint {
  import opened Common
  import opened MixedRadix
  import opened StridedView
  import opened Packer
  import opened Requests
  import opened Counts

  /** A request for n elements of a buffer, counted in an int. */
  method Posted(buf: array<int>, off: nat, n: nat, sends: bool) returns (req: Request)
    requires off + n <= buf.Length
    ensures fresh(req) && req.handle != null && fresh(req.handle) && req.handle.Valid() && req.callbacks == []
    ensures req.handle.buf == buf && req.handle.off == off && req.handle.count == Narrow(n)
    ensures req.handle.sends == sends && !req.handle.complete
    ensures req.handle.Accepted() ==> req.handle.Data() == buf[off..off + n][..Narrow(n)]
  {
    req := new Request();
    req.handle := new Operation(buf, off, Narrow(n), sends);
  }

  /** What a send keeps alive: the packed copy, if there is one, then the view. */
  function Sent(sv: View, packed: array<int>, mem: array<int>, managed: bool): seq<Callback>
    requires Valid(sv)
  {
    (if Contiguous(sv) then [] else [Retain(packed)]) + if managed then [Retain(mem)] else []
  }

  method KeepSent(req: Request, sv: View, packed: array<int>, mem: array<int>, managed: bool)
    requires Valid(sv)
    modifies req`callbacks
    ensures req.callbacks == old(req.callbacks) + Sent(sv, packed, mem, managed)
  {
    if !Contiguous(sv) {
      req.ExtendViewLifetime(packed, true);
    }
    req.ExtendViewLifetime(mem, managed);
  }

  method Isend(mem: array<int>, sv: View, layout: Layout, managed: bool) returns (req: Request)
    requires Fits(sv, mem.Length)
    ensures fresh(req) && req.handle != null && fresh(req.handle) && req.handle.Valid()
    ensures req.handle.sends && !req.handle.complete && req.handle.count == Handed(sv)
    ensures req.handle.Accepted() ==> req.handle.Data() == WireOf(mem[..], sv, layout)[..Handed(sv)]
    ensures if Contiguous(sv) then req.handle.buf == mem && req.handle.off == sv.base else fresh(req.handle.buf)
    ensures req.callbacks == Sent(sv, req.handle.buf, mem, managed)
    ensures req.callbacks == (if Contiguous(sv) then [] else [Retain(req.handle.buf)])
      + if managed then [Retain(mem)] else []
  {
    var buf, off, n := SendBuffer(mem, sv, layout);
    req := Posted(buf, off, n, true);
    assert Narrow(n) == Handed(sv);
    KeepSent(req, sv, buf, mem, managed);
  }

  method Irecv(mem: array<int>, rv: View, layout: Layout, managed: bool) returns (req: Request)
    requires Fits(rv, mem.Length)
    ensures fresh(req) && req.handle != null && fresh(req.handle) && req.handle.Valid()
    ensures !req.handle.sends && !req.handle.complete && req.handle.count == Handed(rv)
    ensures Contiguous(rv) ==>
      req.handle.buf == mem && req.handle.off == rv.base && req.callbacks == if managed then [Retain(mem)] else []
    ensures !Contiguous(rv) ==>
      && fresh(req.handle.buf) && req.handle.off == 0 && req.handle.buf.Length == Size(rv)
      && req.callbacks == [Unpack(mem, rv, layout, req.handle.buf)]
  {
    if Contiguous(rv) {
      req := Posted(mem, rv.base, Span(rv), false);
      req.ExtendViewLifetime(mem, managed);
    } else {
      var staging := new int[Size(rv)];
      req := Posted(staging, 0, staging.Length, false);
      req.AddCallback(Unpack(mem, rv, layout, staging));
    }
  }

  /** The MPI library moves one matched message and completes both operations. */
  method Transfer(s: Operation, r: Operation)
    requires s != r && s.Valid() && r.Valid() && s.sends && !r.sends && s.count == r.count && s.Accepted()
    modifies r.buf, s`complete, r`complete
    ensures s.complete && r.complete
    ensures r.buf[..] == Splice(old(r.buf[..]), r.off, old(s.Data()))
  {
    forall k | 0 <= k < s.count {
      r.buf[r.off + k] := s.buf[s.off + k];
    }
    s.complete := true;
    r.complete := true;
  }

  /** A posted receive: straight into the view, or into a staging buffer that is yet to be unpacked. */
  ghost predicate Receiving(req: Request, mem: array<int>, rv: View, layout: Layout)
    requires Fits(rv, mem.Length)
    reads req
  {
    && req.handle != null && req.handle.Valid()
    && (Contiguous(rv) ==> req.handle.buf == mem && req.handle.off == rv.base && req.callbacks == [Retain(mem)])
    && (!Contiguous(rv) ==>
          && req.handle.buf != mem && req.handle.off == 0 && req.handle.buf.Length == Size(rv)
          && req.callbacks == [Unpack(mem, rv, layout, req.handle.buf)])
  }

  /** Waiting for a completed receive puts what arrived in the handle's buffer into the view. */
  method FinishReceive(req: Request, mem: array<int>, rv: View, layout: Layout)
    requires Fits(rv, mem.Length) && Receiving(req, mem, rv, layout) && req.handle.complete
    modifies req, mem
    ensures mem[..] == if Contiguous(rv) then old(mem[..])
                       else Scatter(old(mem[..]), rv, layout, old(req.handle.buf[..]))
  {
    ghost var world := {mem, req.handle.buf};
    ghost var before := Snap(world);
    ghost var cbs := req.callbacks;
    assert AllWritten(cbs) <= {mem};
    RunSingle(cbs, before);
    req.Wait(world);
    assert mem[..] == Snap(world)[mem];
  }

  lemma RunSingle(cbs: seq<Callback>, m: Store)
    requires |cbs| == 1 && CanRun(cbs, m.Keys) && Sized(m)
    ensures RunAll(cbs, m) == RunOne(cbs[0], m)
  {
    assert cbs[..0] == [];
    RunStep(cbs, 0, m);
    assert cbs[..1] == cbs;
  }

  /** Waiting for a completed send only lets go of what was kept alive. */
  method FinishSend(req: Request, ghost world: set<array<int>>)
    requires req.handle != null && req.handle.complete && CanRun(req.callbacks, world)
    requires forall cb :: cb in req.callbacks ==> cb.Retain?
    modifies req
    ensures req.handle == null && req.callbacks == []
  {
    assert AllWritten(req.callbacks) == {};
    req.Wait(world);
  }

  /** Both waits of a matched pair. */
  method Complete(sreq: Request, rreq: Request, rmem: array<int>, rv: View, rl: Layout, ghost world: set<array<int>>)
    requires Fits(rv, rmem.Length) && Receiving(rreq, rmem, rv, rl) && sreq != rreq
    requires sreq.handle != null && sreq.handle.Valid() && sreq.handle != rreq.handle && sreq.handle.Accepted()
    requires sreq.handle.sends && !rreq.handle.sends && sreq.handle.count == rreq.handle.count <= Size(rv)
    requires CanRun(sreq.callbacks, world) && forall cb :: cb in sreq.callbacks ==> cb.Retain?
    modifies sreq, rreq, sreq.handle, rreq.handle, rreq.handle.buf, rmem
    ensures rmem[..] == ReceiveFirst(old(rmem[..]), rv, rl, old(sreq.handle.Data()),
                                     if Contiguous(rv) then Const(Size(rv), 0) else old(rreq.handle.buf[..]))
  {
    Transfer(sreq.handle, rreq.handle);
    FinishSend(sreq, world);
    FinishReceive(rreq, rmem, rv, rl);
  }

  /**
   One message between two views, through both waits, in all four combinations of contiguous and
   strided sides. The two views may lie in the same allocation. A negative count is refused; `blank`
   is what the staging buffer of a strided receive held before.
   */
  method Exchange(smem: array<int>, sv: View, sl: Layout, rmem: array<int>, rv: View, rl: Layout)
      returns (accepted: bool, ghost blank: seq<int>)
    requires Fits(sv, smem.Length) && Fits(rv, rmem.Length) && sv.extents == rv.extents
    modifies rmem
    ensures accepted <==> Handed(sv) >= 0
    ensures !accepted ==> rmem[..] == old(rmem[..])
    ensures accepted ==>
      |blank| == Size(rv) && rmem[..] == ArrivedFirst(old(smem[..]), sv, sl, old(rmem[..]), rv, rl, blank)
    ensures Size(sv) <= INT_MAX ==> accepted && rmem[..] == Arrived(old(smem[..]), sv, sl, old(rmem[..]), rv, rl)
  {
    var rreq := Irecv(rmem, rv, rl, true);
    var sreq := Isend(smem, sv, sl, true);
    blank := if Contiguous(rv) then Const(Size(rv), 0) else rreq.handle.buf[..];
    accepted := sreq.handle.Accepted();
    if accepted {
      Complete(sreq, rreq, rmem, rv, rl, {smem, sreq.handle.buf});
    }
    if Size(sv) <= INT_MAX {
      WholeArrives(old(smem[..]), sv, sl, old(rmem[..]), rv, rl, blank);
    }
  }

  /** After both waits rv(i...) is sv(i...) for every multi-index, and nothing outside rv has moved. */
  method SendRecv(smem: array<int>, sv: View, sl: Layout, rmem: array<int>, rv: View, rl: Layout)
    requires Fits(sv, smem.Length) && Fits(rv, rmem.Length) && sv.extents == rv.extents && Size(sv) <= INT_MAX
    requires Injective(rv) && SameWireOrder(sv, sl, rv, rl)
    modifies rmem
    ensures forall i :: InBounds(rv.extents, i) ==>
      Addr(rv, i) < rmem.Length && Addr(sv, i) < smem.Length
      && rmem[..][Addr(rv, i)] == old(smem[..])[Addr(sv, i)]
    ensures forall a :: 0 <= a < rmem.Length && (forall i :: InBounds(rv.extents, i) ==> Addr(rv, i) != a) ==>
      rmem[..][a] == old(rmem[..])[a]
  {
    ghost var sent, held := smem[..], rmem[..];
    var _, _ := Exchange(smem, sv, sl, rmem, rv, rl);
    Delivered(sent, sv, sl, held, rv, rl);
    assert |rmem[..]| == rmem.Length && |sent| == smem.Length;
  }
}
