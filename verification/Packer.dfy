/** Copies between a view and its packed buffer, in place on arrays. */
module Packer {
  import opened MixedRadix
  import opened Pigeonhole
  import opened StridedView

  method Pack(mem: array<int>, v: View, layout: Layout) returns (packed: array<int>)
    requires Fits(v, mem.Length)
    ensures fresh(packed)
    ensures packed[..] == Gather(mem[..], v, layout)
  {
    packed := new int[Size(v)];
    for k := 0 to Size(v)
      invariant forall j :: 0 <= j < k ==> packed[j] == mem[At(v, layout, j)]
    {
      packed[k] := mem[At(v, layout, k)];
    }
  }

  /** What is handed to the library to send: the span as it lies, or a packed copy. */
  method SendBuffer(mem: array<int>, v: View, layout: Layout) returns (buf: array<int>, off: nat, n: nat)
    requires Fits(v, mem.Length)
    ensures n == Size(v) && off + n <= buf.Length && buf[off..off + n] == WireOf(mem[..], v, layout)
    ensures if Contiguous(v) then buf == mem && off == v.base else fresh(buf)
  {
    if Contiguous(v) {
      buf, off, n := mem, v.base, Span(v);
    } else {
      buf := Pack(mem, v, layout);
      off, n := 0, buf.Length;
      assert buf[0..buf.Length] == buf[..];
    }
  }

  method UnpackInto(mem: array<int>, v: View, layout: Layout, packed: array<int>)
    requires Fits(v, mem.Length) && packed.Length == Size(v) && packed != mem
    modifies mem
    ensures mem[..] == Scatter(old(mem[..]), v, layout, packed[..])
  {
    ghost var before, places := mem[..], Places(v, layout);
    PlacesFit(v, layout, mem.Length);
    for k := 0 to Size(v)
      invariant mem[..] == Fill(before, places[..k], packed[..k])
    {
      FillNext(before, places, packed[..], k);
      mem[At(v, layout, k)] := packed[k];
    }
    assert places[..Size(v)] == places && packed[..Size(v)] == packed[..];
  }
}
