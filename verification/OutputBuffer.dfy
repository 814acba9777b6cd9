/** The encoding buffer and the output callback: segments are encoded one after
    the other into a fixed buffer, which is handed over packet by packet. */
module OutputBuffer {
  import opened Serial
  import opened KcpState
  import opened WireFormat
  import S = KcpState

  /** Writes bytes into a buffer at an offset. */
  method Copy(dst: array<byte>, off: nat, src: seq<byte>)
    requires off + |src| <= dst.Length
    modifies dst
    ensures dst[..off] == old(dst[..off])
    ensures dst[off..off + |src|] == src
    ensures dst[off + |src|..] == old(dst[off + |src|..])
  {
    var i := 0;
    while i < |src|
      invariant 0 <= i <= |src|
      invariant dst[..off] == old(dst[..off])
      invariant dst[off..off + i] == src[..i]
      invariant dst[off + |src|..] == old(dst[off + |src|..])
    {
      dst[off + i] := src[i];
      i := i + 1;
    }
  }

  /** The bytes of `h` written over `d` from `off` on. */
  ghost function Spliced(d: seq<byte>, off: nat, h: seq<byte>): (r: seq<byte>)
    requires off + |h| <= |d|
    ensures |r| == |d|
  {
    d[..off] + h + d[off + |h|..]
  }

  lemma SpliceMore(d: seq<byte>, off: nat, h: seq<byte>, b: seq<byte>)
    requires off + |h| + |b| <= |d|
    ensures Spliced(Spliced(d, off, h), off + |h|, b) == Spliced(d, off, h + b)
  {
  }

  method PutUint16(dst: array<byte>, off: nat, x: u16)
    requires off + 2 <= dst.Length
    modifies dst
    ensures dst[..] == Spliced(old(dst[..]), off, Put16(x))
  {
    dst[off], dst[off + 1] := x % 256, x / 256;
  }

  method PutUint32(dst: array<byte>, off: nat, x: u32)
    requires off + 4 <= dst.Length
    modifies dst
    ensures dst[..] == Spliced(old(dst[..]), off, Put32(x))
  {
    dst[off], dst[off + 1], dst[off + 2], dst[off + 3] := x % 256, x / 256 % 256, x / 256 / 256 % 256, x / 256 / 256 / 256;
  }

  method PutUint8(dst: array<byte>, off: nat, x: byte)
    requires off < dst.Length
    modifies dst
    ensures dst[..] == Spliced(old(dst[..]), off, [x])
  {
    dst[off] := x;
  }

  /** encode: writes the 24 header bytes field by field. */
  method EncodeHeader(dst: array<byte>, off: nat, w: Wire)
    requires off + OVERHEAD <= dst.Length
    modifies dst
    ensures dst[..] == Spliced(old(dst[..]), off, Header(w, W(|w.data|)))
  {
    ghost var d, h := dst[..], Put32(w.conv);
    PutUint32(dst, off, w.conv);
    SpliceMore(d, off, h, [w.cmd]);
    PutUint8(dst, off + 4, w.cmd);
    SpliceMore(d, off, h + [w.cmd], [w.frg]);
    PutUint8(dst, off + 5, w.frg);
    h := h + [w.cmd] + [w.frg];
    SpliceMore(d, off, h, Put16(w.wnd));
    PutUint16(dst, off + 6, w.wnd);
    h := h + Put16(w.wnd);
    SpliceMore(d, off, h, Put32(w.ts));
    PutUint32(dst, off + 8, w.ts);
    h := h + Put32(w.ts);
    SpliceMore(d, off, h, Put32(w.sn));
    PutUint32(dst, off + 12, w.sn);
    h := h + Put32(w.sn);
    SpliceMore(d, off, h, Put32(w.una));
    PutUint32(dst, off + 16, w.una);
    h := h + Put32(w.una);
    SpliceMore(d, off, h, Put32(W(|w.data|)));
    PutUint32(dst, off + 20, W(|w.data|));
    assert h + Put32(W(|w.data|)) == Header(w, W(|w.data|));
  }

  /** A header spliced in, then the payload copied behind it. */
  lemma Joined(d: seq<byte>, off: nat, h: seq<byte>, data: seq<byte>, d': seq<byte>, d'': seq<byte>)
    requires off + |h| + |data| <= |d| == |d''| && d' == Spliced(d, off, h)
    requires d''[..off + |h|] == d'[..off + |h|] && d''[off + |h|..off + |h| + |data|] == data
    ensures d''[..off + |h| + |data|] == d[..off] + (h + data)
  {
    var n := off + |h|;
    assert d'[..n] == d[..off] + h;
    assert d''[..n + |data|] == d''[..n] + d''[n..n + |data|];
  }

  class Outlet {
    var buffer: array<byte>
    /** Everything handed to the output callback, oldest first. */
    var sent: seq<seq<byte>>

    constructor (size: nat)
      ensures buffer.Length == size && sent == [] && fresh(buffer)
    {
      buffer := new byte[size];
      sent := [];
    }

    /** The packing so far: whole packets were handed over, the current one fills
        the first `off` bytes of the buffer. */
    ghost predicate Filled(off: nat, p: Packing, before: seq<seq<byte>>)
      reads this, buffer
    {
      off <= buffer.Length && sent == before + EncodePackets(p.done) && buffer[..off] == EncodeAll(p.cur)
    }

    /** makeSpace: hands the packet over if `space` more bytes exceed the MTU. */
    method MakeSpace(mtu: u32, off: nat, space: nat, ghost p: Packing, ghost before: seq<seq<byte>>) returns (off': nat)
      requires Filled(off, p, before)
      modifies this`sent
      ensures Filled(off', S.MakeSpace(mtu, p, space), before)
      ensures off' == 0 || off' + space <= mtu
    {
      assert |buffer[..off]| == Size(p.cur);
      if off + space > mtu {
        sent := sent + [buffer[..off]];
        assert EncodePackets(p.done + [p.cur]) == EncodePackets(p.done) + [EncodeAll(p.cur)];
        return 0;
      }
      return off;
    }

    /** Encodes one segment behind what is already in the buffer. */
    method Put(off: nat, w: Wire, ghost t: Tagged, ghost p: Packing, ghost before: seq<seq<byte>>) returns (off': nat)
      requires Filled(off, p, before) && t.w == w && off + OVERHEAD + |w.data| <= buffer.Length
      modifies buffer
      ensures Filled(off', p.(cur := p.cur + [t]), before)
    {
      hide EncodeAll, Header, Spliced, W;
      ghost var d := buffer[..];
      EncodeHeader(buffer, off, w);
      ghost var d' := buffer[..];
      Copy(buffer, off + OVERHEAD, w.data);
      off' := off + OVERHEAD + |w.data|;
      EncodeAppend(p.cur, t);
      Joined(d, off, Header(w, W(|w.data|)), w.data, d', buffer[..]);
    }

    /** The last step of flush: hands over what is left. */
    method Finish(off: nat, ghost p: Packing, ghost before: seq<seq<byte>>)
      requires Filled(off, p, before)
      modifies this`sent
      ensures sent == before + EncodePackets(if p.cur == [] then p.done else p.done + [p.cur])
    {
      assert |buffer[..off]| == Size(p.cur);
      if off > 0 {
        sent := sent + [buffer[..off]];
        assert EncodePackets(p.done + [p.cur]) == EncodePackets(p.done) + [EncodeAll(p.cur)];
      }
    }
  }

  lemma EncodeAppend(ts: seq<Tagged>, t: Tagged)
    ensures EncodeAll(ts + [t]) == EncodeAll(ts) + Encode(t.w)
  {
    assert (ts + [t])[..|ts|] == ts;
  }
}
