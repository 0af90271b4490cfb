/** Conversion between network buffers and lwIP pbuf chains. */
module PbufConvert {
  import opened Common
  import opened Memory
  import opened NetBuffer

  const MAX_CONVERSION_LEN := 65535

  /** One pbuf and the rest of its chain. A null payload is None; a payload holds at
      least `len` bytes. */
  datatype Chain = End | Pbuf(len: nat, payload: Option<seq<uint8>>, next: Chain) {
    predicate Ok() {
      Pbuf? ==> len < 65536 && (payload.Some? ==> len <= |payload.value|) && next.Ok()
    }
  }

  predicate Carries(p: Chain)
    requires p.Pbuf?
  {
    p.len != 0 && p.payload.Some?
  }

  /** The bytes of the chain, segment after segment. */
  function Gather(p: Chain): seq<uint8>
    requires p.Ok()
  {
    if p.End? then []
    else (if Carries(p) then p.payload.value[..p.len] else []) + Gather(p.next)
  }

  /** The sum of all `len` fields, which is what lwIP keeps as tot_len. */
  function TotLen(p: Chain): nat {
    if p.End? then 0 else p.len + TotLen(p.next)
  }

  predicate AllCarry(p: Chain) {
    p.Pbuf? ==> (p.len == 0 || p.payload.Some?) && AllCarry(p.next)
  }

  /** A buffer with room for tot_len always takes the chain, and is filled by exactly
      tot_len bytes when no segment with a length lacks its payload. */
  lemma {:induction false} GatherWithinTotLen(p: Chain)
    requires p.Ok()
    ensures |Gather(p)| <= TotLen(p)
    ensures |Gather(p)| == TotLen(p) <==> AllCarry(p)
  {
    if p.Pbuf? {
      GatherWithinTotLen(p.next);
    }
  }

  /** Each segment gives the first `len` bytes of its payload, or nothing if that is null; and the
      same with what is gathered so far in front. */
  lemma GatherNext(done: seq<uint8>, p: Chain)
    requires p.Ok() && p.Pbuf?
    ensures Gather(p) == (if p.payload.None? then [] else p.payload.value[..p.len]) + Gather(p.next)
    ensures done + Gather(p) == (if Carries(p) then done + p.payload.value[..p.len] else done) + Gather(p.next)
  {}

  lemma Behind(was: seq<uint8>, now: seq<uint8>, a: nat, b: nat, bytes: seq<uint8>)
    requires a <= b <= b + |bytes| <= |was| && now == was[..b] + bytes + was[b + |bytes|..]
    ensures now[a..b + |bytes|] == was[a..b] + bytes
  {}

  /** The bytes of one segment go behind the data. */
  method TakeSegment(nb: NetBuf, offset: nat, bytes: seq<uint8>)
    requires nb.Valid() && offset == nb.tail.offset && |bytes| <= nb.tail.len
    modifies nb, nb.mem
    ensures nb.Valid() && nb.mem == old(nb.mem) && nb.Data() == old(nb.Data()) + bytes
    ensures Some(nb.Cuts()) == Moved(old(nb.Cuts()), Push(DATA_BUF, |bytes|))
  {
    ghost var was := nb.mem[..];
    CopyIn(nb.mem, offset, bytes);
    Behind(was, nb.mem[..], nb.data.offset, offset, bytes);
    var _ := nb.NetBufPush(DATA_BUF, |bytes|);
  }

  /** `nb` is what NetBufDevAlloc returned for lwipBuf.tot_len: null, or an empty buffer. */
  method Pbuf2NetBuf(nb: NetBuf?, lwipBuf: Chain) returns (r: NetBuf?)
    requires lwipBuf.Ok()
    requires nb != null ==> nb.Valid() && nb.dataLen == 0
    modifies nb, if nb == null then {} else {nb.mem}
    ensures r != null <==>
              lwipBuf != End && nb != null && |Gather(lwipBuf)| <= old(nb.tail.len)
    ensures r != null ==> r == nb && nb.Valid() && nb.mem == old(nb.mem)
    ensures r != null ==> nb.Data() == Gather(lwipBuf)
    ensures r != null ==> Some(nb.Cuts()) == Moved(old(nb.Cuts()), Push(DATA_BUF, |Gather(lwipBuf)|))
    ensures r == null && nb != null && lwipBuf != End ==> nb.frees == 1
  {
    if lwipBuf == End {
      return null;
    }
    if nb == null {
      return null;
    }
    ghost var all := Gather(lwipBuf);
    var offset := nb.data.offset;
    var tmp := lwipBuf;
    while tmp != End
      invariant tmp.Ok() && nb.Valid() && nb.mem == old(nb.mem)
      invariant nb.Data() + Gather(tmp) == all
      invariant offset == nb.tail.offset
      invariant nb.data.offset == old(nb.data.offset) && nb.len == old(nb.len)
      invariant nb.dataLen + nb.tail.len == old(nb.tail.len)
      decreases tmp
    {
      GatherNext(nb.Data(), tmp);
      if Carries(tmp) {
        if nb.tail.len < tmp.len {
          assert |all| == nb.dataLen + |Gather(tmp)|;
          nb.Free();
          return null;
        }
        TakeSegment(nb, offset, tmp.payload.value[..tmp.len]);
        offset := offset + tmp.len;
      }
      tmp := tmp.next;
    }
    return nb;
  }

  /** `p` is the payload of the pbuf that pbuf_alloc returned, null when it failed; `pad` is
      ETH_PAD_SIZE. Null stands for the null pbuf also in the result. `overran` is set when
      the copy left the pbuf, and then nothing more is promised. */
  method NetBuf2Pbuf(nb: NetBuf?, pad: nat, p: array?<uint8>) returns (r: array?<uint8>, overran: bool)
    requires (nb != null ==> nb.Valid() && nb.mem != p) && pad < TWO_TO_32
    requires var len := Wrap((if nb == null then 0 else nb.dataLen) + pad);
             p != null && len <= MAX_CONVERSION_LEN ==> p.Length == len
    modifies p
    ensures overran <==>
              && nb != null && p != null
              && nb.dataLen + pad >= TWO_TO_32 && nb.dataLen + pad - TWO_TO_32 <= 65535
    ensures r != null <==>
              nb != null && 0 < nb.dataLen && nb.dataLen + pad <= 65535 && p != null
    ensures r != null ==> r == p && r[..] == old(p[..pad]) + nb.Data()
  {
    var len := if nb == null then 0 else nb.dataLen;
    overran := false;
    WrapOver(len + pad);
    if Wrap(len + pad) > MAX_CONVERSION_LEN {
      return null, false;
    }
    if p == null {
      return null, false;
    }
    if nb == null {
      // memcpy_s from a null address into a room of 0 bytes
      return null, false;
    }
    var copy := MemcpyS(p, pad, len, nb.mem, nb.data.offset, len);
    if copy != Copied {
      return null, copy == Overran;
    }
    assert nb.mem[nb.data.offset..nb.data.offset + len] == nb.Data();
    return p, false;
  }

  /** The chain of the single pbuf that pbuf_alloc(PBUF_RAW, .., PBUF_RAM) makes. */
  function Single(payload: seq<uint8>): Chain {
    Pbuf(|payload|, Some(payload), End)
  }

  /** There and back: the data returns behind the `pad` bytes that pbuf_alloc left there. */
  method ThereAndBack(nb: NetBuf, pad: nat, p: array<uint8>, back: NetBuf) returns (r: NetBuf?)
    requires nb.Valid() && nb.mem != p
    requires 0 < nb.dataLen && nb.dataLen + pad <= MAX_CONVERSION_LEN && p.Length == nb.dataLen + pad
    requires back.Valid() && back.dataLen == 0 && back != nb && back.mem != nb.mem && back.mem != p
    requires back.tail.len >= p.Length
    modifies p, back, back.mem
    ensures r == back && back.Valid()
    ensures back.Data() == old(p[..pad]) + old(nb.Data())
    ensures nb.Valid() && nb.Data() == old(nb.Data())
  {
    var q, _ := NetBuf2Pbuf(nb, pad, p);
    var chain := Single(q[..]);
    assert Gather(chain) == q[..] + Gather(End);
    r := Pbuf2NetBuf(back, chain);
  }
}
