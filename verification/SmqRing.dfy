/** The elements of the shared-memory queue: a ring with separate write and read offsets,
    each moved by one side only, and block copies that split where the ring ends. A queue
    of the unsynchronised kind may be overwritten. */
module SmqRing {
  import opened Memory
  import opened SmqOffsets

  datatype Status = Ok | TooBig | Invalid | NoData | Failed

  /** What lies between read offset r and write offset w, going round at the end. */
  function Window<T>(b: seq<T>, r: nat, w: nat): seq<T>
    requires r <= |b| && w <= |b|
  {
    if w >= r then b[r..w] else b[r..] + b[..w]
  }

  /** The last n elements. */
  function Last<T>(s: seq<T>, n: nat): seq<T>
    requires n <= |s|
  {
    s[|s| - n..]
  }

  ghost predicate Ends<T>(s: seq<T>, end: seq<T>) {
    |end| <= |s| && Last(s, |end|) == end
  }

  lemma WroteStraight<T>(b: seq<T>, b': seq<T>, r: nat, w: nat, data: seq<T>)
    requires r < |b| && w < |b| && w + |data| <= |b|
    requires |Window(b, r, w)| + |data| < |b|
    requires b' == b[..w] + data + b[w + |data|..]
    ensures Window(b', r, Around(w + |data|, |b|)) == Window(b, r, w) + data
  {
    var n := w + |data|;
    if w >= r {
      assert b'[r..n] == b[r..w] + data;
      if n == |b| {
        assert b'[r..] + b'[..0] == b'[r..n];
      }
    } else {
      assert b'[r..] == b[r..] && b'[..n] == b[..w] + data;
    }
  }

  lemma WroteSplit<T>(b: seq<T>, b': seq<T>, r: nat, w: nat, data: seq<T>)
    requires r < |b| && w < |b| && |b| < w + |data| <= 2 * |b|
    requires |Window(b, r, w)| + |data| < |b|
    requires var first := |b| - w; b' == data[first..] + (b[..w] + data[..first])[|data| - first..]
    ensures Window(b', r, |data| - (|b| - w)) == Window(b, r, w) + data
  {
    var first := |b| - w;
    var n := |data| - first;
    assert b'[r..] == b[r..w] + data[..first] && b'[..n] == data[first..];
    assert data == data[..first] + data[first..];
  }

  /** Where there was not room enough, only the end of the data is readable. */
  lemma OverwroteStraight<T>(b: seq<T>, b': seq<T>, r: nat, w: nat, data: seq<T>)
    requires r < |b| && w < |b| && w + |data| <= |b|
    requires |Window(b, r, w)| + |data| >= |b|
    requires b' == b[..w] + data + b[w + |data|..]
    ensures Ends(data, Window(b', r, Around(w + |data|, |b|)))
  {
    var n := w + |data|;
    if w < r {
      assert b'[r..n] == data[r - w..];
      assert n == |b| ==> b'[r..] + b'[..0] == b'[r..n];
    }
  }

  lemma OverwroteSplit<T>(b: seq<T>, b': seq<T>, r: nat, w: nat, data: seq<T>)
    requires r < |b| && w < |b| && |b| < w + |data| <= 2 * |b|
    requires |Window(b, r, w)| + |data| >= |b|
    requires var first := |b| - w; b' == data[first..] + (b[..w] + data[..first])[|data| - first..]
    ensures Ends(data, Window(b', r, |data| - (|b| - w)))
  {
    var first := |b| - w;
    var n := |data| - first;
    if r <= n {
      assert b'[r..n] == data[first + r..];
    } else {
      assert b'[r..] == data[r - w..first];
      assert b'[r..] + b'[..n] == data[r - w..];
    }
  }

  /** `data` stored at `w`, in one piece or in two, and the offset after it. */
  ghost predicate Stored<T>(b: seq<T>, b': seq<T>, w: nat, data: seq<T>, w': nat)
    requires w < |b| && w + |data| <= 2 * |b|
  {
    if w + |data| <= |b| then
      b' == b[..w] + data + b[w + |data|..] && w' == Around(w + |data|, |b|)
    else
      var first := |b| - w;
      b' == data[first..] + (b[..w] + data[..first])[|data| - first..] && w' == |data| - first
  }

  /** n is total, less one or two rounds of the ring. */
  predicate Turned(total: nat, n: nat, q: nat) {
    total == n || total == n + q || total == n + 2 * q
  }

  /** What is readable after a write is the end of what was readable and the data, all of
      it when there was room. */
  lemma StoredIsReadable<T>(b: seq<T>, b': seq<T>, r: nat, w: nat, data: seq<T>, w': nat)
    requires r < |b| && w < |b| && w + |data| <= 2 * |b| && Stored(b, b', w, data, w')
    ensures |b'| == |b| && w' <= |b| && (w' == |b| <==> w + |data| == 2 * |b|)
    ensures var was, now := Window(b, r, w), Window(b', r, w');
            && Ends(was + data, now) && Turned(|was| + |data|, |now|, |b|)
            && (|was| + |data| < |b| ==> now == was + data)
  {
    var was, now := Window(b, r, w), Window(b', r, w');
    if |was| + |data| < |b| {
      if w + |data| <= |b| {
        WroteStraight(b, b', r, w, data);
      } else {
        WroteSplit(b, b', r, w, data);
      }
    } else if w + |data| <= |b| {
      OverwroteStraight(b, b', r, w, data);
    } else {
      OverwroteSplit(b, b', r, w, data);
    }
  }

  lemma ReadStraight<T>(b: seq<T>, r: nat, w: nat, n: nat)
    requires r < |b| && w < |b| && n <= |Window(b, r, w)| && r + n <= |b|
    ensures b[r..r + n] + Window(b, Around(r + n, |b|), w) == Window(b, r, w)
  {}

  lemma ReadSplit<T>(b: seq<T>, r: nat, w: nat, n: nat)
    requires r < |b| && w < |b| && n <= |Window(b, r, w)| && r + n > |b|
    ensures b[r..] + b[..n - (|b| - r)] + Window(b, n - (|b| - r), w) == Window(b, r, w)
  {}

  /** What is read is the beginning of the window. */
  lemma ReadIsPrefix<T>(b: seq<T>, r: nat, w: nat, n: nat)
    requires r < |b| && w <= |b| && n <= |Window(b, r, w)|
    ensures r + n <= |b| ==> b[r..r + n] == Window(b, r, w)[..n]
    ensures r + n > |b| ==> w < |b| && b[r..] + b[..n - (|b| - r)] == Window(b, r, w)[..n]
  {
    if r + n > |b| {
      ReadSplit(b, r, w, n);
    }
  }

  /** The two copies of a write that goes round the end; the second is refused when it is
      longer than the ring. */
  method CopyAround<T>(dst: array<T>, at: nat, data: seq<T>) returns (ok: bool)
    requires at < dst.Length < at + |data|
    modifies dst
    ensures ok <==> at + |data| <= 2 * dst.Length
    ensures var first := dst.Length - at;
            dst[..] == if ok then data[first..] + (old(dst[..at]) + data[..first])[|data| - first..]
                       else old(dst[..at]) + data[..first]
  {
    var first := dst.Length - at;
    CopyToEnd(dst, at, data[..first]);
    if |data| - first > dst.Length {
      return false;
    }
    CopyFromStart(dst, data[first..]);
    return true;
  }

  method CopyFromStart<T>(dst: array<T>, s: seq<T>)
    requires |s| <= dst.Length
    modifies dst
    ensures dst[..] == s + old(dst[..])[|s|..]
  {
    ghost var was := dst[..];
    CopyIn(dst, 0, s);
    assert was[..0] + s == s;
  }

  method CopyToEnd<T>(dst: array<T>, at: nat, s: seq<T>)
    requires at + |s| == dst.Length
    modifies dst
    ensures dst[..] == old(dst[..at]) + s
  {
    ghost var was := dst[..];
    CopyIn(dst, at, s);
    assert was[dst.Length..] == [];
  }

  lemma BelowUnchanged<T>(b: seq<T>, b': seq<T>, r: nat, w: nat)
    requires r <= w <= |b| && b[..w] <= b'
    ensures b'[r..w] == b[r..w]
  {
    assert b'[r..w] == b'[..w][r..];
  }

  class SharedMemQueue<T(0)> {
    const buffer: array<T>
    const synced: bool          // SYNCED_SMQ or UNSYNC_SMQ
    var writeOffset: nat
    var readOffset: nat

    constructor (elementCount: nat, synced: bool)
      requires 0 < elementCount
      ensures Valid() && writeOffset == 0 && readOffset == 0
      ensures buffer.Length == elementCount && fresh(buffer) && this.synced == synced
    {
      buffer := new T[elementCount];
      this.synced := synced;
      writeOffset, readOffset := 0, 0;
    }

    /** Only a queue that may be overwritten can get its write offset stuck at the end. */
    ghost predicate Valid()
      reads this
    {
      && 0 < buffer.Length && readOffset < buffer.Length && writeOffset <= buffer.Length
      && (synced ==> writeOffset < buffer.Length)
    }

    /** GetAvalidReadSize. */
    function Size(): (n: nat)
      requires Valid()
      reads this
      ensures n <= buffer.Length && (writeOffset < buffer.Length ==> n < buffer.Length)
    {
      Readable(writeOffset, readOffset, buffer.Length)
    }

    ghost function Contents(): (s: seq<T>)
      requires Valid()
      reads this, buffer
      ensures |s| == Size()
    {
      Window(buffer[..], readOffset, writeOffset)
    }

    /** A synchronised queue takes the data or refuses it, exactly as the model of the
        blocking protocol says. Any other queue overwrites what is not read yet: what is
        readable is then the end of the old contents and the data; and a write that ends
        exactly where the ring does the second time round leaves the offset stuck there,
        so that every later write fails. */
    method WriteNonBlocking(data: seq<T>) returns (r: Status)
      requires Valid()
      modifies this`writeOffset, buffer
      ensures Valid()
      ensures r == if synced && old(Size()) + |data| >= buffer.Length then TooBig
                   else if old(writeOffset) == buffer.Length then Failed
                   else if old(writeOffset) + |data| > 2 * buffer.Length then Failed
                   else Ok
      ensures r == TooBig ==> Contents() == old(Contents())
      ensures r == Failed ==> |data| >= buffer.Length - old(writeOffset)
      ensures r == Failed ==>
                && !synced && writeOffset == old(writeOffset)
                && buffer[..] == old(buffer[..writeOffset]) + data[..buffer.Length - writeOffset]
                && (readOffset <= writeOffset ==> Contents() == old(Contents()))
      ensures r == Ok ==>
                && Ends(old(Contents()) + data, Contents())
                && (old(Size()) + |data| < buffer.Length ==> Contents() == old(Contents()) + data)
                && Turned(old(Size()) + |data|, Size(), buffer.Length)
      ensures r != TooBig ==> writeOffset == OffsetAfter(old(writeOffset), |data|, buffer.Length)
    {
      if synced && |data| >= buffer.Length - Size() {
        return TooBig;
      }
      ghost var b, w := buffer[..], writeOffset;
      var ok, newOffset := Store(writeOffset, data);
      if !ok {
        if readOffset <= w {
          BelowUnchanged(b, buffer[..], readOffset, w);
        }
        return Failed;
      }
      StoredIsReadable(b, buffer[..], readOffset, w, data, newOffset);
      writeOffset := newOffset;
      return Ok;
    }

    /** The copies of a write, and the offset after it. */
    method Store(w: nat, data: seq<T>) returns (ok: bool, newOffset: nat)
      requires 0 < buffer.Length && w <= buffer.Length
      modifies buffer
      ensures ok <==> w < buffer.Length && w + |data| <= 2 * buffer.Length
      ensures ok ==> Stored(old(buffer[..]), buffer[..], w, data, newOffset)
      ensures !ok ==> |data| >= buffer.Length - w && buffer[..] == old(buffer[..w]) + data[..buffer.Length - w]
    {
      var q, count := buffer.Length, |data|;
      if w == q {
        // memcpy_s into a room of 0 bytes, whichever branch
        assert buffer[..] == buffer[..w] + data[..0];
        return false, w;
      }
      if w + count <= q {
        CopyIn(buffer, w, data);
        return true, Around(w + count, q);
      }
      ok := CopyAround(buffer, w, data);
      if !ok {
        return false, w;
      }
      return true, count - (q - w);
    }

    method ReadNonBlocking(count: nat) returns (r: Status, data: seq<T>)
      requires Valid()
      modifies this`readOffset
      ensures Valid()
      ensures r == if count == 0 then Invalid else if count <= old(Size()) then Ok else NoData
      ensures r != Ok ==> data == [] && unchanged(this)
      ensures r == Ok ==> |data| == count && data == old(Contents())[..count]
      ensures r == Ok && (writeOffset < buffer.Length || readOffset != 0) ==> data + Contents() == old(Contents())
      ensures r == Ok && writeOffset == buffer.Length && readOffset == 0 ==> Contents() == buffer[..]
    {
      if count == 0 {
        return Invalid, [];
      }
      if count > Size() {
        return NoData, [];
      }
      data := Load(count);
      return Ok, data;
    }

    /** The copies of a read, and the store of its offset. */
    method Load(count: nat) returns (data: seq<T>)
      requires Valid() && 0 < count <= Size()
      modifies this`readOffset
      ensures Valid() && data == old(Contents())[..count]
      ensures writeOffset < buffer.Length || readOffset != 0 ==> data + Contents() == old(Contents())
      ensures writeOffset == buffer.Length && readOffset == 0 ==> Contents() == buffer[..]
    {
      var q, rd := buffer.Length, readOffset;
      ReadIsPrefix(buffer[..], rd, writeOffset, count);
      if rd + count <= q {
        data := buffer[rd..rd + count];
        if writeOffset < q {
          ReadStraight(buffer[..], rd, writeOffset, count);
        }
        readOffset := Around(rd + count, q);
      } else {
        var first := q - rd;
        data := buffer[rd..] + buffer[..count - first];
        ReadSplit(buffer[..], rd, writeOffset, count);
        readOffset := count - first;
      }
    }
  }

  // ------------------------------------------------------ the stuck offset

  /** The write offset after a write of n elements to an unsynchronised queue; a write that
      fails leaves it. */
  function OffsetAfter(w: nat, n: nat, q: nat): nat
    requires w <= q && 0 < q
  {
    if w == q || w + n > 2 * q then w
    else if w + n <= q then Around(w + n, q)
    else w + n - q
  }

  function OffsetAfterAll(w: nat, ns: seq<nat>, q: nat): (w': nat)
    requires w <= q && 0 < q
    ensures w' <= q
    decreases |ns|
  {
    if ns == [] then w else OffsetAfterAll(OffsetAfter(w, ns[0], q), ns[1..], q)
  }

  predicate AtMost(ns: seq<nat>, most: nat) {
    forall n <- ns :: n <= most
  }

  lemma {:induction false} SmallWritesNeverStick(w: nat, ns: seq<nat>, q: nat)
    requires w < q && AtMost(ns, q)
    ensures OffsetAfterAll(w, ns, q) < q
    decreases |ns|
  {
    if ns != [] {
      assert ns[0] in ns && forall n <- ns[1..] :: n in ns;
      SmallWritesNeverStick(OffsetAfter(w, ns[0], q), ns[1..], q);
    }
  }

  lemma {:induction false} StuckForGood(ns: seq<nat>, q: nat)
    requires 0 < q
    ensures OffsetAfterAll(q, ns, q) == q
    decreases |ns|
  {
    if ns != [] {
      StuckForGood(ns[1..], q);
    }
  }

  /** A write of q - 1 elements and one of q + 1 leave the offset at the end. */
  lemma TwoWritesStick(q: nat)
    requires 0 < q
    ensures OffsetAfterAll(0, [q - 1, q + 1], q) == q
  {
    var ns := [q - 1, q + 1];
    assert OffsetAfter(0, q - 1, q) == q - 1 && OffsetAfter(q - 1, q + 1, q) == q;
    assert ns[1..] == [q + 1] && [q + 1][1..] == [];
    assert OffsetAfterAll(q - 1, [q + 1], q) == OffsetAfterAll(q, [], q);
  }

  /** No sequence of writes of at most `most` elements gets a fresh queue stuck, exactly
      when none of them is longer than the queue. */
  lemma NeverStuckIff(q: nat, most: nat)
    requires 0 < q
    ensures (forall ns: seq<nat> :: AtMost(ns, most) ==> OffsetAfterAll(0, ns, q) < q) <==> most <= q
  {
    if most <= q {
      forall ns: seq<nat> | AtMost(ns, most)
        ensures OffsetAfterAll(0, ns, q) < q
      {
        SmallWritesNeverStick(0, ns, q);
      }
    } else {
      TwoWritesStick(q);
      assert AtMost([q - 1, q + 1], most);
    }
  }
}
