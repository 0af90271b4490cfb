/** The receive ring of a UART port: an interrupt callback appends, a reader takes, nobody
    checks for fullness. The callback may run between any two steps of the read loop, the
    test of the guard and the load that follows it included. It never looks at the tail, so
    it makes no difference whether it runs before or after the tail moves. */
module UartRing {
  import opened Common

  const BUF_LEN := 512

  // ------------------------------------------------ what the ring means

  /** The unread bytes, and whether the reader has found some and is about to load one. */
  datatype View = View(q: seq<uint8>, armed: bool) {
    /** How many unread bytes there can be; one more while the reader is about to load. */
    function Limit(): nat {
      if armed then BUF_LEN else BUF_LEN - 1
    }

    predicate Ok() {
      |q| <= Limit() && (armed ==> q != [])
    }
  }

  const EMPTY := View([], false)

  datatype Event = Arrive(b: uint8) | Test | Load

  /** A byte beyond the limit makes the ring look empty, or, to a reader about to load, as if
      it held that byte only. */
  function Receive(v: View, b: uint8): seq<uint8> {
    if |v.q| < v.Limit() then v.q + [b] else if v.armed then [b] else []
  }

  function Stepped(v: View, e: Event): (v': View)
    requires v.Ok()
    ensures v'.Ok()
  {
    match e
    case Arrive(b) => v.(q := Receive(v, b))
    case Test => v.(armed := v.q != [])
    case Load => if v.armed then View(v.q[1..], false) else v
  }

  /** What a step hands to the reader. */
  function Got(v: View, e: Event): seq<uint8>
    requires v.Ok()
  {
    if e.Load? && v.armed then [v.q[0]] else []
  }

  function Overrun(v: View, e: Event): nat {
    if e.Arrive? && |v.q| >= v.Limit() then 1 else 0
  }

  /** The view after a run, and what the loads handed out. */
  datatype Outcome = Outcome(view: View, taken: seq<uint8>)

  function Play(v: View, evs: seq<Event>): (o: Outcome)
    requires v.Ok()
    ensures o.view.Ok()
    decreases |evs|
  {
    if evs == [] then Outcome(v, [])
    else var o := Play(Stepped(v, evs[0]), evs[1..]); o.(taken := Got(v, evs[0]) + o.taken)
  }

  function Arrived(e: Event): seq<uint8> {
    if e.Arrive? then [e.b] else []
  }

  function Arrivals(evs: seq<Event>): seq<uint8>
    decreases |evs|
  {
    if evs == [] then [] else Arrived(evs[0]) + Arrivals(evs[1..])
  }

  /** How often a run overruns the ring. */
  function Overruns(v: View, evs: seq<Event>): nat
    requires v.Ok()
    decreases |evs|
  {
    if evs == [] then 0 else Overrun(v, evs[0]) + Overruns(Stepped(v, evs[0]), evs[1..])
  }

  lemma Assoc(a: seq<uint8>, b: seq<uint8>, c: seq<uint8>)
    ensures a + b + c == a + (b + c)
  {}

  lemma {:induction false} ArrivalsSum(a: seq<Event>, b: seq<Event>)
    ensures Arrivals(a + b) == Arrivals(a) + Arrivals(b)
    decreases |a|
  {
    if a == [] {
      assert a + b == b;
    } else {
      assert (a + b)[1..] == a[1..] + b;
      ArrivalsSum(a[1..], b);
      Assoc(Arrived(a[0]), Arrivals(a[1..]), Arrivals(b));
    }
  }

  lemma {:induction false} PlayInTurn(v: View, a: seq<Event>, b: seq<Event>)
    requires v.Ok()
    ensures var o := Play(v, a); var p := Play(o.view, b);
            Play(v, a + b) == Outcome(p.view, o.taken + p.taken)
    decreases |a|
  {
    if a == [] {
      assert a + b == b;
    } else {
      assert (a + b)[0] == a[0] && (a + b)[1..] == a[1..] + b;
      var v' := Stepped(v, a[0]);
      PlayInTurn(v', a[1..], b);
      var o := Play(v', a[1..]);
      Assoc(Got(v, a[0]), o.taken, Play(o.view, b).taken);
    }
  }

  /** Every received byte is handed out, still unread, or lost: 512 at each overrun. */
  lemma {:induction false} BytesAccountedFor(v: View, evs: seq<Event>)
    requires v.Ok()
    ensures var o := Play(v, evs);
            |v.q| + |Arrivals(evs)| == |o.taken| + |o.view.q| + BUF_LEN * Overruns(v, evs)
    decreases |evs|
  {
    if evs != [] {
      BytesAccountedFor(Stepped(v, evs[0]), evs[1..]);
    }
  }

  /** One step: what is unread after it is the end of what was unread and what arrived. */
  lemma StepLeavesEnd(v: View, e: Event) returns (front: seq<uint8>)
    requires v.Ok()
    ensures v.q + Arrived(e) == front + Stepped(v, e).q
    ensures Overrun(v, e) == 0 ==> front == Got(v, e)
  {
    var all := v.q + Arrived(e);
    front := all[..|all| - |Stepped(v, e).q|];
  }

  /** What is unread is the end of what was received, in order, overruns or not. */
  lemma {:induction false} UnreadIsTheEnd(v: View, evs: seq<Event>) returns (front: seq<uint8>)
    requires v.Ok()
    ensures v.q + Arrivals(evs) == front + Play(v, evs).view.q
    decreases |evs|
  {
    if evs == [] {
      front := [];
    } else {
      var v', rest := Stepped(v, evs[0]), Arrivals(evs[1..]);
      var first := StepLeavesEnd(v, evs[0]);
      var more := UnreadIsTheEnd(v', evs[1..]);
      front := first + more;
      Assoc(v.q, Arrived(evs[0]), rest);
      Assoc(first, v'.q, rest);
      Assoc(first, more, Play(v, evs).view.q);
    }
  }

  lemma RoundsDrop(n: int, k: int)
    ensures (n + BUF_LEN * k) % BUF_LEN == n % BUF_LEN
  {}

  lemma EndOf(all: seq<uint8>, front: seq<uint8>, end: seq<uint8>)
    requires all == front + end
    ensures |end| <= |all| && end == all[|all| - |end|..]
  {}

  /** From an empty ring: the unread bytes are the last of those received, and as many as
      were received and not taken, modulo 512. */
  lemma ReadableBytes(evs: seq<Event>)
    ensures var o := Play(EMPTY, evs);
            && |o.view.q| <= |Arrivals(evs)|
            && |o.view.q| % BUF_LEN == (|Arrivals(evs)| - |o.taken|) % BUF_LEN
            && o.view.q == Arrivals(evs)[|Arrivals(evs)| - |o.view.q|..]
  {
    var o := Play(EMPTY, evs);
    BytesAccountedFor(EMPTY, evs);
    RoundsDrop(|o.view.q|, Overruns(EMPTY, evs));
    var front := UnreadIsTheEnd(EMPTY, evs);
    assert EMPTY.q + Arrivals(evs) == Arrivals(evs);
    EndOf(Arrivals(evs), front, o.view.q);
  }

  lemma {:induction false} NoOverrunInOrder(v: View, evs: seq<Event>)
    requires v.Ok() && Overruns(v, evs) == 0
    ensures Play(v, evs).taken + Play(v, evs).view.q == v.q + Arrivals(evs)
    decreases |evs|
  {
    if evs != [] {
      var v', rest := Stepped(v, evs[0]), Arrivals(evs[1..]);
      var o := Play(v', evs[1..]);
      var first := StepLeavesEnd(v, evs[0]);
      NoOverrunInOrder(v', evs[1..]);
      Assoc(v.q, Arrived(evs[0]), rest);
      Assoc(first, v'.q, rest);
      Assoc(first, o.taken, o.view.q);
    }
  }

  /** The stream comes through complete and in order exactly when the ring never overran. */
  lemma FaithfulIffNoOverrun(v: View, evs: seq<Event>)
    requires v.Ok()
    ensures Play(v, evs).taken + Play(v, evs).view.q == v.q + Arrivals(evs) <==> Overruns(v, evs) == 0
  {
    BytesAccountedFor(v, evs);
    if Overruns(v, evs) == 0 {
      NoOverrunInOrder(v, evs);
    }
  }

  // ------------------------------------------------ the driver's ring

  /** The bytes from the tail up to the head, going round the end of the buffer. */
  function Unread(buf: seq<uint8>, head: nat, tail: nat): seq<uint8>
    requires |buf| == BUF_LEN && head < BUF_LEN && tail < BUF_LEN
  {
    if tail <= head then buf[tail..head] else buf[tail..] + buf[..head]
  }

  /** All bytes, from the tail round to it again. */
  function Round(buf: seq<uint8>, tail: nat): seq<uint8>
    requires tail <= |buf|
  {
    buf[tail..] + buf[..tail]
  }

  function Next(i: nat): nat {
    if i + 1 == BUF_LEN then 0 else i + 1
  }

  lemma UnreadLength(buf: seq<uint8>, head: nat, tail: nat)
    requires |buf| == BUF_LEN && head < BUF_LEN && tail < BUF_LEN
    ensures |Unread(buf, head, tail)| == (head - tail) % BUF_LEN
  {
    assert tail <= head ==> Unread(buf, head, tail) == buf[tail..head];
  }

  /** Storing at the head, not just before the tail, appends. */
  lemma StoreAppends(buf: seq<uint8>, head: nat, tail: nat, b: uint8)
    requires |buf| == BUF_LEN && head < BUF_LEN && tail < BUF_LEN && Next(head) != tail
    ensures Unread(buf[head := b], Next(head), tail) == Unread(buf, head, tail) + [b]
  {
    var next := Unread(buf[head := b], Next(head), tail);
    assert |next| == |Unread(buf, head, tail)| + 1;
  }

  /** Storing just before the tail fills the buffer, and makes it look empty. */
  lemma StoreFills(buf: seq<uint8>, head: nat, tail: nat, b: uint8)
    requires |buf| == BUF_LEN && head < BUF_LEN && tail < BUF_LEN && Next(head) == tail
    ensures |Unread(buf, head, tail)| == BUF_LEN - 1 && Unread(buf[head := b], tail, tail) == []
    ensures Round(buf[head := b], tail) == Unread(buf, head, tail) + [b]
  {}

  lemma SplitFirst(buf: seq<uint8>, i: nat, j: nat)
    requires i < j <= |buf|
    ensures buf[i..j] == [buf[i]] + buf[i + 1..j]
  {}

  /** Loading at the tail takes the oldest unread byte, of a full buffer too. */
  lemma LoadTakes(buf: seq<uint8>, head: nat, tail: nat)
    requires |buf| == BUF_LEN && head < BUF_LEN && tail < BUF_LEN
    ensures (if head == tail then Round(buf, tail) else Unread(buf, head, tail))
         == [buf[tail]] + Unread(buf, head, Next(tail))
  {
    if tail < head {
      SplitFirst(buf, tail, head);
    } else {
      LoadAround(buf, head, tail);
    }
  }

  lemma LoadAround(buf: seq<uint8>, head: nat, tail: nat)
    requires |buf| == BUF_LEN && head <= tail < BUF_LEN
    ensures buf[tail..] + buf[..head] == [buf[tail]] + Unread(buf, head, Next(tail))
  {
    if tail + 1 == BUF_LEN {
      assert buf[tail..] == [buf[tail]];
    } else {
      SplitFirst(buf, tail, BUF_LEN);
      Assoc([buf[tail]], buf[tail + 1..], buf[..head]);
    }
  }

  /** The buffer, the head and the tail of a port, and whether its reader is about to load. */
  datatype Ring = Ring(buf: seq<uint8>, head: nat, tail: nat, armed: bool) {
    predicate Ok() {
      |buf| == BUF_LEN && head < BUF_LEN && tail < BUF_LEN
    }

    /** A reader about to load has found the ring not empty; if head and tail are the same
        for it, the ring has filled up since. */
    function Seen(): View
      requires Ok()
    {
      View(if armed && head == tail then Round(buf, tail) else Unread(buf, head, tail), armed)
    }

    /** What a callback, a test of the guard or a load does to it. */
    function After(e: Event): (r: Ring)
      requires Ok()
      ensures r.Ok()
    {
      match e
      case Arrive(b) => Ring(buf[head := b], Next(head), tail, armed)
      case Test => this.(armed := armed || head != tail)
      case Load => if armed then Ring(buf, head, Next(tail), false) else this
    }

    /** The byte a load reads. */
    function Read(e: Event): seq<uint8>
      requires Ok()
    {
      if e.Load? && armed then [buf[tail]] else []
    }
  }

  lemma SeenIsOk(r: Ring)
    requires r.Ok()
    ensures r.Seen().Ok()
    ensures !r.armed ==> (r.Seen().q == [] <==> r.head == r.tail)
  {}

  /** Each step of the driver's ring is a step of the view. */
  lemma RingSteps(r: Ring, e: Event)
    requires r.Ok() && r.Seen().Ok()
    ensures r.After(e).Seen() == Stepped(r.Seen(), e) && r.Read(e) == Got(r.Seen(), e)
  {
    SeenIsOk(r);
    match e {
      case Arrive(b) =>
        if r.armed && r.head == r.tail {
          StoreOver(r, b);
        } else if Next(r.head) == r.tail {
          StoreFills(r.buf, r.head, r.tail, b);
        } else {
          StoreAppends(r.buf, r.head, r.tail, b);
          ShortOf(r);
        }
      case Test =>
      case Load =>
        if r.armed {
          LoadTakes(r.buf, r.head, r.tail);
        }
    }
  }

  lemma StoreOver(r: Ring, b: uint8)
    requires r.Ok() && r.armed && r.head == r.tail
    ensures |r.Seen().q| == BUF_LEN && r.After(Arrive(b)).Seen().q == [b]
  {}

  lemma ShortOf(r: Ring)
    requires r.Ok() && Next(r.head) != r.tail && !(r.armed && r.head == r.tail)
    ensures |r.Seen().q| < BUF_LEN - 1
  {}

  function RingAfter(r: Ring, evs: seq<Event>): (r': Ring)
    requires r.Ok()
    ensures r'.Ok()
    decreases |evs|
  {
    if evs == [] then r else RingAfter(r.After(evs[0]), evs[1..])
  }

  /** The bytes the loads read. */
  function Loaded(r: Ring, evs: seq<Event>): seq<uint8>
    requires r.Ok()
    decreases |evs|
  {
    if evs == [] then [] else r.Read(evs[0]) + Loaded(r.After(evs[0]), evs[1..])
  }

  /** The ring of the driver plays the view, in every run. */
  lemma {:induction false} RingPlays(r: Ring, evs: seq<Event>)
    requires r.Ok() && r.Seen().Ok()
    ensures RingAfter(r, evs).Seen().Ok()
    ensures Play(r.Seen(), evs) == Outcome(RingAfter(r, evs).Seen(), Loaded(r, evs))
    decreases |evs|
  {
    if evs != [] {
      RingSteps(r, evs[0]);
      RingPlays(r.After(evs[0]), evs[1..]);
    }
  }

  /** Over any run that starts with head == tail, the bytes between tail and head are the
      last (head - tail) mod 512 bytes received. */
  lemma RingHoldsTheEnd(r: Ring, evs: seq<Event>)
    requires r.Ok() && r.head == r.tail && !r.armed
    ensures var f := RingAfter(r, evs);
            var n := (f.head - f.tail) % 512;
            n <= |Arrivals(evs)| && Unread(f.buf, f.head, f.tail) == Arrivals(evs)[|Arrivals(evs)| - n..]
  {
    assert r.Seen() == EMPTY;
    RingPlays(r, evs);
    ReadableBytes(evs);
    var f := RingAfter(r, evs);
    UnreadLength(f.buf, f.head, f.tail);
  }

  // ------------------------------------------------ the driver's code

  class RxRing {
    var rxBuf: array?<uint8>
    var rxHead: nat
    var rxTail: nat
    ghost var armed: bool     // the reader is between the test of its guard and the load

    ghost predicate Valid()
      reads this, rxBuf
    {
      && rxBuf != null && rxBuf.Length == BUF_LEN && rxHead < BUF_LEN && rxTail < BUF_LEN
      && AsRing().Seen().Ok()
    }

    ghost function AsRing(): Ring
      requires rxBuf != null
      reads this, rxBuf
    {
      Ring(rxBuf[..], rxHead, rxTail, armed)
    }

    ghost function Seen(): View
      requires Valid()
      reads this, rxBuf
    {
      AsRing().Seen()
    }

    /** The three UartNCallback functions, one for each port. */
    method Callback(b: uint8)
      requires rxBuf != null ==> Valid()
      modifies this`rxHead, rxBuf
      ensures rxBuf == null ==> unchanged(this)
      ensures rxBuf != null ==> Valid() && Seen() == Stepped(old(Seen()), Arrive(b))
    {
      var dst := rxBuf;
      if dst != null {
        RingSteps(AsRing(), Arrive(b));
        ghost var after := AsRing().After(Arrive(b));
        dst[rxHead] := b;
        rxHead := rxHead + 1;
        rxHead := rxHead % BUF_LEN;
        assert AsRing() == after;
      }
    }

    /** The guard of a read loop. */
    method TestGuard() returns (go: bool)
      requires Valid() && !armed
      modifies this`armed
      ensures Valid() && Seen() == Stepped(old(Seen()), Test) && go == armed
      ensures !go ==> Seen() == EMPTY
    {
      RingSteps(AsRing(), Test);
      go := rxHead != rxTail;
      armed := go;
      assert AsRing() == old(AsRing().After(Test));
    }

    /** One load at the tail, which then moves on round the ring. */
    method LoadByte() returns (b: uint8)
      requires Valid() && armed
      modifies this`rxTail, this`armed
      ensures Valid() && Seen() == Stepped(old(Seen()), Load) && !armed
      ensures [b] == Got(old(Seen()), Load)
    {
      RingSteps(AsRing(), Load);
      b := rxBuf[rxTail];
      rxTail := rxTail + 1;
      rxTail := rxTail % BUF_LEN;
      armed := false;
      assert AsRing() == old(AsRing().After(Load));
    }

    /** The bytes that arrive between two steps of the reader. */
    method Deliver(bs: seq<uint8>) returns (ghost evs: seq<Event>)
      requires Valid()
      modifies this`rxHead, rxBuf
      ensures Valid() && Arrivals(evs) == bs && Play(old(Seen()), evs) == Outcome(Seen(), [])
    {
      evs := [];
      ghost var start, v := Seen(), Seen();
      for i := 0 to |bs|
        invariant Valid() && v == Seen()
        invariant Arrivals(evs) == bs[..i] && Play(start, evs) == Outcome(v, [])
      {
        NextArrival(start, evs, v, bs[i], bs[..i]);
        assert bs[..i + 1] == bs[..i] + [bs[i]];
        Callback(bs[i]);
        evs, v := evs + [Arrive(bs[i])], Stepped(v, Arrive(bs[i]));
      }
      assert bs[..|bs|] == bs;
    }

    /** The body of either read loop, where the guard was met: what arrives before the load,
        and the load into `data`. */
    method TakeInto(data: array<uint8>, recvLen: nat, between: seq<uint8>) returns (ghost evs: seq<Event>)
      requires Valid() && armed && recvLen < data.Length && data != rxBuf
      modifies this`rxHead, this`rxTail, this`armed, rxBuf, data
      ensures Valid() && !armed && Arrivals(evs) == between
      ensures data[..recvLen + 1] == old(data[..recvLen]) + [data[recvLen]]
      ensures data[recvLen + 1..] == old(data[recvLen + 1..])
      ensures Play(old(Seen()), evs) == Outcome(Seen(), [data[recvLen]])
    {
      ghost var start := Seen();
      evs := Deliver(between);
      OneMore(start, evs, Load);
      data[recvLen] := LoadByte();
      evs := evs + [Load];
    }

    /** What arrives before the guard of a read loop is tested, and the test. */
    method DeliverAndTest(before: seq<uint8>) returns (go: bool, ghost evs: seq<Event>)
      requires Valid() && !armed
      modifies this`rxHead, this`armed, rxBuf
      ensures Valid() && go == armed && Arrivals(evs) == before
      ensures Play(old(Seen()), evs) == Outcome(Seen(), []) && (!go ==> Seen() == EMPTY)
    {
      ghost var start := Seen();
      evs := Deliver(before);
      OneMore(start, evs, Test);
      go := TestGuard();
      evs := evs + [Test];
    }

    /** One turn of either read loop: what arrives before the guard is tested, the test, and
        if it is met what arrives before the load, and the load. */
    method Turn(data: array<uint8>, recvLen: nat, before: seq<uint8>, between: seq<uint8>)
      returns (took: bool, ghost evs: seq<Event>)
      requires Valid() && !armed && recvLen < data.Length && data != rxBuf
      modifies this`rxHead, this`rxTail, this`armed, rxBuf, data
      ensures Valid() && !armed && Arrivals(evs) == before + if took then between else []
      ensures data[recvLen + 1..] == old(data[recvLen + 1..])
      ensures if took then data[..recvLen + 1] == old(data[..recvLen]) + [data[recvLen]]
              else data[..] == old(data[..]) && Seen() == EMPTY
      ensures Play(old(Seen()), evs) == Outcome(Seen(), if took then [data[recvLen]] else [])
    {
      ghost var start := Seen();
      took, evs := DeliverAndTest(before);
      if took {
        ghost var more := TakeInto(data, recvLen, between);
        PlayInTurn(start, evs, more);
        ArrivalsSum(evs, more);
        evs := evs + more;
      }
    }

    /** UartHostDevRead without UART_FLG_RD_BLOCK: `before(k)` arrives before the k-th test
        of the guard and `between(k)` before the load after it. The read stops when `size`
        bytes are there or the ring is found empty. */
    method ReadNonBlocking(data: array<uint8>, size: nat, before: nat -> seq<uint8>, between: nat -> seq<uint8>)
      returns (recvLen: nat, ghost evs: seq<Event>)
      requires Valid() && !armed && size <= data.Length && data != rxBuf
      modifies this`rxHead, this`rxTail, this`armed, rxBuf, data
      ensures Valid() && !armed && recvLen <= size
      ensures Play(old(Seen()), evs) == Outcome(Seen(), data[..recvLen])
      ensures Arrivals(evs) == Gaps(before, between, recvLen) + if recvLen < size then before(recvLen) else []
      ensures recvLen < size ==> Seen() == EMPTY
      ensures data[recvLen..] == old(data[recvLen..])
    {
      recvLen, evs := 0, [];
      ghost var start := Seen();
      while recvLen != size
        invariant Valid() && !armed && recvLen <= size
        invariant Play(start, evs) == Outcome(Seen(), data[..recvLen])
        invariant Arrivals(evs) == Gaps(before, between, recvLen)
        invariant data[recvLen..] == old(data[recvLen..])
        decreases size - recvLen
      {
        var took;
        ghost var more, was, v := [], data[..], Seen();
        took, more := Turn(data, recvLen, before(recvLen), between(recvLen));
        NextTurn(start, evs, v, was[..recvLen], more, Outcome(Seen(), if took then [data[recvLen]] else []));
        evs := evs + more;
        if !took {
          assert data[..] == was && was[..recvLen] + [] == data[..recvLen];
          break;
        }
        assert was[recvLen + 1..] == was[recvLen..][1..] == old(data[recvLen..])[1..] == old(data[recvLen + 1..]);
        Assoc(Gaps(before, between, recvLen), before(recvLen), between(recvLen));
        recvLen := recvLen + 1;
      }
    }

    /** The blocking read, for as many turns of its loop as it is watched. It returns from
        the loop only with exactly `size` bytes. */
    method ReadBlocking(data: array<uint8>, size: nat, before: nat -> seq<uint8>, between: nat -> seq<uint8>,
                        turns: nat)
      returns (recvLen: nat, ghost took: seq<bool>, ghost evs: seq<Event>)
      requires Valid() && !armed && size <= data.Length && data != rxBuf
      modifies this`rxHead, this`rxTail, this`armed, rxBuf, data
      ensures Valid() && !armed && recvLen <= size
      ensures |took| <= turns && (recvLen == size || |took| == turns)
      ensures Play(old(Seen()), evs) == Outcome(Seen(), data[..recvLen])
      ensures Arrivals(evs) == Came(before, between, took) && recvLen == Trues(took)
      ensures data[recvLen..] == old(data[recvLen..])
    {
      recvLen, evs, took := 0, [], [];
      ghost var start := Seen();
      var k := 0;
      while recvLen != size && k < turns
        invariant Valid() && !armed && recvLen <= size && |took| == k <= turns
        invariant Play(start, evs) == Outcome(Seen(), data[..recvLen])
        invariant Arrivals(evs) == Came(before, between, took) && recvLen == Trues(took)
        invariant data[recvLen..] == old(data[recvLen..])
        decreases turns - k
      {
        var go;
        ghost var more, was, v := [], data[..], Seen();
        go, more := Turn(data, recvLen, before(k), between(k));
        NextTurn(start, evs, v, was[..recvLen], more, Outcome(Seen(), if go then [data[recvLen]] else []));
        if go {
          assert was[recvLen + 1..] == was[recvLen..][1..] == old(data[recvLen..])[1..] == old(data[recvLen + 1..]);
        } else {
          assert data[..] == was && was[..recvLen] + [] == data[..recvLen];
        }
        assert (took + [go])[..k] == took;
        evs, took := evs + more, took + [go];
        recvLen := if go then recvLen + 1 else recvLen;
        k := k + 1;
      }
    }
  }

  /** Everything that arrives in the first `n` turns of a read that finds a byte in each. */
  function Gaps(before: nat -> seq<uint8>, between: nat -> seq<uint8>, n: nat): seq<uint8> {
    if n == 0 then [] else Gaps(before, between, n - 1) + before(n - 1) + between(n - 1)
  }

  /** Everything that arrives in turns that found a byte or not. */
  function Came(before: nat -> seq<uint8>, between: nat -> seq<uint8>, took: seq<bool>): seq<uint8> {
    if took == [] then []
    else
      var k := |took| - 1;
      Came(before, between, took[..k]) + (before(k) + if took[k] then between(k) else [])
  }

  function Trues(took: seq<bool>): nat {
    if took == [] then 0 else Trues(took[..|took| - 1]) + if took[|took| - 1] then 1 else 0
  }

  lemma OneEvent(v: View, e: Event)
    requires v.Ok()
    ensures Arrivals([e]) == Arrived(e) && Play(v, [e]) == Outcome(Stepped(v, e), Got(v, e))
  {
    assert [e][1..] == [];
  }

  lemma OneMore(v: View, evs: seq<Event>, e: Event)
    requires v.Ok()
    ensures Arrivals(evs + [e]) == Arrivals(evs) + Arrived(e)
    ensures var o := Play(v, evs);
            Play(v, evs + [e]) == Outcome(Stepped(o.view, e), o.taken + Got(o.view, e))
  {
    PlayInTurn(v, evs, [e]);
    ArrivalsSum(evs, [e]);
    OneEvent(Play(v, evs).view, e);
  }

  lemma NextArrival(start: View, evs: seq<Event>, v: View, b: uint8, bs: seq<uint8>)
    requires start.Ok() && v.Ok() && Arrivals(evs) == bs && Play(start, evs) == Outcome(v, [])
    ensures Arrivals(evs + [Arrive(b)]) == bs + [b]
    ensures Play(start, evs + [Arrive(b)]) == Outcome(Stepped(v, Arrive(b)), [])
  {
    ArrivalsSum(evs, [Arrive(b)]);
    OneEvent(v, Arrive(b));
    NextTurn(start, evs, v, [], [Arrive(b)], Outcome(Stepped(v, Arrive(b)), []));
    assert [] + Got(v, Arrive(b)) == [];
  }

  lemma NextTurn(start: View, evs: seq<Event>, v: View, taken: seq<uint8>, more: seq<Event>, o: Outcome)
    requires start.Ok() && v.Ok() && Play(start, evs) == Outcome(v, taken) && Play(v, more) == o
    ensures Play(start, evs + more) == Outcome(o.view, taken + o.taken)
    ensures Arrivals(evs + more) == Arrivals(evs) + Arrivals(more)
  {
    PlayInTurn(start, evs, more);
    ArrivalsSum(evs, more);
  }
}
