/** One writer and one reader of a synchronised shared-memory queue at the same time: every
    load of the other side's offset, every element copied and every store of an offset is a
    step of its own, in any order. What comes out is what went in, in order. */
module SmqInterleave {
  import opened SmqOffsets
  import opened SmqRing

  datatype Writer<T> = WIdle | WCopy(data: seq<T>, i: nat)   // i elements are in the ring
  datatype Reader<T> = RIdle | RCopy(n: nat, got: seq<T>)

  /** `sent` and `received` are the data of the writes and reads that have returned. */
  datatype State<T> = State(
    buf: seq<T>, w: nat, r: nat,
    writer: Writer<T>, reader: Reader<T>,
    sent: seq<T>, received: seq<T>)

  datatype Event<T> =
    | BeginWrite(data: seq<T>)   // loads both offsets, and goes on or is refused
    | PutOne
    | EndWrite                   // stores the write offset
    | BeginRead(n: nat)          // loads both offsets, and goes on or is refused
    | GetOne
    | EndRead                    // stores the read offset

  /** Where the i-th element from an offset is: in the first piece of a copy, or in the second. */
  function Slot(at: nat, i: nat, q: nat): (k: nat)
    requires at < q && i < q
    ensures k < q
  {
    if at + i < q then at + i else at + i - q
  }

  predicate Ok<T>(s: State<T>, q: nat) {
    && |s.buf| == q && s.w < q && s.r < q
    && (s.writer.WCopy? ==> s.writer.i <= |s.writer.data| < q)
    && (s.reader.RCopy? ==> |s.reader.got| <= s.reader.n < q)
  }

  predicate Enabled<T>(s: State<T>, e: Event<T>) {
    match e
    case BeginWrite(_) => s.writer.WIdle?
    case PutOne => s.writer.WCopy? && s.writer.i < |s.writer.data|
    case EndWrite => s.writer.WCopy? && s.writer.i == |s.writer.data|
    case BeginRead(_) => s.reader.RIdle?
    case GetOne => s.reader.RCopy? && |s.reader.got| < s.reader.n
    case EndRead => s.reader.RCopy? && |s.reader.got| == s.reader.n
  }

  function Apply<T>(s: State<T>, e: Event<T>, q: nat): (s': State<T>)
    requires Ok(s, q) && Enabled(s, e)
    ensures Ok(s', q)
  {
    match e
    case BeginWrite(data) =>
      if CanWrite(Readable(s.w, s.r, q), |data|, q) then s.(writer := WCopy(data, 0)) else s
    case PutOne =>
      var i := s.writer.i;
      s.(buf := s.buf[Slot(s.w, i, q) := s.writer.data[i]], writer := WCopy(s.writer.data, i + 1))
    case EndWrite =>
      s.(w := Moved(s.w, |s.writer.data|, q), writer := WIdle, sent := s.sent + s.writer.data)
    case BeginRead(n) =>
      if CanRead(Readable(s.w, s.r, q), n) then s.(reader := RCopy(n, [])) else s
    case GetOne =>
      var got := s.reader.got;
      s.(reader := RCopy(s.reader.n, got + [s.buf[Slot(s.r, |got|, q)]]))
    case EndRead =>
      s.(r := Moved(s.r, s.reader.n, q), reader := RIdle, received := s.received + s.reader.got)
  }

  function Start<T>(buf: seq<T>): State<T> {
    State(buf, 0, 0, WIdle, RIdle, [], [])
  }

  predicate Run<T>(s: State<T>, evs: seq<Event<T>>, q: nat)
    requires Ok(s, q)
    decreases |evs|
  {
    evs == [] || (Enabled(s, evs[0]) && Run(Apply(s, evs[0], q), evs[1..], q))
  }

  function After<T>(s: State<T>, evs: seq<Event<T>>, q: nat): (s': State<T>)
    requires Ok(s, q) && Run(s, evs, q)
    ensures Ok(s', q)
    decreases |evs|
  {
    if evs == [] then s else After(Apply(s, evs[0], q), evs[1..], q)
  }

  // -------------------------------------------------- positions in the stream

  /** The cell of the k-th element of the whole stream. */
  function Pos(k: nat, q: nat): (p: nat)
    requires 0 < q
    ensures p < q
  {
    if k == 0 then 0 else var p := Pos(k - 1, q); if p + 1 == q then 0 else p + 1
  }

  lemma {:induction false} PosPlus(k: nat, i: nat, q: nat)
    requires i < q
    ensures Pos(k + i, q) == Slot(Pos(k, q), i, q)
  {
    if i > 0 {
      PosPlus(k, i - 1, q);
    }
  }

  /** Elements less than a round apart are in different cells. */
  lemma PosDiffer(j: nat, k: nat, q: nat)
    requires j < k < j + q
    ensures Pos(j, q) != Pos(k, q)
  {
    PosPlus(j, k - j, q);
  }

  lemma PosMoved(k: nat, n: nat, q: nat)
    requires n < q
    ensures Pos(k + n, q) == Moved(Pos(k, q), n, q)
  {
    PosPlus(k, n, q);
  }

  lemma SizeIsDistance(j: nat, k: nat, q: nat)
    requires j <= k < j + q
    ensures Readable(Pos(k, q), Pos(j, q), q) == k - j
  {
    PosPlus(j, k - j, q);
  }

  /** The cells from position `at` on hold `data`. */
  ghost predicate Holds<T>(buf: seq<T>, q: nat, at: nat, data: seq<T>)
    requires |buf| == q > 0
  {
    forall j | 0 <= j < |data| :: buf[Pos(at + j, q)] == data[j]
  }

  lemma HoldsBoth<T>(buf: seq<T>, q: nat, at: nat, a: seq<T>, b: seq<T>)
    requires |buf| == q > 0
    ensures Holds(buf, q, at, a + b) <==> Holds(buf, q, at, a) && Holds(buf, q, at + |a|, b)
  {
    forall j | 0 <= j < |b|
      ensures (a + b)[|a| + j] == b[j] && at + (|a| + j) == at + |a| + j
    {}
    forall j | 0 <= j < |a|
      ensures (a + b)[j] == a[j]
    {}
    if Holds(buf, q, at, a) && Holds(buf, q, at + |a|, b) {
      forall j | 0 <= j < |a + b|
        ensures buf[Pos(at + j, q)] == (a + b)[j]
      {
        if j >= |a| {
          assert buf[Pos(at + |a| + (j - |a|), q)] == b[j - |a|];
        }
      }
    }
    if Holds(buf, q, at, a + b) {
      forall j | 0 <= j < |b|
        ensures buf[Pos(at + |a| + j, q)] == b[j]
      {
        assert buf[Pos(at + (|a| + j), q)] == (a + b)[|a| + j];
      }
    }
  }

  /** Storing behind what the cells hold, less than a round on, leaves them alone. */
  lemma HoldsPut<T>(buf: seq<T>, q: nat, at: nat, data: seq<T>, k: nat, x: T)
    requires |buf| == q > 0 && Holds(buf, q, at, data)
    requires at + |data| <= k < at + q
    ensures Holds(buf[Pos(k, q) := x], q, at, data)
  {
    forall j | 0 <= j < |data|
      ensures buf[Pos(k, q) := x][Pos(at + j, q)] == data[j]
    {
      PosDiffer(at + j, k, q);
    }
  }

  /** Storing the next element. */
  lemma HoldsOneMore<T>(buf: seq<T>, q: nat, at: nat, data: seq<T>, i: nat)
    requires |buf| == q > 0 && i < |data| && i < q && Holds(buf, q, at, data[..i])
    ensures Holds(buf[Pos(at + i, q) := data[i]], q, at, data[..i + 1])
  {
    var buf' := buf[Pos(at + i, q) := data[i]];
    HoldsPut(buf, q, at, data[..i], at + i, data[i]);
    var more := data[..i + 1];
    forall j | 0 <= j < |more|
      ensures buf'[Pos(at + j, q)] == more[j]
    {
      if j < i {
        assert data[..i][j] == more[j];
      }
    }
  }

  // ------------------------------------------------------------ invariant

  /** What has been written and not yet read. */
  function Queue<T>(s: State<T>): seq<T>
    requires |s.received| <= |s.sent|
  {
    s.sent[|s.received|..]
  }

  /** The unread elements are in their cells, the writer's are behind them, and the reader
      has got the next ones. */
  ghost predicate Inv<T>(s: State<T>, q: nat) {
    var sent, done := |s.sent|, |s.received|;
    && 0 < q && Ok(s, q) && done <= sent < done + q
    && s.w == Pos(sent, q) && s.r == Pos(done, q)
    && s.received == s.sent[..done]
    && Holds(s.buf, q, done, Queue(s))
    && (s.writer.WCopy? ==>
          sent + |s.writer.data| < done + q && Holds(s.buf, q, sent, s.writer.data[..s.writer.i]))
    && (s.reader.RCopy? ==>
          s.reader.n <= |Queue(s)| && s.reader.got == Queue(s)[..|s.reader.got|])
  }

  lemma PutKeepsInv<T>(s: State<T>, q: nat)
    requires Inv(s, q) && Enabled(s, PutOne)
    ensures Inv(Apply(s, PutOne, q), q)
  {
    var sent, done, data, i := |s.sent|, |s.received|, s.writer.data, s.writer.i;
    PosPlus(sent, i, q);
    var buf := s.buf[Pos(sent + i, q) := data[i]];
    HoldsPut(s.buf, q, done, Queue(s), sent + i, data[i]);
    HoldsOneMore(s.buf, q, sent, data, i);
    assert Apply(s, PutOne, q) == s.(buf := buf, writer := WCopy(data, i + 1));
  }

  lemma EndWriteKeepsInv<T>(s: State<T>, q: nat)
    requires Inv(s, q) && Enabled(s, EndWrite)
    ensures Inv(Apply(s, EndWrite, q), q)
  {
    var s', data := Apply(s, EndWrite, q), s.writer.data;
    PosMoved(|s.sent|, |data|, q);
    assert data[..|data|] == data;
    HoldsBoth(s.buf, q, |s.received|, Queue(s), data);
    assert Queue(s') == Queue(s) + data;
    assert s'.sent[..|s.received|] == s.sent[..|s.received|];
    if s.reader.RCopy? {
      var n := |s.reader.got|;
      assert Queue(s')[..n] == Queue(s)[..n];
    }
  }

  lemma GetKeepsInv<T>(s: State<T>, q: nat)
    requires Inv(s, q) && Enabled(s, GetOne)
    ensures Inv(Apply(s, GetOne, q), q)
  {
    var done, n := |s.received|, |s.reader.got|;
    PosPlus(done, n, q);
    assert s.buf[Pos(done + n, q)] == Queue(s)[n];
    assert Queue(s)[..n + 1] == Queue(s)[..n] + [Queue(s)[n]];
  }

  lemma EndReadKeepsInv<T>(s: State<T>, q: nat)
    requires Inv(s, q) && Enabled(s, EndRead)
    ensures Inv(Apply(s, EndRead, q), q)
  {
    var s', done, n := Apply(s, EndRead, q), |s.received|, s.reader.n;
    PosMoved(done, n, q);
    assert s.sent[..done + n] == s.sent[..done] + Queue(s)[..n];
    assert Queue(s) == Queue(s)[..n] + Queue(s');
    HoldsBoth(s.buf, q, done, Queue(s)[..n], Queue(s'));
  }

  lemma StepKeepsInv<T>(s: State<T>, e: Event<T>, q: nat)
    requires Inv(s, q) && Enabled(s, e)
    ensures Inv(Apply(s, e, q), q)
  {
    SizeIsDistance(|s.received|, |s.sent|, q);
    match e {
      case PutOne => PutKeepsInv(s, q);
      case EndWrite => EndWriteKeepsInv(s, q);
      case GetOne => GetKeepsInv(s, q);
      case EndRead => EndReadKeepsInv(s, q);
      case BeginWrite(_) =>
      case BeginRead(_) =>
        assert Queue(s)[..0] == [];
    }
  }

  lemma {:induction false} RunKeepsInv<T>(s: State<T>, evs: seq<Event<T>>, q: nat)
    requires Inv(s, q) && Run(s, evs, q)
    ensures Inv(After(s, evs, q), q)
    decreases |evs|
  {
    if evs != [] {
      StepKeepsInv(s, evs[0], q);
      RunKeepsInv(Apply(s, evs[0], q), evs[1..], q);
    }
  }

  // ------------------------------------------------------------ refinement

  lemma Appended<T>(sent: seq<T>, data: seq<T>, done: nat)
    requires done <= |sent|
    ensures (sent + data)[done..] == sent[done..] + data
  {}

  lemma TakenFromFront<T>(sent: seq<T>, done: nat, n: nat)
    requires done + n <= |sent|
    ensures sent[done..][..n] + sent[done + n..] == sent[done..]
  {}

  /** Each step is a step of a plain queue, or none: a finished write appends its data, a
      finished read takes what it returns from the front, and whether a call is refused
      depends on the plain queue at the moment the call looks. */
  lemma StepRefines<T>(s: State<T>, e: Event<T>, q: nat)
    requires Inv(s, q) && Enabled(s, e)
    ensures var s' := Apply(s, e, q);
            && |s'.received| <= |s'.sent|
            && match e
               case EndWrite => Queue(s') == Queue(s) + s.writer.data
               case EndRead => |s.reader.got| == s.reader.n && s.reader.got + Queue(s') == Queue(s)
               case BeginWrite(data) => Queue(s') == Queue(s) && (s'.writer.WCopy? <==> |Queue(s)| + |data| < q)
               case BeginRead(n) => Queue(s') == Queue(s) && (s'.reader.RCopy? <==> 0 < n <= |Queue(s)|)
               case _ => Queue(s') == Queue(s)
  {
    match e
    case EndWrite => Appended(s.sent, s.writer.data, |s.received|);
    case EndRead => TakenFromFront(s.sent, |s.received|, s.reader.n);
    case BeginWrite(_) => SizeIsDistance(|s.received|, |s.sent|, q);
    case BeginRead(_) => SizeIsDistance(|s.received|, |s.sent|, q);
    case _ =>
  }

  lemma WindowIsQueue<T>(s: State<T>, q: nat)
    requires Inv(s, q)
    ensures Window(s.buf, s.r, s.w) == Queue(s)
  {
    var done := |s.received|;
    SizeIsDistance(done, |s.sent|, q);
    var win := Window(s.buf, s.r, s.w);
    forall i | 0 <= i < |win|
      ensures win[i] == Queue(s)[i]
    {
      PosPlus(done, i, q);
      assert win[i] == s.buf[Slot(s.r, i, q)];
      assert s.buf[Pos(done + i, q)] == Queue(s)[i];
    }
  }

  // ------------------------------------------------ what the callers gave

  /** A queue, the data of a write that is under way, and how much a read under way takes. */
  datatype Plain<T> = Plain(queue: seq<T>, coming: seq<T>, going: nat)

  function Nothing<T>(): Plain<T> {
    Plain([], [], 0)
  }

  /** What an event is to a queue that nothing else is known of than its capacity. */
  function Dealt<T>(p: Plain<T>, e: Event<T>, q: nat): Plain<T> {
    match e
    case BeginWrite(data) => if |p.queue| + |data| < q then p.(coming := data) else p
    case EndWrite => p.(queue := p.queue + p.coming, coming := [])
    case BeginRead(n) => if 0 < n <= |p.queue| then p.(going := n) else p
    case EndRead => if p.going <= |p.queue| then p.(queue := p.queue[p.going..], going := 0) else p
    case _ => p
  }

  function AllDealt<T>(p: Plain<T>, evs: seq<Event<T>>, q: nat): Plain<T>
    decreases |evs|
  {
    if evs == [] then p else AllDealt(Dealt(p, evs[0], q), evs[1..], q)
  }

  /** The data that a caller gives to a write that goes ahead. */
  function GivenBy<T>(p: Plain<T>, e: Event<T>, q: nat): seq<T> {
    if e.BeginWrite? && |p.queue| + |e.data| < q then e.data else []
  }

  /** How much a read that goes ahead asks for. */
  function AskedBy<T>(p: Plain<T>, e: Event<T>): nat {
    if e.BeginRead? && 0 < e.n <= |p.queue| then e.n else 0
  }

  /** All that callers gave, one after the other, and all they asked for. */
  function Given<T>(p: Plain<T>, evs: seq<Event<T>>, q: nat): seq<T>
    decreases |evs|
  {
    if evs == [] then [] else GivenBy(p, evs[0], q) + Given(Dealt(p, evs[0], q), evs[1..], q)
  }

  function Asked<T>(p: Plain<T>, evs: seq<Event<T>>, q: nat): nat
    decreases |evs|
  {
    if evs == [] then 0 else AskedBy(p, evs[0]) + Asked(Dealt(p, evs[0], q), evs[1..], q)
  }

  function Coming<T>(w: Writer<T>): seq<T> {
    if w.WCopy? then w.data else []
  }

  function Going<T>(r: Reader<T>): nat {
    if r.RCopy? then r.n else 0
  }

  function AsPlain<T>(s: State<T>): Plain<T>
    requires |s.received| <= |s.sent|
  {
    Plain(Queue(s), Coming(s.writer), Going(s.reader))
  }

  lemma StepDeals<T>(s: State<T>, e: Event<T>, q: nat)
    requires Inv(s, q) && Enabled(s, e)
    ensures Inv(Apply(s, e, q), q) && AsPlain(Apply(s, e, q)) == Dealt(AsPlain(s), e, q)
  {
    StepKeepsInv(s, e, q);
    StepRefines(s, e, q);
  }

  /** The data of a write is counted when it goes ahead, and is all in `sent` when it ends;
      what a read asks for is all in `received` when that ends. */
  lemma StepGives<T>(s: State<T>, e: Event<T>, q: nat)
    requires Inv(s, q) && Enabled(s, e)
    ensures var s' := Apply(s, e, q);
            && s'.sent + Coming(s'.writer) == s.sent + Coming(s.writer) + GivenBy(AsPlain(s), e, q)
            && |s'.received| + Going(s'.reader) == |s.received| + Going(s.reader) + AskedBy(AsPlain(s), e)
  {
    var s' := Apply(s, e, q);
    SizeIsDistance(|s.received|, |s.sent|, q);
    assert s'.sent + [] == s'.sent;
    Assoc(s.sent, Coming(s.writer), GivenBy(AsPlain(s), e, q));
  }

  lemma Assoc<T>(a: seq<T>, b: seq<T>, c: seq<T>)
    ensures a + b + c == a + (b + c)
  {}

  /** Every run deals with the queue as its events say, and what it sent and received is what
      callers gave and asked for. */
  lemma {:induction false} RunDeals<T>(s: State<T>, evs: seq<Event<T>>, q: nat)
    requires Inv(s, q) && Run(s, evs, q)
    ensures var s' := After(s, evs, q);
            && Inv(s', q) && AsPlain(s') == AllDealt(AsPlain(s), evs, q)
            && s'.sent + Coming(s'.writer) == s.sent + Coming(s.writer) + Given(AsPlain(s), evs, q)
            && |s'.received| + Going(s'.reader) == |s.received| + Going(s.reader) + Asked(AsPlain(s), evs, q)
    decreases |evs|
  {
    if evs != [] {
      var s1 := Apply(s, evs[0], q);
      StepDeals(s, evs[0], q);
      StepGives(s, evs[0], q);
      RunDeals(s1, evs[1..], q);
      Assoc(s.sent + Coming(s.writer), GivenBy(AsPlain(s), evs[0], q), Given(AsPlain(s1), evs[1..], q));
    }
  }

  /** Over every interleaving of one writer and one reader: what was received, then what lies
      in the ring, then the data of the write under way, is what callers gave to the writes
      that went ahead, in order, nothing lost or doubled; and as much was received as the
      reads that went ahead asked for, less the one under way. */
  lemma FifoUnderInterleaving<T>(buf: seq<T>, evs: seq<Event<T>>)
    requires |buf| > 0 && Run(Start(buf), evs, |buf|)
    ensures var s, q := After(Start(buf), evs, |buf|), |buf|;
            && s.received <= s.sent
            && Window(s.buf, s.r, s.w) == s.sent[|s.received|..] == AllDealt(Nothing(), evs, q).queue
            && |s.sent| - |s.received| < q
            && s.received + Window(s.buf, s.r, s.w) + Coming(s.writer) == Given(Nothing(), evs, q)
            && |s.received| + Going(s.reader) == Asked(Nothing(), evs, q)
  {
    var s, q := After(Start(buf), evs, |buf|), |buf|;
    StartIsNothing(buf);
    RunDeals(Start(buf), evs, q);
    WindowIsQueue(s, q);
    Whole(s.sent, |s.received|, Coming(s.writer), Given(Nothing(), evs, q));
  }

  lemma StartIsNothing<T>(buf: seq<T>)
    requires |buf| > 0
    ensures Inv(Start(buf), |buf|) && AsPlain(Start(buf)) == Nothing()
  {}

  lemma Whole<T>(sent: seq<T>, done: nat, coming: seq<T>, given: seq<T>)
    requires done <= |sent| && sent + coming == [] + [] + given
    ensures sent[..done] + sent[done..] + coming == given
  {
    assert sent[..done] + sent[done..] == sent;
  }
}
