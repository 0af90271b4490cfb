/** One reader and one writer of the shared-memory queue with nothing taken together: calls,
    looks at the offsets, single elements copied, offsets stored, and the atomic steps of the
    syncer, in any order. The protocol and the ring are the two halves of each state. */
module SmqWhole {
  import opened SmqOffsets
  import S = SmqSyncer
  import B = SmqBlocking
  import I = SmqInterleave
  import opened SmqRing

  datatype Joint<T> = Joint(sys: B.Sys, ring: I.State<T>)

  datatype Move<T> =
    | Begin(t: S.Tid, data: seq<T>, n: nat, patience: B.Patience)  // `data` to write, or n to read
    | Copy(t: S.Tid)                                               // one element
    | End(t: S.Tid)
    | Sync(e: S.Event)
    | Return(t: S.Tid)

  /** The half of a move that the protocol sees. */
  function Act<T>(m: Move<T>): seq<B.Act> {
    match m
    case Begin(t, data, n, patience) => [B.Look(t, if B.IsReader(t) then n else |data|, patience)]
    case Copy(_) => []
    case End(t) => [B.Store(t)]
    case Sync(e) => [B.Step(e)]
    case Return(t) => [B.Return(t)]
  }

  /** The half that the ring sees. */
  function RingEvent<T>(m: Move<T>): seq<I.Event<T>> {
    match m
    case Begin(t, data, n, _) => [if B.IsReader(t) then I.BeginRead(n) else I.BeginWrite(data)]
    case Copy(t) => [if B.IsReader(t) then I.GetOne else I.PutOne]
    case End(t) => [if B.IsReader(t) then I.EndRead else I.EndWrite]
    case _ => []
  }

  predicate Ok<T>(j: Joint<T>) {
    j.sys.Ok() && I.Ok(j.ring, j.sys.q)
  }

  predicate Possible<T>(j: Joint<T>, m: Move<T>) {
    && (Act(m) == [] || B.Possible(j.sys, Act(m)[0]))
    && (RingEvent(m) == [] || I.Enabled(j.ring, RingEvent(m)[0]))
  }

  function Do<T>(j: Joint<T>, m: Move<T>): (j': Joint<T>)
    requires Ok(j) && Possible(j, m)
    ensures Ok(j') && j'.sys.q == j.sys.q
  {
    Joint(if Act(m) == [] then j.sys else B.Do(j.sys, Act(m)[0]),
          if RingEvent(m) == [] then j.ring else I.Apply(j.ring, RingEvent(m)[0], j.sys.q))
  }

  function Start<T>(buf: seq<T>): (j: Joint<T>)
    ensures |buf| > 0 ==> Ok(j)
  {
    Joint(B.Start(|buf|), I.Start(buf))
  }

  predicate Played<T>(j: Joint<T>, ms: seq<Move<T>>)
    requires Ok(j)
    decreases |ms|
  {
    ms == [] || (Possible(j, ms[0]) && Played(Do(j, ms[0]), ms[1..]))
  }

  function Final<T>(j: Joint<T>, ms: seq<Move<T>>): (j': Joint<T>)
    requires Ok(j) && Played(j, ms)
    ensures Ok(j') && j'.sys.q == j.sys.q
    decreases |ms|
  {
    if ms == [] then j else Final(Do(j, ms[0]), ms[1..])
  }

  function Mover<T>(m: Move<T>): S.Tid {
    if m.Sync? then m.e.t else m.t
  }

  // ------------------------------------------------------------ the halves

  function Acts<T>(ms: seq<Move<T>>): seq<B.Act> {
    if ms == [] then [] else Act(ms[0]) + Acts(ms[1..])
  }

  function RingEvents<T>(ms: seq<Move<T>>): seq<I.Event<T>> {
    if ms == [] then [] else RingEvent(ms[0]) + RingEvents(ms[1..])
  }

  lemma TailOfSum<X>(a: seq<X>, b: seq<X>)
    requires a != []
    ensures (a + b)[0] == a[0] && (a + b)[1..] == a[1..] + b
  {}

  lemma ActFirst(s: B.Sys, a: B.Act, rest: seq<B.Act>)
    requires s.Ok() && B.Possible(s, a) && B.Played(B.Do(s, a), rest)
    ensures B.Played(s, [a] + rest) && B.Final(s, [a] + rest) == B.Final(B.Do(s, a), rest)
  {
    TailOfSum([a], rest);
  }

  lemma EventFirst<T>(s: I.State<T>, e: I.Event<T>, rest: seq<I.Event<T>>, q: nat)
    requires I.Ok(s, q) && I.Enabled(s, e) && I.Run(I.Apply(s, e, q), rest, q)
    ensures I.Run(s, [e] + rest, q) && I.After(s, [e] + rest, q) == I.After(I.Apply(s, e, q), rest, q)
  {
    TailOfSum([e], rest);
  }

  /** The protocol's half of a play is a play of its own. */
  lemma {:induction false} ActsPlay<T>(j: Joint<T>, ms: seq<Move<T>>)
    requires Ok(j) && Played(j, ms)
    ensures B.Played(j.sys, Acts(ms)) && B.Final(j.sys, Acts(ms)) == Final(j, ms).sys
    decreases |ms|
  {
    if ms != [] {
      ActsPlay(Do(j, ms[0]), ms[1..]);
      var act := Act(ms[0]);
      if act == [] {
        assert Acts(ms) == Acts(ms[1..]);
      } else {
        ActFirst(j.sys, act[0], Acts(ms[1..]));
        assert Act(ms[0]) == [act[0]];
      }
    }
  }

  /** So is the ring's half. */
  lemma {:induction false} RingEventsRun<T>(j: Joint<T>, ms: seq<Move<T>>)
    requires Ok(j) && Played(j, ms)
    ensures I.Run(j.ring, RingEvents(ms), j.sys.q)
    ensures I.After(j.ring, RingEvents(ms), j.sys.q) == Final(j, ms).ring
    decreases |ms|
  {
    if ms != [] {
      RingEventsRun(Do(j, ms[0]), ms[1..]);
      var event := RingEvent(ms[0]);
      if event == [] {
        assert RingEvents(ms) == RingEvents(ms[1..]);
      } else {
        EventFirst(j.ring, event[0], RingEvents(ms[1..]), j.sys.q);
        assert RingEvent(ms[0]) == [event[0]];
      }
    }
  }

  lemma {:induction false} ActorsAreMovers<T>(ms: seq<Move<T>>, threads: set<S.Tid>)
    requires forall m <- ms :: Mover(m) in threads
    ensures forall a <- Acts(ms) :: B.Actor(a) in threads
    decreases |ms|
  {
    if ms != [] {
      assert Mover(ms[0]) in threads;
      ActorsAreMovers(ms[1..], threads);
    }
  }

  // ------------------------------------------------------- they fit together

  /** Both halves have the same offsets, and are in the same transfers. */
  ghost predicate Fit<T>(j: Joint<T>, r: S.Tid, w: S.Tid) {
    var sys, ring := j.sys, j.ring;
    && Ok(j) && sys.w == ring.w && sys.r == ring.r
    && (sys.Role(w).Moving? <==> ring.writer.WCopy?)
    && (sys.Role(r).Moving? <==> ring.reader.RCopy?)
    && (sys.Role(w).Moving? ==>
          sys.Role(w).n == |ring.writer.data| && sys.Role(w).to == Moved(sys.w, sys.Role(w).n, sys.q))
    && (sys.Role(r).Moving? ==>
          sys.Role(r).n == ring.reader.n && sys.Role(r).to == Moved(sys.r, sys.Role(r).n, sys.q))
  }

  lemma DoKeepsFit<T>(j: Joint<T>, m: Move<T>, r: S.Tid, w: S.Tid)
    requires B.IsReader(r) && !B.IsReader(w) && Fit(j, r, w) && Possible(j, m) && Mover(m) in {r, w}
    ensures Fit(Do(j, m), r, w)
  {
  }

  lemma {:induction false} PlayKeepsFit<T>(j: Joint<T>, ms: seq<Move<T>>, r: S.Tid, w: S.Tid)
    requires B.IsReader(r) && !B.IsReader(w) && Fit(j, r, w) && Played(j, ms) && forall m <- ms :: Mover(m) in {r, w}
    ensures Fit(Final(j, ms), r, w)
    decreases |ms|
  {
    if ms != [] {
      assert Mover(ms[0]) in {r, w};
      DoKeepsFit(j, ms[0], r, w);
      PlayKeepsFit(Do(j, ms[0]), ms[1..], r, w);
    }
  }

  /** Neither side can be stuck: a call that looks finds the ring free for it, and what is
      under way can go on. */
  lemma TransferGoesOn<T>(j: Joint<T>, r: S.Tid, w: S.Tid, t: S.Tid)
    requires B.IsReader(r) && !B.IsReader(w) && t in {r, w} && Fit(j, r, w)
    requires B.PairInv(j.sys, r, w)
    ensures j.sys.Role(t).Moving? ==> Possible(j, Copy(t)) || Possible(j, End(t))
    ensures j.sys.Role(t).Trying? && j.sys.sync.Pc(t).Idle? ==>
              forall data: seq<T>, n, p :: Possible(j, Begin(t, data, n, p))
  {}

  // -------------------------------------------- every play of the protocol

  lemma {:induction false} PlayedInTurn<T>(j: Joint<T>, a: seq<Move<T>>, b: seq<Move<T>>)
    requires Ok(j) && Played(j, a) && Played(Final(j, a), b)
    ensures Played(j, a + b) && Final(j, a + b) == Final(Final(j, a), b)
    decreases |a|
  {
    if a == [] {
      assert a + b == b;
    } else {
      TailOfSum(a, b);
      PlayedInTurn(Do(j, a[0]), a[1..], b);
    }
  }

  lemma {:induction false} ActsInTurn<T>(a: seq<Move<T>>, b: seq<Move<T>>)
    ensures Acts(a + b) == Acts(a) + Acts(b)
    decreases |a|
  {
    if a == [] {
      assert a + b == b;
    } else {
      TailOfSum(a, b);
      ActsInTurn(a[1..], b);
    }
  }

  lemma OnePlayed<T>(j: Joint<T>, m: Move<T>)
    requires Ok(j) && Possible(j, m)
    ensures Played(j, [m]) && Final(j, [m]) == Do(j, m) && Acts([m]) == Act(m)
  {
    assert [m][1..] == [];
  }

  function Left<T>(ring: I.State<T>, reader: bool): int {
    if reader then (if ring.reader.RCopy? then ring.reader.n - |ring.reader.got| else 0)
    else if ring.writer.WCopy? then |ring.writer.data| - ring.writer.i
    else 0
  }

  /** A transfer under way can copy what it has left, and then store its offset. */
  lemma {:induction false} CopyRest<T>(j: Joint<T>, r: S.Tid, w: S.Tid, t: S.Tid) returns (ms: seq<Move<T>>)
    requires B.IsReader(r) && !B.IsReader(w) && t in {r, w} && Fit(j, r, w) && B.Possible(j.sys, B.Store(t))
    ensures Played(j, ms) && Acts(ms) == [] && forall m <- ms :: Mover(m) == t
    ensures Final(j, ms).sys == j.sys && Fit(Final(j, ms), r, w) && Possible(Final(j, ms), End(t))
    decreases Left(j.ring, B.IsReader(t))
  {
    ms := [];
    if Left(j.ring, B.IsReader(t)) > 0 {
      DoKeepsFit(j, Copy(t), r, w);
      var more := CopyRest(Do(j, Copy(t)), r, w, t);
      OnePlayed(j, Copy(t));
      PlayedInTurn(j, [Copy(t)], more);
      ActsInTurn([Copy(t)], more);
      ms := [Copy(t)] + more;
    }
  }

  lemma LiftStore<T>(j: Joint<T>, r: S.Tid, w: S.Tid, t: S.Tid) returns (ms: seq<Move<T>>)
    requires B.IsReader(r) && !B.IsReader(w) && t in {r, w} && Fit(j, r, w) && B.Possible(j.sys, B.Store(t))
    ensures Played(j, ms) && Acts(ms) == [B.Store(t)] && forall m <- ms :: Mover(m) == t
  {
    ms := CopyRest(j, r, w, t);
    OnePlayed(Final(j, ms), End(t));
    PlayedInTurn(j, ms, [End(t)]);
    ActsInTurn(ms, [End(t)]);
    ms := ms + [End(t)];
  }

  /** The move that an act other than a store is; the data of a write may be any. */
  lemma LiftOne<T>(j: Joint<T>, a: B.Act, r: S.Tid, w: S.Tid) returns (m: Move<T>)
    requires B.IsReader(r) && !B.IsReader(w) && |j.ring.buf| > 0 && !a.Store?
    requires Fit(j, r, w) && B.Possible(j.sys, a) && B.Actor(a) in {r, w}
    ensures Possible(j, m) && Act(m) == [a] && Mover(m) == B.Actor(a)
  {
    m := match a
         case Look(t, n, patience) => Begin(t, seq(n, _ => j.ring.buf[0]), n, patience)
         case Step(e) => Sync(e)
         case Return(t) => Return(t);
  }

  /** Whatever the protocol can do next, the whole queue can. */
  lemma LiftAct<T>(j: Joint<T>, a: B.Act, r: S.Tid, w: S.Tid) returns (ms: seq<Move<T>>)
    requires B.IsReader(r) && !B.IsReader(w) && |j.ring.buf| > 0
    requires Fit(j, r, w) && B.Possible(j.sys, a) && B.Actor(a) in {r, w}
    ensures Played(j, ms) && Acts(ms) == [a] && forall m <- ms :: Mover(m) == B.Actor(a)
  {
    if a.Store? {
      ms := LiftStore(j, r, w, a.t);
    } else {
      var m := LiftOne(j, a, r, w);
      OnePlayed(j, m);
      ms := [m];
    }
  }

  /** Every play of the protocol by one reader and one writer is the protocol's half of a play
      of the whole queue: copying between the look and the store takes nothing away. */
  lemma {:induction false} EveryPlayIsWhole<T>(j: Joint<T>, acts: seq<B.Act>, r: S.Tid, w: S.Tid)
    returns (ms: seq<Move<T>>)
    requires B.IsReader(r) && !B.IsReader(w) && |j.ring.buf| > 0 && Fit(j, r, w)
    requires B.Played(j.sys, acts) && forall a <- acts :: B.Actor(a) in {r, w}
    ensures Played(j, ms) && Acts(ms) == acts && forall m <- ms :: Mover(m) in {r, w}
    decreases |acts|
  {
    ms := [];
    if acts != [] {
      assert acts[0] in acts;
      var first := LiftAct(j, acts[0], r, w);
      OneActPlays(j, first, acts[0]);
      PlayKeepsFit(j, first, r, w);
      var rest := EveryPlayIsWhole(Final(j, first), acts[1..], r, w);
      PlayedInTurn(j, first, rest);
      ActsInTurn(first, rest);
      ms := first + rest;
    }
  }

  lemma OneActPlays<T>(j: Joint<T>, ms: seq<Move<T>>, a: B.Act)
    requires Ok(j) && Played(j, ms) && Acts(ms) == [a]
    ensures B.Possible(j.sys, a) && Final(j, ms).sys == B.Do(j.sys, a) && |Final(j, ms).ring.buf| == |j.ring.buf|
  {
    ActsPlay(j, ms);
    assert [a][1..] == [];
  }

  // ------------------------------------------------ what the callers gave

  /** What a move is to a plain queue: a write or a read that begins, or ends. */
  function Dealt<T>(p: I.Plain<T>, m: Move<T>, q: nat): I.Plain<T> {
    match m
    case Begin(t, data, n, _) =>
      if B.IsReader(t) then (if 0 < n <= |p.queue| then p.(going := n) else p)
      else if |p.queue| + |data| < q then p.(coming := data)
      else p
    case End(t) =>
      if B.IsReader(t) then (if p.going <= |p.queue| then p.(queue := p.queue[p.going..], going := 0) else p)
      else p.(queue := p.queue + p.coming, coming := [])
    case _ => p
  }

  /** The data that the writer gives with a move, if its call goes ahead. */
  function GivenBy<T>(p: I.Plain<T>, m: Move<T>, q: nat): seq<T> {
    if m.Begin? && !B.IsReader(m.t) && |p.queue| + |m.data| < q then m.data else []
  }

  function AskedBy<T>(p: I.Plain<T>, m: Move<T>): nat {
    if m.Begin? && B.IsReader(m.t) && 0 < m.n <= |p.queue| then m.n else 0
  }

  function Given<T>(p: I.Plain<T>, ms: seq<Move<T>>, q: nat): seq<T>
    decreases |ms|
  {
    if ms == [] then [] else GivenBy(p, ms[0], q) + Given(Dealt(p, ms[0], q), ms[1..], q)
  }

  function Asked<T>(p: I.Plain<T>, ms: seq<Move<T>>, q: nat): nat
    decreases |ms|
  {
    if ms == [] then 0 else AskedBy(p, ms[0]) + Asked(Dealt(p, ms[0], q), ms[1..], q)
  }

  /** The ring deals with a move as a plain queue would. */
  lemma OneDealt<T>(p: I.Plain<T>, m: Move<T>, q: nat)
    ensures RingEvent(m) == [] ==> Dealt(p, m, q) == p && GivenBy(p, m, q) == [] && AskedBy(p, m) == 0
    ensures RingEvent(m) != [] ==>
              var e := RingEvent(m)[0];
              && |RingEvent(m)| == 1 && Dealt(p, m, q) == I.Dealt(p, e, q)
              && GivenBy(p, m, q) == I.GivenBy(p, e, q) && AskedBy(p, m) == I.AskedBy(p, e)
  {}

  lemma {:induction false} SameGiven<T>(p: I.Plain<T>, ms: seq<Move<T>>, q: nat)
    ensures Given(p, ms, q) == I.Given(p, RingEvents(ms), q)
    ensures Asked(p, ms, q) == I.Asked(p, RingEvents(ms), q)
    decreases |ms|
  {
    if ms != [] {
      SameGiven(Dealt(p, ms[0], q), ms[1..], q);
      OneDealt(p, ms[0], q);
      var event, rest := RingEvent(ms[0]), RingEvents(ms[1..]);
      if event == [] {
        assert RingEvents(ms) == rest;
        assert [] + Given(p, ms[1..], q) == Given(p, ms[1..], q);
      } else {
        assert RingEvents(ms) == [event[0]] + rest && ([event[0]] + rest)[1..] == rest;
      }
    }
  }

  lemma WholeContents<T>(buf: seq<T>, ms: seq<Move<T>>)
    requires |buf| > 0 && Played(Start(buf), ms)
    ensures var ring, q := Final(Start(buf), ms).ring, |buf|;
            && ring.received + Window(ring.buf, ring.r, ring.w) + I.Coming(ring.writer) == Given(I.Nothing(), ms, q)
            && |ring.received| + I.Going(ring.reader) == Asked(I.Nothing(), ms, q)
            && ring.received <= ring.sent && Window(ring.buf, ring.r, ring.w) == ring.sent[|ring.received|..]
  {
    RingEventsRun(Start(buf), ms);
    I.FifoUnderInterleaving(buf, RingEvents(ms));
    SameGiven(I.Nothing(), ms, |buf|);
  }

  lemma WholeAwake<T>(buf: seq<T>, ms: seq<Move<T>>, r: S.Tid, w: S.Tid, t: S.Tid)
    requires |buf| > 0 && B.IsReader(r) && !B.IsReader(w) && t in {r, w}
    requires Played(Start(buf), ms) && forall m <- ms :: Mover(m) in {r, w}
    ensures var sys, ring := Final(Start(buf), ms).sys, Final(Start(buf), ms).ring;
            var held := |Window(ring.buf, ring.r, ring.w)|;
            B.Sleeps(sys, t) && sys.Role(t).Waiting?
            && (if t == r then 0 < sys.Role(t).n <= held else held + sys.Role(t).n < |buf|) ==>
              B.WakeComing(sys, if t == r then B.READ else B.WRITE)
  {
    var j := Final(Start(buf), ms);
    ActsPlay(Start(buf), ms);
    ActorsAreMovers(ms, {r, w});
    PlayKeepsFit(Start(buf), ms, r, w);
    assert j.sys.Size() == |Window(j.ring.buf, j.ring.r, j.ring.w)|;
    B.NobodyOversleeps(|buf|, Acts(ms), r, w, t);
  }

  /** The whole queue: over every play of one reader and one writer, what was received, what
      lies in the ring and the data of the write under way are, in this order, what the
      writer's calls that went ahead were given; what was received is what the reader's asked
      for; and whoever sleeps while the ring, or the room beside it, would do for its call is
      about to be woken. */
  lemma WholeQueue<T>(buf: seq<T>, ms: seq<Move<T>>, r: S.Tid, w: S.Tid)
    requires |buf| > 0 && B.IsReader(r) && !B.IsReader(w)
    requires Played(Start(buf), ms) && forall m <- ms :: Mover(m) in {r, w}
    ensures var j := Final(Start(buf), ms);
            var sys, ring, q := j.sys, j.ring, |buf|;
            var held := |Window(ring.buf, ring.r, ring.w)|;
            && ring.received + Window(ring.buf, ring.r, ring.w) + I.Coming(ring.writer) == Given(I.Nothing(), ms, q)
            && |ring.received| + I.Going(ring.reader) == Asked(I.Nothing(), ms, q)
            && ring.received <= ring.sent && Window(ring.buf, ring.r, ring.w) == ring.sent[|ring.received|..]
            && (B.Sleeps(sys, r) && sys.Role(r).Waiting? && 0 < sys.Role(r).n <= held ==> B.WakeComing(sys, B.READ))
            && (B.Sleeps(sys, w) && sys.Role(w).Waiting? && held + sys.Role(w).n < q ==> B.WakeComing(sys, B.WRITE))
  {
    WholeContents(buf, ms);
    WholeAwake(buf, ms, r, w, r);
    WholeAwake(buf, ms, r, w, w);
  }
}
