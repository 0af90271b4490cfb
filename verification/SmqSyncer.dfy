/** The futex syncer of the shared-memory queue: any number of threads run
    SharedMemQueueSyncer::Wait and ::Wake on one 32-bit word. Every atomic
    operation of the code, and every kernel action it relies on, is one step.
    The kernel's compare-and-sleep is a single step, as the futex promises.

    A 32-bit word stands here as the set of its one bits, so the code's `&`, `|`,
    `& ~` and `==` are intersection, union, difference and equality of sets. */
module SmqSyncer {
  import opened Common

  type Tid = nat
  type Bit = b: nat | b < 32
  type Word = set<Bit>

  /** Where a thread stands. `timed` records `timeoutNanoSec > 0`. */
  datatype Pc =
    | Idle
    | WaitFetch(mask: Word, timed: bool)                 // about to clear its wait bits
    | WaitCompare(mask: Word, val: Word, timed: bool)    // about to enter FUTEX_WAIT_BITSET
    | Asleep(mask: Word, timed: bool)                    // queued in the kernel
    | Woken(mask: Word, timed: bool)                     // futex returned 0, about to clear again
    | WakeFetch(bits: Word)                              // about to set its bits
    | WakeFutex(bits: Word)                              // set them, about to enter FUTEX_WAKE_BITSET

  datatype State = State(word: Word, pcs: map<Tid, Pc>) {
    function Pc(t: Tid): Pc {
      if t in pcs then pcs[t] else Idle
    }

    function Goto(t: Tid, pc: Pc): State {
      this.(pcs := pcs[t := pc])
    }
  }

  datatype Event =
    | CallWait(t: Tid, mask: Word, timed: bool)
    | CallWake(t: Tid, bits: Word)
    | FetchAnd(t: Tid)       // the first atomic_fetch_and of FutexWait
    | Compare(t: Tid)        // the kernel compares the word and queues the thread, or not
    | Timeout(t: Tid)
    | Signal(t: Tid)         // the sleep ends with EINTR
    | Spurious(t: Tid)       // the sleep ends with 0 though nobody woke the thread
    | FetchAndAgain(t: Tid)  // the second atomic_fetch_and of FutexWait
    | FetchOr(t: Tid)        // the atomic_fetch_or of Wake
    | FutexWake(t: Tid)

  predicate Enabled(s: State, e: Event) {
    match e
    case CallWait(t, _, _) => s.Pc(t).Idle?
    case CallWake(t, _) => s.Pc(t).Idle?
    case FetchAnd(t) => s.Pc(t).WaitFetch?
    case Compare(t) => s.Pc(t).WaitCompare?
    case Timeout(t) => s.Pc(t).Asleep? && s.Pc(t).timed
    case Signal(t) => s.Pc(t).Asleep?
    case Spurious(t) => s.Pc(t).Asleep?
    case FetchAndAgain(t) => s.Pc(t).Woken?
    case FetchOr(t) => s.Pc(t).WakeFetch?
    case FutexWake(t) => s.Pc(t).WakeFutex?
  }

  /** FUTEX_WAKE_BITSET: everyone queued with a common bit leaves the queue. */
  function WakeSleepers(pcs: map<Tid, Pc>, bits: Word): map<Tid, Pc> {
    map t | t in pcs ::
      if pcs[t].Asleep? && pcs[t].mask * bits != {}
      then Woken(pcs[t].mask, pcs[t].timed)
      else pcs[t]
  }

  function Apply(s: State, e: Event): State
    requires Enabled(s, e)
  {
    var pc := s.Pc(e.t);
    match e
    case CallWait(t, mask, timed) => s.Goto(t, WaitFetch(mask, timed))
    case CallWake(t, bits) => s.Goto(t, WakeFetch(bits))
    case FetchAnd(t) =>
      var cleared := s.(word := s.word - pc.mask);
      if s.word * pc.mask != {} then cleared.Goto(t, Idle)                  // success
      else cleared.Goto(t, WaitCompare(pc.mask, s.word - pc.mask, pc.timed))
    case Compare(t) =>
      if pc.mask == {} then s.Goto(t, Idle)                                 // EINVAL
      else if s.word != pc.val then s.Goto(t, WaitFetch(pc.mask, pc.timed)) // EAGAIN, retry
      else s.Goto(t, Asleep(pc.mask, pc.timed))
    case Timeout(t) => s.Goto(t, Idle)                                      // ETIMEDOUT
    case Signal(t) => s.Goto(t, WaitFetch(pc.mask, pc.timed))               // EINTR, retry
    case Spurious(t) => s.Goto(t, Woken(pc.mask, pc.timed))
    case FetchAndAgain(t) =>
      var cleared := s.(word := s.word - pc.mask);
      if s.word * pc.mask == {} then cleared.Goto(t, WaitFetch(pc.mask, pc.timed)) // -EINTR, retry
      else cleared.Goto(t, Idle)                                            // success
    case FetchOr(t) =>
      var raised := s.(word := s.word + pc.bits);
      if s.word * pc.bits != {} then raised.Goto(t, Idle)
      else raised.Goto(t, WakeFutex(pc.bits))
    case FutexWake(t) =>
      if pc.bits == {} then s.Goto(t, Idle)                                 // EINVAL
      else State(s.word, WakeSleepers(s.pcs, pc.bits)).Goto(t, Idle)
  }

  const INIT := State({}, map[])

  // ---------------------------------------------------------------- runs

  /** Every event is enabled where it happens. */
  predicate Run(s: State, evs: seq<Event>)
    decreases |evs|
  {
    evs == [] || (Enabled(s, evs[0]) && Run(Apply(s, evs[0]), evs[1..]))
  }

  function After(s: State, evs: seq<Event>): State
    requires Run(s, evs)
    decreases |evs|
  {
    if evs == [] then s else After(Apply(s, evs[0]), evs[1..])
  }

  /** Every call of Wake in the run passes a bitset from `ws`. */
  predicate WakesFrom(evs: seq<Event>, ws: set<Word>) {
    forall e <- evs :: e.CallWake? ==> e.bits in ws
  }

  // ------------------------------------------------------- no lost wakeup

  /** A wake of bit `b` has set it and has yet to call the kernel. */
  ghost predicate WakePending(s: State, b: Bit) {
    exists w <- s.pcs :: s.pcs[w].WakeFutex? && b in s.pcs[w].bits
  }

  ghost predicate SleepsOnSetBit(s: State, t: Tid, b: Bit) {
    t in s.pcs && s.pcs[t].Asleep? && b in s.pcs[t].mask && b in s.word
  }

  /** Whoever sleeps on a set bit is about to be woken, bit by bit. */
  ghost predicate NoLostWakeup(s: State) {
    forall t, b | SleepsOnSetBit(s, t, b) :: WakePending(s, b)
  }

  predicate AtMostOneBit(bits: Word) {
    forall b, c | b in bits && c in bits :: b == c
  }

  /** Only single bits are being woken, and a waiter compares with a word that lacks its bits. */
  ghost predicate PcOk(pc: Pc) {
    match pc
    case WakeFetch(bits) => AtMostOneBit(bits)
    case WakeFutex(bits) => AtMostOneBit(bits)
    case WaitCompare(mask, val, _) => val !! mask
    case _ => true
  }

  ghost predicate PcsOk(s: State) {
    forall t <- s.pcs :: PcOk(s.pcs[t])
  }

  ghost predicate Inv(s: State) {
    NoLostWakeup(s) && PcsOk(s)
  }

  /** A step of a thread that is not about to enter FUTEX_WAKE leaves the pending wakes pending. */
  lemma PendingElsewhere(s: State, s': State, b: Bit, t: Tid)
    requires WakePending(s, b) && !s.Pc(t).WakeFutex?
    requires t in s'.pcs && s'.pcs == s.pcs[t := s'.pcs[t]]
    ensures WakePending(s', b)
  {
    var w :| w in s.pcs && s.pcs[w].WakeFutex? && b in s.pcs[w].bits;
    assert s'.pcs[w] == s.pcs[w];
  }

  /** The heart of the protocol: after a step, a sleeper on a set bit still has its waker. */
  lemma StepKeepsWaker(s: State, e: Event, t: Tid, b: Bit)
    requires Inv(s) && Enabled(s, e)
    requires SleepsOnSetBit(Apply(s, e), t, b)
    ensures WakePending(Apply(s, e), b)
  {
    var s' := Apply(s, e);
    var pc := s.Pc(e.t);
    match e
    case FetchOr(w) =>
      if b !in s.word && s.word * pc.bits == {} {
        assert s'.pcs[w] == WakeFutex(pc.bits) && b in pc.bits;
      } else {
        assert b in s.word && SleepsOnSetBit(s, t, b);
        PendingElsewhere(s, s', b, w);
      }
    case FutexWake(w) =>
      assert SleepsOnSetBit(s, t, b);
      var v :| v in s.pcs && s.pcs[v].WakeFutex? && b in s.pcs[v].bits;
      assert v != w by {
        assert b in s.pcs[t].mask * s.pcs[v].bits;
      }
      assert s'.pcs[v] == s.pcs[v];
    case _ =>
      assert SleepsOnSetBit(s, t, b);
      PendingElsewhere(s, s', b, e.t);
  }

  lemma StepKeepsInv(s: State, e: Event)
    requires Inv(s) && Enabled(s, e)
    requires e.CallWake? ==> AtMostOneBit(e.bits)
    ensures Inv(Apply(s, e))
  {
    var s' := Apply(s, e);
    forall t, b | SleepsOnSetBit(s', t, b)
      ensures WakePending(s', b)
    {
      StepKeepsWaker(s, e, t, b);
    }
    assert PcOk(s.Pc(e.t));
    assert PcOk(s'.pcs[e.t]);
    forall t <- s'.pcs
      ensures PcOk(s'.pcs[t])
    {
      assert t == e.t || PcOk(s.pcs[t]);
    }
  }

  lemma {:induction false} RunKeepsInv(s: State, evs: seq<Event>)
    requires Inv(s) && Run(s, evs)
    requires forall e <- evs :: e.CallWake? ==> AtMostOneBit(e.bits)
    ensures Inv(After(s, evs))
    decreases |evs|
  {
    if evs != [] {
      StepKeepsInv(s, evs[0]);
      RunKeepsInv(Apply(s, evs[0]), evs[1..]);
    }
  }

  /** In every reachable state a thread asleep on a set bit has a kernel wake coming
      that takes it out of its sleep, and out of sleep it returns success. */
  lemma SleeperHasItsWake(evs: seq<Event>, t: Tid, b: Bit) returns (w: Tid)
    requires Run(INIT, evs)
    requires forall e <- evs :: e.CallWake? ==> AtMostOneBit(e.bits)
    requires SleepsOnSetBit(After(INIT, evs), t, b)
    ensures var s := After(INIT, evs);
            && Enabled(s, FutexWake(w)) && b in s.Pc(w).bits
            && Enabled(Apply(s, FutexWake(w)), FetchAndAgain(t))
            && Apply(Apply(s, FutexWake(w)), FetchAndAgain(t)).Pc(t).Idle?
  {
    RunKeepsInv(INIT, evs);
    var s := After(INIT, evs);
    w :| w in s.pcs && s.pcs[w].WakeFutex? && b in s.pcs[w].bits;
    assert b in s.pcs[t].mask * s.pcs[w].bits;
    assert b in s.word * s.pcs[t].mask;
  }

  /** With no wake in progress nobody sleeps on a set bit. */
  lemma QuietMeansNobodyMissed(evs: seq<Event>, t: Tid, b: Bit)
    requires Run(INIT, evs)
    requires forall e <- evs :: e.CallWake? ==> AtMostOneBit(e.bits)
    requires forall w <- After(INIT, evs).pcs :: !After(INIT, evs).pcs[w].WakeFutex?
    ensures !SleepsOnSetBit(After(INIT, evs), t, b)
  {
    RunKeepsInv(INIT, evs);
  }

  // ------------------------------------------- wakes of several bits at once

  /** Wake several bits, let a waiter take one of them and sleep on it, wake them again:
      the second Wake sees the leftover bits, returns early, and wakes nobody. */
  function LosingRun(bits: Word, b: Bit): seq<Event> {
    [CallWake(0, bits), FetchOr(0), FutexWake(0),
     CallWait(1, {b}, false), FetchAnd(1),
     CallWait(1, {b}, false), FetchAnd(1), Compare(1),
     CallWake(0, bits), FetchOr(0)]
  }

  function Two(word: Word, pc0: Pc, pc1: Pc): State {
    State(word, map[0 := pc0, 1 := pc1])
  }

  /** The states the losing run goes through. */
  function LosingStates(bits: Word, b: Bit): seq<State> {
    var left := bits - {b};
    [INIT, State({}, map[0 := WakeFetch(bits)]), State(bits, map[0 := WakeFutex(bits)]), State(bits, map[0 := Idle]),
     Two(bits, Idle, WaitFetch({b}, false)), Two(left, Idle, Idle),
     Two(left, Idle, WaitFetch({b}, false)), Two(left, Idle, WaitCompare({b}, left, false)),
     Two(left, Idle, Asleep({b}, false)),
     Two(left, WakeFetch(bits), Asleep({b}, false)), Two(bits, Idle, Asleep({b}, false))]
  }

  predicate StepTo(s: State, e: Event, s': State) {
    Enabled(s, e) && Apply(s, e) == s'
  }

  lemma WakeRaises(bits: Word, b: Bit)
    requires b in bits
    ensures StepTo(INIT, CallWake(0, bits), State({}, map[0 := WakeFetch(bits)]))
    ensures StepTo(State({}, map[0 := WakeFetch(bits)]), FetchOr(0), State(bits, map[0 := WakeFutex(bits)]))
    ensures StepTo(State(bits, map[0 := WakeFutex(bits)]), FutexWake(0), State(bits, map[0 := Idle]))
  {
    assert {} * bits == {} && {} + bits == bits;
  }

  lemma OneBitTaken(bits: Word, b: Bit)
    requires b in bits
    ensures StepTo(State(bits, map[0 := Idle]), CallWait(1, {b}, false), Two(bits, Idle, WaitFetch({b}, false)))
    ensures StepTo(Two(bits, Idle, WaitFetch({b}, false)), FetchAnd(1), Two(bits - {b}, Idle, Idle))
  {
    assert b in bits * {b};
  }

  lemma FallsAsleep(left: Word, b: Bit)
    requires b !in left
    ensures StepTo(Two(left, Idle, Idle), CallWait(1, {b}, false), Two(left, Idle, WaitFetch({b}, false)))
    ensures StepTo(Two(left, Idle, WaitFetch({b}, false)), FetchAnd(1), Two(left, Idle, WaitCompare({b}, left, false)))
    ensures StepTo(Two(left, Idle, WaitCompare({b}, left, false)), Compare(1), Two(left, Idle, Asleep({b}, false)))
  {
    assert left * {b} == {} && left - {b} == left;
  }

  lemma WakeReturnsEarly(bits: Word, left: Word, asleep: Pc, c: Bit)
    requires left <= bits && c in left
    ensures StepTo(Two(left, Idle, asleep), CallWake(0, bits), Two(left, WakeFetch(bits), asleep))
    ensures StepTo(Two(left, WakeFetch(bits), asleep), FetchOr(0), Two(bits, Idle, asleep))
  {
    assert c in left * bits && left + bits == bits;
  }

  lemma LosingRunSteps(bits: Word, b: Bit, c: Bit)
    requires b in bits && c in bits && b != c
    ensures var ss, evs := LosingStates(bits, b), LosingRun(bits, b);
            forall i | 0 <= i < |evs| :: StepTo(ss[i], evs[i], ss[i + 1])
  {
    WakeRaises(bits, b);
    OneBitTaken(bits, b);
    FallsAsleep(bits - {b}, b);
    WakeReturnsEarly(bits, bits - {b}, Asleep({b}, false), c);
  }

  lemma LosingRunLoses(bits: Word, b: Bit, c: Bit)
    requires b in bits && c in bits && b != c
    ensures Run(INIT, LosingRun(bits, b))
    ensures !NoLostWakeup(After(INIT, LosingRun(bits, b)))
  {
    LosingRunSteps(bits, b, c);
    StatesAreTheRun(LosingRun(bits, b), LosingStates(bits, b));
    var last := Two(bits, Idle, Asleep({b}, false));
    assert SleepsOnSetBit(last, 1, b) && !WakePending(last, b);
  }

  /** A list of states, each the step of the one before, is the run. */
  lemma {:induction false} StatesAreTheRun(evs: seq<Event>, ss: seq<State>)
    requires |ss| == |evs| + 1
    requires forall i | 0 <= i < |evs| :: StepTo(ss[i], evs[i], ss[i + 1])
    ensures Run(ss[0], evs) && After(ss[0], evs) == ss[|evs|]
    decreases |evs|
  {
    if evs != [] {
      assert StepTo(ss[0], evs[0], ss[1]);
      forall i | 0 <= i < |evs[1..]|
        ensures StepTo(ss[1..][i], evs[1..][i], ss[1..][i + 1])
      {
        assert StepTo(ss[i + 1], evs[i + 1], ss[i + 1 + 1]);
      }
      StatesAreTheRun(evs[1..], ss[1..]);
    }
  }

  /** Exactly when no wakeup is lost, for every set of bitsets the wakers may use
      and every bitset the waiters may use: when each Wake raises one bit at most. */
  lemma NoLostWakeupIff(ws: set<Word>)
    ensures (forall evs :: Run(INIT, evs) && WakesFrom(evs, ws) ==> NoLostWakeup(After(INIT, evs)))
            <==> (forall bits <- ws :: AtMostOneBit(bits))
  {
    if bits :| bits in ws && !AtMostOneBit(bits) {
      var b, c :| b in bits && c in bits && b != c;
      LosingRunLoses(bits, b, c);
      assert WakesFrom(LosingRun(bits, b), ws);
    } else {
      forall evs | Run(INIT, evs) && WakesFrom(evs, ws)
        ensures NoLostWakeup(After(INIT, evs))
      {
        RunKeepsInv(INIT, evs);
      }
    }
  }

  // ------------------------------------------------------ calls and returns

  predicate IsCallOf(e: Event, t: Tid) {
    (e.CallWait? || e.CallWake?) && e.t == t
  }

  /** The call that a thread made last. */
  function LastCall(evs: seq<Event>, t: Tid): Option<Event>
    decreases |evs|
  {
    if evs == [] then None
    else
      var front, e := evs[..|evs| - 1], evs[|evs| - 1];
      if IsCallOf(e, t) then Some(e) else LastCall(front, t)
  }

  /** The bits of that call, if it was one of Wait, or of Wake. */
  function WaitBits(evs: seq<Event>, t: Tid): Word {
    var call := LastCall(evs, t);
    if call.Some? && call.value.CallWait? then call.value.mask else {}
  }

  function WakeBits(evs: seq<Event>, t: Tid): Word {
    var call := LastCall(evs, t);
    if call.Some? && call.value.CallWake? then call.value.bits else {}
  }

  /** The word that the events of a run add up to. */
  function WordAfter(evs: seq<Event>): Word
    decreases |evs|
  {
    if evs == [] then {}
    else
      var front, e := evs[..|evs| - 1], evs[|evs| - 1];
      if e.FetchAnd? || e.FetchAndAgain? then WordAfter(front) - WaitBits(front, e.t)
      else if e.FetchOr? then WordAfter(front) + WakeBits(front, e.t)
      else WordAfter(front)
  }

  /** The word as the first fetch of a thread's wait left it, which its compare expects. */
  function Expected(evs: seq<Event>, t: Tid): Word
    decreases |evs|
  {
    if evs == [] then {}
    else if evs[|evs| - 1] == FetchAnd(t) then WordAfter(evs)
    else Expected(evs[..|evs| - 1], t)
  }

  /** `e`, coming after `evs`, ends a call of Wait: a fetch that finds one of the bits, a
      time-out, or a compare for no bit at all. A signal, a spurious end, an unequal compare
      and a fetch that finds nothing do not. */
  predicate EndsWait(evs: seq<Event>, e: Event) {
    match e
    case FetchAnd(t) => WordAfter(evs) * WaitBits(evs, t) != {}
    case FetchAndAgain(t) => WordAfter(evs) * WaitBits(evs, t) != {}
    case Timeout(_) => true
    case Compare(t) => WaitBits(evs, t) == {}
    case _ => false
  }

  /** A call of Wake ends with a bit that was on already, or with its futex call. */
  predicate EndsWake(evs: seq<Event>, e: Event) {
    match e
    case FetchOr(t) => WordAfter(evs) * WakeBits(evs, t) != {}
    case FutexWake(_) => true
    case _ => false
  }

  datatype Mark = WaitCall | WaitEnd | WakeCall | WakeEnd

  predicate Marks(m: Mark, evs: seq<Event>, e: Event, t: Tid) {
    e.t == t && match m
                case WaitCall => e.CallWait?
                case WaitEnd => EndsWait(evs, e)
                case WakeCall => e.CallWake?
                case WakeEnd => EndsWake(evs, e)
  }

  /** How often a thread called or came back. */
  function Times(m: Mark, evs: seq<Event>, t: Tid): nat
    decreases |evs|
  {
    if evs == [] then 0
    else
      var front, e := evs[..|evs| - 1], evs[|evs| - 1];
      Times(m, front, t) + if Marks(m, front, e, t) then 1 else 0
  }

  predicate InWait(pc: Pc) {
    pc.WaitFetch? || pc.WaitCompare? || pc.Asleep? || pc.Woken?
  }

  predicate InWake(pc: Pc) {
    pc.WakeFetch? || pc.WakeFutex?
  }

  /** A thread inside Wait or Wake is there with the bits and the time-out of its last call. */
  predicate AsCalled(pc: Pc, t: Tid, call: Option<Event>) {
    match pc
    case Idle => true
    case WaitFetch(mask, timed) => call == Some(CallWait(t, mask, timed))
    case WaitCompare(mask, _, timed) => call == Some(CallWait(t, mask, timed))
    case Asleep(mask, timed) => call == Some(CallWait(t, mask, timed))
    case Woken(mask, timed) => call == Some(CallWait(t, mask, timed))
    case WakeFetch(bits) => call == Some(CallWake(t, bits))
    case WakeFutex(bits) => call == Some(CallWake(t, bits))
  }

  lemma {:induction false} LastStep(s: State, evs: seq<Event>)
    requires Run(s, evs) && evs != []
    ensures var front, e := evs[..|evs| - 1], evs[|evs| - 1];
            Run(s, front) && Enabled(After(s, front), e) && After(s, evs) == Apply(After(s, front), e)
    decreases |evs|
  {
    if |evs| > 1 {
      LastStep(Apply(s, evs[0]), evs[1..]);
      var front := evs[..|evs| - 1];
      assert front[0] == evs[0] && front[1..] == evs[1..][..|evs[1..]| - 1];
    }
  }

  /** The events alone say what the word is, what every thread was called with and what its
      compare expects. */
  lemma {:induction false} EventsTell(evs: seq<Event>, t: Tid)
    requires Run(INIT, evs)
    ensures After(INIT, evs).word == WordAfter(evs)
    ensures AsCalled(After(INIT, evs).Pc(t), t, LastCall(evs, t))
    ensures After(INIT, evs).Pc(t).WaitCompare? ==> After(INIT, evs).Pc(t).val == Expected(evs, t)
    decreases |evs|
  {
    if evs != [] {
      var front, e := evs[..|evs| - 1], evs[|evs| - 1];
      LastStep(INIT, evs);
      EventsTell(front, t);
      EventsTell(front, e.t);
    }
  }

  /** A step takes a thread into a call or out of it exactly when it is marked so. */
  lemma StepMarks(evs: seq<Event>, e: Event, t: Tid)
    requires Run(INIT, evs) && Enabled(After(INIT, evs), e)
    ensures var was, now := After(INIT, evs).Pc(t), Apply(After(INIT, evs), e).Pc(t);
            && InWait(now) == (Marks(WaitCall, evs, e, t) || (InWait(was) && !Marks(WaitEnd, evs, e, t)))
            && InWake(now) == (Marks(WakeCall, evs, e, t) || (InWake(was) && !Marks(WakeEnd, evs, e, t)))
            && (Marks(WaitCall, evs, e, t) || Marks(WakeCall, evs, e, t) ==> was.Idle?)
            && (Marks(WaitEnd, evs, e, t) ==> InWait(was)) && (Marks(WakeEnd, evs, e, t) ==> InWake(was))
  {
    EventsTell(evs, e.t);
  }

  /** Over every run and for every thread: each call is over exactly when it has come to one
      of its ends, and comes to one only. */
  lemma {:induction false} CallsAndReturns(evs: seq<Event>, t: Tid)
    requires Run(INIT, evs)
    ensures var pc := After(INIT, evs).Pc(t);
            && Times(WaitCall, evs, t) == Times(WaitEnd, evs, t) + (if InWait(pc) then 1 else 0)
            && Times(WakeCall, evs, t) == Times(WakeEnd, evs, t) + (if InWake(pc) then 1 else 0)
    decreases |evs|
  {
    if evs != [] {
      var front, e := evs[..|evs| - 1], evs[|evs| - 1];
      LastStep(INIT, evs);
      CallsAndReturns(front, t);
      StepMarks(front, e, t);
    }
  }

  /** A sleep can end by a signal or for no reason at any time, and by a time-out exactly when
      the call has one. */
  lemma SleepCanEnd(evs: seq<Event>, t: Tid)
    requires Run(INIT, evs) && After(INIT, evs).Pc(t).Asleep?
    ensures LastCall(evs, t).Some? && LastCall(evs, t).value.CallWait?
    ensures var s := After(INIT, evs);
            && Enabled(s, Signal(t)) && Enabled(s, Spurious(t))
            && (Enabled(s, Timeout(t)) <==> LastCall(evs, t).value.timed)
  {
    EventsTell(evs, t);
  }

  /** What a thread can do after a step of its own, in the order the code has it. */
  lemma NextStep(evs: seq<Event>, e: Event, f: Event)
    requires Run(INIT, evs) && Enabled(After(INIT, evs), e) && f.t == e.t
    ensures Enabled(Apply(After(INIT, evs), e), f) <==>
              if e.CallWait? || e.Signal? then f.FetchAnd?
              else if e.CallWake? then f.FetchOr?
              else if e.Spurious? then f.FetchAndAgain?
              else if EndsWait(evs, e) || EndsWake(evs, e) then f.CallWait? || f.CallWake?
              else if e.FetchAnd? then f.Compare?
              else if e.FetchAndAgain? then f.FetchAnd?
              else if e.FetchOr? then f.FutexWake?
              else if WordAfter(evs) != Expected(evs, e.t) then f.FetchAnd?
              else f.Signal? || f.Spurious? || (f.Timeout? && LastCall(evs, e.t).value.timed)
  {
    EventsTell(evs, e.t);
  }

  /** A step changes what another thread can do only by waking it, and wakes exactly those
      asleep on one of the bits. */
  lemma OthersStep(s: State, e: Event, f: Event)
    requires Enabled(s, e) && f.t != e.t
    ensures Enabled(Apply(s, e), f) <==>
              if e.FutexWake? && s.Pc(f.t).Asleep? && s.Pc(f.t).mask * s.Pc(e.t).bits != {} then f.FetchAndAgain?
              else Enabled(s, f)
  {}

  // ---------------------------------------------------- token conservation

  datatype Kind =
    | Raise    // this step of Wake turns the bit from 0 to 1
    | Take     // this step of Wait turns the bit from 1 to 0
    | Success  // this step makes a Wait whose bitset has the bit return success

  predicate ClearsIn(s: State, e: Event) {
    (e.FetchAnd? && s.Pc(e.t).WaitFetch?) || (e.FetchAndAgain? && s.Pc(e.t).Woken?)
  }

  predicate Is(k: Kind, s: State, e: Event, b: Bit) {
    match k
    case Raise => e.FetchOr? && s.Pc(e.t).WakeFetch? && b in s.Pc(e.t).bits && b !in s.word
    case Take => ClearsIn(s, e) && b in s.Pc(e.t).mask && b in s.word
    case Success => ClearsIn(s, e) && b in s.Pc(e.t).mask && s.word * s.Pc(e.t).mask != {}
  }

  function Count(k: Kind, s: State, evs: seq<Event>, b: Bit): nat
    requires Run(s, evs)
    decreases |evs|
  {
    if evs == [] then 0
    else (if Is(k, s, evs[0], b) then 1 else 0) + Count(k, Apply(s, evs[0]), evs[1..], b)
  }

  function BitOf(w: Word, b: Bit): nat {
    if b in w then 1 else 0
  }

  /** Whatever the bitsets: every 1 raised is either taken by a Wait that returns
      success or still in the word. Time-outs, EAGAIN and EINTR change no bit. */
  lemma {:induction false} BitsAreConserved(s: State, evs: seq<Event>, b: Bit)
    requires Run(s, evs)
    ensures Count(Raise, s, evs, b) + BitOf(s.word, b)
         == Count(Take, s, evs, b) + BitOf(After(s, evs).word, b)
    ensures Count(Take, s, evs, b) <= Count(Success, s, evs, b)
    decreases |evs|
  {
    if evs != [] {
      if Is(Take, s, evs[0], b) {
        assert b in s.word * s.Pc(evs[0].t).mask;
      }
      BitsAreConserved(Apply(s, evs[0]), evs[1..], b);
    }
  }

  /** Every wait on `b` is a wait on `b` alone. */
  predicate WaitsAlone(pc: Pc, b: Bit) {
    match pc
    case WaitFetch(mask, _) => b in mask ==> mask == {b}
    case WaitCompare(mask, _, _) => b in mask ==> mask == {b}
    case Asleep(mask, _) => b in mask ==> mask == {b}
    case Woken(mask, _) => b in mask ==> mask == {b}
    case _ => true
  }

  lemma {:induction false} SuccessIsTaking(s: State, evs: seq<Event>, b: Bit)
    requires Run(s, evs)
    requires forall t <- s.pcs :: WaitsAlone(s.pcs[t], b)
    requires forall e <- evs :: e.CallWait? && b in e.mask ==> e.mask == {b}
    ensures Count(Success, s, evs, b) == Count(Take, s, evs, b)
    decreases |evs|
  {
    if evs != [] {
      var s' := Apply(s, evs[0]);
      assert WaitsAlone(s.Pc(evs[0].t), b) && WaitsAlone(s'.Pc(evs[0].t), b);
      forall t <- s'.pcs
        ensures WaitsAlone(s'.pcs[t], b)
      {
        assert t == evs[0].t || WaitsAlone(s.pcs[t], b);
      }
      if Is(Take, s, evs[0], b) {
        assert b in s.word * s.Pc(evs[0].t).mask;
      }
      SuccessIsTaking(s', evs[1..], b);
    }
  }

  /** From a zero word, with every wait on `b` a wait on `b` alone: the wakes that
      turned `b` on are the calls of Wait(b) that returned success, plus the bit itself. */
  lemma TokenConservation(evs: seq<Event>, b: Bit)
    requires Run(INIT, evs)
    requires forall e <- evs :: e.CallWait? && b in e.mask ==> e.mask == {b}
    ensures Count(Raise, INIT, evs, b)
         == Count(Success, INIT, evs, b) + BitOf(After(INIT, evs).word, b)
  {
    BitsAreConserved(INIT, evs, b);
    SuccessIsTaking(INIT, evs, b);
  }
}

/** The absolute deadline that FutexWait hands to the kernel. */
module SmqDeadline {

  const SEC_TO_NANOSEC := 1_000_000_000
  const INT64_MAX := 0x7fff_ffff_ffff_ffff

  class Timespec {
    var sec: int
    var nsec: int

    constructor ()
    {}

    ghost predicate Normal()
      reads this
    {
      0 <= nsec < SEC_TO_NANOSEC
    }

    ghost function Nanos(): int
      reads this
    {
      sec * SEC_TO_NANOSEC + nsec
    }
  }

  /** `now` is what clock_gettime answers. */
  method TimeoutToRealtime(timeout: int, realtime: Timespec, now: Timespec)
    requires 0 < timeout && now.Normal() && now != realtime
    modifies realtime
    ensures realtime.Normal() && realtime.Nanos() == now.Nanos() + timeout
    ensures timeout <= INT64_MAX && 0 <= now.sec <= INT64_MAX - 9_223_372_037 ==> 0 <= realtime.sec <= INT64_MAX
  {
    realtime.sec, realtime.nsec := now.sec, now.nsec;
    var timeoutNanoSec := timeout % SEC_TO_NANOSEC;
    var timeoutSec := timeout / SEC_TO_NANOSEC;
    if timeoutNanoSec + realtime.nsec >= SEC_TO_NANOSEC {
      realtime.nsec := timeoutNanoSec + realtime.nsec - SEC_TO_NANOSEC;
      realtime.sec := realtime.sec + timeoutSec + 1;
    } else {
      realtime.nsec := realtime.nsec + timeoutNanoSec;
      realtime.sec := realtime.sec + timeoutSec;
    }
  }

  /** The wait-time argument of the futex call: none unless the timeout is positive. */
  method FutexDeadline(timeoutNanoSec: int, now: Timespec) returns (waitTime: Timespec?)
    requires now.Normal()
    ensures waitTime == null <==> timeoutNanoSec <= 0
    ensures waitTime != null ==> fresh(waitTime) && waitTime.Normal()
    ensures waitTime != null ==> waitTime.Nanos() - now.Nanos() == timeoutNanoSec
  {
    if timeoutNanoSec > 0 {
      waitTime := new Timespec();
      TimeoutToRealtime(timeoutNanoSec, waitTime, now);
    } else {
      waitTime := null;
    }
  }
}
