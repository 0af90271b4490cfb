/** The stub collector: a get-or-create cache behind g_stubMapLock, filled with the
    constructors registered behind g_consMapLock. Any number of threads run its four
    operations; each lock, unlock and critical section is one step. Constructor and
    destructor callbacks take neither lock. */
module StubCollector {
  import opened Common

  type Ptr = nat
  type Stub = nat
  type Desc = nat

  /** A registered record; its constructor function may be missing. */
  datatype Constructor = Constructor(hasConstructor: bool)

  datatype Op =
    | Register(desc: Desc, c: Constructor)
    | Unregister(desc: Desc)
    | Get(desc: Desc, p: Ptr)
    | Remove(desc: Desc, p: Ptr)

  predicate TakesStubLock(op: Op) {
    op.Get? || op.Remove?
  }

  /** Where a thread stands. The stub lock, when an operation takes it, comes first. */
  datatype Pc =
    | Idle
    | WantStub(op: Op)
    | Lookup(op: Op)                          // holds the stub lock
    | WantCons(op: Op)                        // holds the stub lock if the operation takes it
    | Inside(op: Op)                          // holds the constructor lock too
    | Leaving(op: Op, ret: Option<Stub>, holdsCons: bool)

  datatype State = State(
    stubLock: Option<nat>,
    consLock: Option<nat>,
    stubs: map<Ptr, Stub>,
    constructors: map<Desc, Constructor>,
    pcs: seq<Pc>)

  datatype Event =
    | Call(t: nat, op: Op)
    | LockStub(t: nat)
    | Find(t: nat)
    | LockCons(t: nat)
    | Work(t: nat, made: Option<Stub>)        // `made` is what the constructor callback returns
    | Unlock(t: nat)

  function Init(threads: nat): State {
    State(None, None, map[], map[], seq(threads, _ => Idle))
  }

  predicate Enabled(s: State, e: Event) {
    && e.t < |s.pcs|
    && var pc := s.pcs[e.t];
       match e
       case Call(_, _) => pc.Idle?
       case LockStub(_) => pc.WantStub? && s.stubLock == None
       case Find(_) => pc.Lookup?
       case LockCons(_) => pc.WantCons? && s.consLock == None
       case Work(_, _) => pc.Inside?
       case Unlock(_) => pc.Leaving?
  }

  /** The body of an operation under the constructor lock. */
  function Worked(s: State, op: Op, made: Option<Stub>): (State, Option<Stub>) {
    match op
    case Register(d, c) =>
      (if d in s.constructors then s else s.(constructors := s.constructors[d := c]), None)
    case Unregister(d) =>
      (s.(constructors := s.constructors - {d}), None)
    case Get(d, p) =>
      if d !in s.constructors || !s.constructors[d].hasConstructor || made.None? then (s, None)
      else (if p in s.stubs then s else s.(stubs := s.stubs[p := made.value]), made)
    case Remove(d, p) =>
      if d !in s.constructors || p !in s.stubs then (s, None)
      else (s.(stubs := s.stubs - {p}), None)
  }

  function Apply(s: State, e: Event): State
    requires Enabled(s, e)
  {
    var t := e.t;
    var pc := s.pcs[t];
    match e
    case Call(_, op) => s.(pcs := s.pcs[t := if TakesStubLock(op) then WantStub(op) else WantCons(op)])
    case LockStub(_) => s.(stubLock := Some(t), pcs := s.pcs[t := Lookup(pc.op)])
    case Find(_) =>
      var p := if pc.op.Get? || pc.op.Remove? then pc.op.p else 0;
      s.(pcs := s.pcs[t :=
        if pc.op.Get? && p in s.stubs then Leaving(pc.op, Some(s.stubs[p]), false)
        else if pc.op.Remove? && p !in s.stubs then Leaving(pc.op, None, false)
        else WantCons(pc.op)])
    case LockCons(_) => s.(consLock := Some(t), pcs := s.pcs[t := Inside(pc.op)])
    case Work(_, made) =>
      var (s', ret) := Worked(s, pc.op, made);
      s'.(pcs := s.pcs[t := Leaving(pc.op, ret, true)])
    case Unlock(_) =>
      if pc.holdsCons then
        s.(consLock := None, pcs := s.pcs[t := if TakesStubLock(pc.op) then Leaving(pc.op, pc.ret, false) else Idle])
      else s.(stubLock := None, pcs := s.pcs[t := Idle])
  }

  predicate Run(s: State, evs: seq<Event>)
    decreases |evs|
  {
    evs == [] || (Enabled(s, evs[0]) && Run(Apply(s, evs[0]), evs[1..]))
  }

  function After(s: State, evs: seq<Event>): State
    requires Run(s, evs)
    decreases |evs|
  {
    if evs == [] then s else After(Apply(s, evs[0]), evs[1..])
  }

  // ------------------------------------------------------------ invariant

  predicate HoldsStub(pc: Pc) {
    match pc
    case Lookup(_) => true
    case WantCons(op) => TakesStubLock(op)
    case Inside(op) => TakesStubLock(op)
    case Leaving(op, _, _) => TakesStubLock(op)
    case _ => false
  }

  predicate HoldsCons(pc: Pc) {
    pc.Inside? || (pc.Leaving? && pc.holdsCons)
  }

  /** What a thread knows about the stub map from holding its lock. */
  predicate Knows(s: State, pc: Pc) {
    match pc
    case WantStub(op) => TakesStubLock(op)
    case Lookup(op) => TakesStubLock(op)
    case WantCons(op) => (op.Get? ==> op.p !in s.stubs) && (op.Remove? ==> op.p in s.stubs)
    case Inside(op) => (op.Get? ==> op.p !in s.stubs) && (op.Remove? ==> op.p in s.stubs)
    case Leaving(op, ret, holdsCons) =>
      && (op.Get? && ret.Some? ==> op.p in s.stubs && s.stubs[op.p] == ret.value)
      && (op.Get? && ret.None? ==> op.p !in s.stubs)
      && (!holdsCons ==> TakesStubLock(op))
    case _ => true
  }

  /** Thread `t` holds the locks its place says it holds, and no others. */
  ghost predicate Placed(s: State, t: nat)
    requires t < |s.pcs|
  {
    && (HoldsStub(s.pcs[t]) <==> s.stubLock == Some(t))
    && (HoldsCons(s.pcs[t]) <==> s.consLock == Some(t))
    && Knows(s, s.pcs[t])
  }

  ghost predicate Inv(s: State) {
    && (s.stubLock.Some? ==> s.stubLock.value < |s.pcs|)
    && (s.consLock.Some? ==> s.consLock.value < |s.pcs|)
    && forall t | 0 <= t < |s.pcs| :: Placed(s, t)
  }

  /** The moving thread keeps its place in order. */
  lemma StepKeepsMover(s: State, e: Event)
    requires Inv(s) && Enabled(s, e)
    ensures Placed(Apply(s, e), e.t)
  {
    assert Placed(s, e.t);
  }

  /** What others know about the stub map cannot change: only the lock's holder writes it. */
  lemma StepKeepsOthers(s: State, e: Event, u: nat)
    requires Inv(s) && Enabled(s, e) && u < |s.pcs| && u != e.t
    ensures Placed(Apply(s, e), u)
  {
    assert Placed(s, u) && Placed(s, e.t);
    assert Apply(s, e).pcs[u] == s.pcs[u];
    if e.Work? && !HoldsStub(s.pcs[e.t]) {
      assert Apply(s, e).stubs == s.stubs;
    }
  }

  lemma StepKeepsInv(s: State, e: Event)
    requires Inv(s) && Enabled(s, e)
    ensures Inv(Apply(s, e))
  {
    StepKeepsMover(s, e);
    forall u | 0 <= u < |s.pcs| && u != e.t
      ensures Placed(Apply(s, e), u)
    {
      StepKeepsOthers(s, e, u);
    }
  }

  lemma {:induction false} RunKeepsInv(s: State, evs: seq<Event>)
    requires Inv(s) && Run(s, evs)
    ensures Inv(After(s, evs)) && |After(s, evs).pcs| == |s.pcs|
    decreases |evs|
  {
    if evs != [] {
      StepKeepsInv(s, evs[0]);
      RunKeepsInv(Apply(s, evs[0]), evs[1..]);
    }
  }

  // ------------------------------------------------------ deadlock freedom

  /** Whenever some call is unfinished, some unfinished call can take a step. */
  lemma NoDeadlock(threads: nat, evs: seq<Event>, t: nat) returns (e: Event)
    requires Run(Init(threads), evs)
    requires t < threads
    ensures |After(Init(threads), evs).pcs| == threads
    ensures !After(Init(threads), evs).pcs[t].Idle? ==> !e.Call? && Enabled(After(Init(threads), evs), e)
  {
    RunKeepsInv(Init(threads), evs);
    var s := After(Init(threads), evs);
    e := Unlock(t);
    if !s.pcs[t].Idle? {
      e := SomeStep(s, t);
    }
  }

  lemma SomeStep(s: State, t: nat) returns (e: Event)
    requires Inv(s) && t < |s.pcs| && !s.pcs[t].Idle?
    ensures !e.Call? && Enabled(s, e)
  {
    if s.consLock.Some? {
      var h := s.consLock.value;
      assert Placed(s, h);
      e := if s.pcs[h].Inside? then Work(h, None) else Unlock(h);
    } else if w :| 0 <= w < |s.pcs| && s.pcs[w].WantCons? {
      e := LockCons(w);
    } else if s.stubLock.Some? {
      var h := s.stubLock.value;
      assert Placed(s, h);
      e := if s.pcs[h].Lookup? then Find(h) else Unlock(h);
    } else {
      assert Placed(s, t);
      e := LockStub(t);
    }
  }

  /** Steps an operation still has to take, at most. */
  function Rank(pc: Pc): nat {
    match pc
    case Idle => 0
    case Leaving(_, _, holdsCons) => if holdsCons then 2 else 1
    case Inside(_) => 3
    case WantCons(_) => 4
    case Lookup(_) => 5
    case WantStub(_) => 6
  }

  function Total(pcs: seq<Pc>): nat {
    if pcs == [] then 0 else Rank(pcs[0]) + Total(pcs[1..])
  }

  lemma {:induction false} TotalUpdate(pcs: seq<Pc>, t: nat, pc: Pc)
    requires t < |pcs|
    ensures Total(pcs[t := pc]) + Rank(pcs[t]) == Total(pcs) + Rank(pc)
    decreases |pcs|
  {
    if t == 0 {
      assert pcs[t := pc][1..] == pcs[1..];
    } else {
      assert pcs[t := pc][1..] == pcs[1..][t - 1 := pc];
      TotalUpdate(pcs[1..], t - 1, pc);
    }
  }

  lemma RankDrops(s: State, e: Event)
    requires Inv(s) && Enabled(s, e) && !e.Call?
    ensures Total(Apply(s, e).pcs) < Total(s.pcs)
  {
    assert Placed(s, e.t);
    TotalUpdate(s.pcs, e.t, Apply(s, e).pcs[e.t]);
  }

  /** Once no new call starts, the calls in progress finish after a bounded number of
      steps, however the threads are scheduled. */
  lemma {:induction false} CallsFinish(s: State, evs: seq<Event>)
    requires Inv(s) && Run(s, evs) && forall e <- evs :: !e.Call?
    ensures |evs| + Total(After(s, evs).pcs) <= Total(s.pcs)
    ensures (forall e :: Enabled(After(s, evs), e) ==> e.Call?) ==>
              forall t | 0 <= t < |After(s, evs).pcs| :: After(s, evs).pcs[t].Idle?
    decreases |evs|
  {
    if evs != [] {
      RankDrops(s, evs[0]);
      StepKeepsInv(s, evs[0]);
      CallsFinish(Apply(s, evs[0]), evs[1..]);
    } else if t :| 0 <= t < |s.pcs| && !s.pcs[t].Idle? {
      var e := SomeStep(s, t);
    }
  }

  // -------------------------------------------------- one stub per service

  datatype Kind = Built | Erased

  /** This step constructs a stub for `p`, or erases the one there is. */
  predicate Is(k: Kind, s: State, e: Event, p: Ptr)
    requires Enabled(s, e)
  {
    && e.Work?
    && var op := s.pcs[e.t].op;
       match k
       case Built =>
         op.Get? && op.p == p && op.desc in s.constructors && s.constructors[op.desc].hasConstructor && e.made.Some?
       case Erased => op.Remove? && op.p == p && op.desc in s.constructors
  }

  function Count(k: Kind, s: State, evs: seq<Event>, p: Ptr): nat
    requires Run(s, evs)
    decreases |evs|
  {
    if evs == [] then 0
    else (if Is(k, s, evs[0], p) then 1 else 0) + Count(k, Apply(s, evs[0]), evs[1..], p)
  }

  function Present(s: State, p: Ptr): nat {
    if p in s.stubs then 1 else 0
  }

  lemma {:induction false} BuiltMinusErased(s: State, evs: seq<Event>, p: Ptr)
    requires Inv(s) && Run(s, evs)
    ensures Count(Built, s, evs, p) + Present(s, p) == Count(Erased, s, evs, p) + Present(After(s, evs), p)
    ensures p in s.stubs && Count(Erased, s, evs, p) == 0 ==>
              p in After(s, evs).stubs && After(s, evs).stubs[p] == s.stubs[p]
    decreases |evs|
  {
    if evs != [] {
      assert Placed(s, evs[0].t);
      StepKeepsInv(s, evs[0]);
      BuiltMinusErased(Apply(s, evs[0]), evs[1..], p);
    }
  }

  /** For every service, constructions minus removals is 0 or 1, and is presence in the map. */
  lemma SingleConstruction(threads: nat, evs: seq<Event>, p: Ptr)
    requires Run(Init(threads), evs)
    ensures Count(Built, Init(threads), evs, p) - Count(Erased, Init(threads), evs, p)
         == Present(After(Init(threads), evs), p)
  {
    BuiltMinusErased(Init(threads), evs, p);
  }

  /** Two gets of one service with no removal between their returns return the same stub. */
  lemma SameStub(threads: nat, before: seq<Event>, between: seq<Event>, t: nat, u: nat, p: Ptr)
    requires Run(Init(threads), before) && Run(After(Init(threads), before), between)
    requires var s := After(Init(threads), before);
             t < |s.pcs| && s.pcs[t].Leaving? && s.pcs[t].op.Get? && s.pcs[t].op.p == p && s.pcs[t].ret.Some?
    requires var s := After(After(Init(threads), before), between);
             u < |s.pcs| && s.pcs[u].Leaving? && s.pcs[u].op.Get? && s.pcs[u].op.p == p
    requires Count(Erased, After(Init(threads), before), between, p) == 0
    ensures var s := After(Init(threads), before); After(s, between).pcs[u].ret == s.pcs[t].ret
  {
    var s := After(Init(threads), before);
    RunKeepsInv(Init(threads), before);
    RunKeepsInv(s, between);
    BuiltMinusErased(s, between, p);
    assert Placed(s, t) && Placed(After(s, between), u);
  }

  // ------------------------------------------- what the events add up to

  /** The operation a thread called last. */
  function Calling(evs: seq<Event>, t: nat): Option<Op>
    decreases |evs|
  {
    if evs == [] then None
    else
      var front, e := evs[..|evs| - 1], evs[|evs| - 1];
      if e.Call? && e.t == t then Some(e.op) else Calling(front, t)
  }

  /** Where in the run the thread was in the constructor critical section for that call. */
  function WorkedAt(evs: seq<Event>, t: nat): (i: Option<nat>)
    ensures i.Some? ==> i.value < |evs| && evs[i.value].Work? && evs[i.value].t == t
    decreases |evs|
  {
    if evs == [] then None
    else
      var front, e := evs[..|evs| - 1], evs[|evs| - 1];
      if e.t == t && e.Call? then None
      else if e.t == t && e.Work? then Some(|evs| - 1)
      else WorkedAt(front, t)
  }

  /** The i-th event is the critical section of this operation. */
  predicate Does(evs: seq<Event>, i: nat, op: Op)
    requires i < |evs|
  {
    evs[i].Work? && Calling(evs[..i], evs[i].t) == Some(op)
  }

  /** `c` is registered under `d`: by a Register with no Unregister since, and none before it
      since the last Unregister. */
  ghost predicate Registered(evs: seq<Event>, d: Desc, c: Constructor) {
    exists i | 0 <= i < |evs| :: RegisteredAt(evs, i, d, c)
  }

  ghost predicate RegisteredAt(evs: seq<Event>, i: nat, d: Desc, c: Constructor)
    requires i < |evs|
  {
    && Does(evs, i, Register(d, c))
    && (forall j | i < j < |evs| :: !Does(evs, j, Unregister(d)))
    && (forall j, c' | 0 <= j < i && Does(evs, j, Register(d, c')) ::
          exists k | j < k < i :: Does(evs, k, Unregister(d)))
  }

  ghost predicate AnyRegistered(evs: seq<Event>, d: Desc) {
    exists c :: Registered(evs, d, c)
  }

  /** The i-th event makes the stub `x` for the service `p`. */
  ghost predicate Makes(evs: seq<Event>, i: nat, p: Ptr, x: Stub)
    requires i < |evs|
  {
    exists d :: Does(evs, i, Get(d, p)) && evs[i].made == Some(x) && Registered(evs[..i], d, Constructor(true))
  }

  /** It takes the stub of `p` away. */
  ghost predicate Unmakes(evs: seq<Event>, i: nat, p: Ptr)
    requires i < |evs|
  {
    exists d :: Does(evs, i, Remove(d, p)) && AnyRegistered(evs[..i], d)
  }

  ghost predicate Made(evs: seq<Event>, p: Ptr, x: Stub) {
    exists i | 0 <= i < |evs| :: Makes(evs, i, p, x) && forall j | i < j < |evs| :: !Unmakes(evs, j, p)
  }

  lemma {:induction false} LastStep(s: State, evs: seq<Event>)
    requires Run(s, evs) && evs != []
    ensures var front, e := evs[..|evs| - 1], evs[|evs| - 1];
            Run(s, front) && Enabled(After(s, front), e) && After(s, evs) == Apply(After(s, front), e)
    decreases |evs|
  {
    if |evs| > 1 {
      LastStep(Apply(s, evs[0]), evs[1..]);
      var front := evs[..|evs| - 1];
      assert front[0] == evs[0] && front[1..] == evs[1..][..|evs[1..]| - 1];
    }
  }

  /** A thread is busy with the operation it called last, and is past the critical section
      exactly when it has been there. */
  ghost predicate Busy(s: State, evs: seq<Event>, t: nat)
    requires t < |s.pcs|
  {
    var pc := s.pcs[t];
    && (!pc.Idle? ==> Calling(evs, t) == Some(pc.op))
    && (pc.WantStub? || pc.Lookup? || pc.WantCons? || pc.Inside? ==> WorkedAt(evs, t) == None)
    && (pc.Leaving? && !TakesStubLock(pc.op) ==> WorkedAt(evs, t).Some?)
  }

  lemma {:induction false} ThreadsAreBusy(threads: nat, evs: seq<Event>, t: nat)
    requires Run(Init(threads), evs) && t < threads
    ensures |After(Init(threads), evs).pcs| == threads && Busy(After(Init(threads), evs), evs, t)
    decreases |evs|
  {
    if evs != [] {
      LastStep(Init(threads), evs);
      RunKeepsInv(Init(threads), evs[..|evs| - 1]);
      var s := After(Init(threads), evs[..|evs| - 1]);
      assert Placed(s, evs[|evs| - 1].t);
      ThreadsAreBusy(threads, evs[..|evs| - 1], t);
      ThreadsAreBusy(threads, evs[..|evs| - 1], evs[|evs| - 1].t);
    }
  }

  /** One more event leaves what happened before as it was. */
  lemma StillDoes(evs: seq<Event>, e: Event)
    ensures forall i, op | 0 <= i < |evs| :: Does(evs + [e], i, op) <==> Does(evs, i, op)
    ensures forall op :: Does(evs + [e], |evs|, op) <==> e.Work? && Calling(evs, e.t) == Some(op)
  {
    var all := evs + [e];
    forall i | 0 <= i <= |evs|
      ensures all[..i] == evs[..i]
    {}
    assert evs[..|evs|] == evs;
  }

  /** The operation of which the next event is the critical section, if of any. */
  function Section(evs: seq<Event>, e: Event): Option<Op> {
    if e.Work? then Calling(evs, e.t) else None
  }

  /** How one more event changes what is registered under a descriptor. */
  lemma RegisteredNext(evs: seq<Event>, e: Event, d: Desc, c: Constructor)
    ensures Registered(evs + [e], d, c) <==>
              if Section(evs, e) == Some(Unregister(d)) then false
              else Registered(evs, d, c) || (Section(evs, e) == Some(Register(d, c)) && !AnyRegistered(evs, d))
  {
    StillDoes(evs, e);
    var all, n := evs + [e], |evs|;
    if Section(evs, e) == Some(Unregister(d)) {
      assert Does(all, n, Unregister(d));
    } else {
      if Registered(evs, d, c) {
        var i :| 0 <= i < n && RegisteredAt(evs, i, d, c);
        assert RegisteredAt(all, i, d, c);
      }
      if Registered(all, d, c) {
        var i :| 0 <= i < n + 1 && RegisteredAt(all, i, d, c);
        if i < n {
          assert RegisteredAt(evs, i, d, c);
        } else {
          NoneOfRegistered(evs, e, d, c);
        }
      }
      if Section(evs, e) == Some(Register(d, c)) && !AnyRegistered(evs, d) {
        FirstRegistered(evs, e, d, c);
      }
    }
  }

  lemma NoneOfRegistered(evs: seq<Event>, e: Event, d: Desc, c: Constructor)
    requires RegisteredAt(evs + [e], |evs|, d, c)
    ensures !AnyRegistered(evs, d)
  {
    StillDoes(evs, e);
    assert forall c' :: !Registered(evs, d, c');
  }

  /** With nothing registered, every earlier Register was followed by an Unregister. */
  lemma {:induction false} Undone(evs: seq<Event>, j: nat, d: Desc, c: Constructor) returns (k: nat)
    requires !AnyRegistered(evs, d) && j < |evs| && Does(evs, j, Register(d, c))
    ensures j < k < |evs| && Does(evs, k, Unregister(d))
    decreases j
  {
    if u :| j < u < |evs| && Does(evs, u, Unregister(d)) {
      k := u;
    } else {
      assert !Registered(evs, d, c);
      assert !RegisteredAt(evs, j, d, c);
      var j', c' :| 0 <= j' < j && Does(evs, j', Register(d, c'))
                    && !(exists u | j' < u < j :: Does(evs, u, Unregister(d)));
      k := Undone(evs, j', d, c');
    }
  }

  lemma FirstRegistered(evs: seq<Event>, e: Event, d: Desc, c: Constructor)
    requires Section(evs, e) == Some(Register(d, c)) && !AnyRegistered(evs, d)
    ensures Registered(evs + [e], d, c)
  {
    StillDoes(evs, e);
    var all, n := evs + [e], |evs|;
    forall j, c' | 0 <= j < n && Does(all, j, Register(d, c'))
      ensures exists k | j < k < n :: Does(all, k, Unregister(d))
    {
      var k := Undone(evs, j, d, c');
      assert Does(all, k, Unregister(d));
    }
    assert RegisteredAt(all, n, d, c);
  }

  /** The constructor map holds what the events of the run have registered. */
  ghost predicate MapsRegistered(s: State, evs: seq<Event>, d: Desc) {
    && (forall c :: d in s.constructors && s.constructors[d] == c <==> Registered(evs, d, c))
    && (d in s.constructors <==> AnyRegistered(evs, d))
  }

  lemma StepMapsRegistered(s: State, evs: seq<Event>, e: Event, d: Desc)
    requires Enabled(s, e) && (e.Work? ==> Calling(evs, e.t) == Some(s.pcs[e.t].op)) && MapsRegistered(s, evs, d)
    ensures MapsRegistered(Apply(s, e), evs + [e], d)
  {
    var s' := Apply(s, e);
    forall c
      ensures d in s'.constructors && s'.constructors[d] == c <==> Registered(evs + [e], d, c)
    {
      RegisteredNext(evs, e, d, c);
    }
    if d in s'.constructors {
      assert Registered(evs + [e], d, s'.constructors[d]);
    }
  }

  /** Over every run: a descriptor has a constructor exactly when a Register of it came after
      its last Unregister, and it is that of the first such Register. */
  lemma {:induction false} RegisteredIff(threads: nat, evs: seq<Event>, d: Desc)
    requires Run(Init(threads), evs)
    ensures MapsRegistered(After(Init(threads), evs), evs, d)
    decreases |evs|
  {
    if evs != [] {
      var front, e := evs[..|evs| - 1], evs[|evs| - 1];
      assert evs == front + [e];
      LastStep(Init(threads), evs);
      RunKeepsInv(Init(threads), front);
      ThreadsAreBusy(threads, front, e.t);
      RegisteredIff(threads, front, d);
      StepMapsRegistered(After(Init(threads), front), front, e, d);
    }
  }

  lemma MadeNext(evs: seq<Event>, e: Event, p: Ptr, x: Stub)
    ensures var all, n := evs + [e], |evs|;
            Made(all, p, x) <==> Makes(all, n, p, x) || (Made(evs, p, x) && !Unmakes(all, n, p))
  {
    StillDoes(evs, e);
    var all, n := evs + [e], |evs|;
    forall i | 0 <= i < n
      ensures all[..i] == evs[..i] && all[i] == evs[i]
      ensures (Makes(all, i, p, x) <==> Makes(evs, i, p, x)) && (Unmakes(all, i, p) <==> Unmakes(evs, i, p))
    {}
    if Made(evs, p, x) && !Unmakes(all, n, p) {
      var i :| 0 <= i < n && Makes(evs, i, p, x) && forall j | i < j < n :: !Unmakes(evs, j, p);
      assert Makes(all, i, p, x) && forall j | i < j < n + 1 :: !Unmakes(all, j, p);
    }
  }

  ghost predicate MapsMade(s: State, evs: seq<Event>, p: Ptr) {
    forall x :: p in s.stubs && s.stubs[p] == x <==> Made(evs, p, x)
  }

  /** What the critical section of `e` makes or takes away, by the constructor map. */
  lemma WorkOf(s: State, evs: seq<Event>, e: Event, p: Ptr, x: Stub)
    requires Enabled(s, e) && (e.Work? ==> Calling(evs, e.t) == Some(s.pcs[e.t].op))
    requires forall d :: MapsRegistered(s, evs, d)
    ensures Makes(evs + [e], |evs|, p, x) <==>
              && e.Work? && s.pcs[e.t].op.Get? && s.pcs[e.t].op.p == p && e.made == Some(x)
              && var d := s.pcs[e.t].op.desc; d in s.constructors && s.constructors[d] == Constructor(true)
    ensures Unmakes(evs + [e], |evs|, p) <==>
              e.Work? && s.pcs[e.t].op.Remove? && s.pcs[e.t].op.p == p && s.pcs[e.t].op.desc in s.constructors
  {
    StillDoes(evs, e);
    assert (evs + [e])[..|evs|] == evs;
    if e.Work? {
      var op := s.pcs[e.t].op;
      if op.Get? || op.Remove? {
        assert MapsRegistered(s, evs, op.desc);
        assert Does(evs + [e], |evs|, op);
      }
    }
  }

  lemma StepMapsMade(s: State, evs: seq<Event>, e: Event, p: Ptr)
    requires Inv(s) && Enabled(s, e) && (e.Work? ==> Calling(evs, e.t) == Some(s.pcs[e.t].op))
    requires MapsMade(s, evs, p) && forall d :: MapsRegistered(s, evs, d)
    ensures MapsMade(Apply(s, e), evs + [e], p)
  {
    assert Placed(s, e.t);
    forall x
      ensures p in Apply(s, e).stubs && Apply(s, e).stubs[p] == x <==> Made(evs + [e], p, x)
    {
      MadeNext(evs, e, p, x);
      WorkOf(s, evs, e, p, x);
    }
  }

  /** Over every run: a service has a stub exactly when one was made after the last that was
      taken away, by a Get under a descriptor registered at that moment, and it is that one. */
  lemma {:induction false} MadeIff(threads: nat, evs: seq<Event>, p: Ptr)
    requires Run(Init(threads), evs)
    ensures MapsMade(After(Init(threads), evs), evs, p)
    decreases |evs|
  {
    if evs != [] {
      var front, e := evs[..|evs| - 1], evs[|evs| - 1];
      assert evs == front + [e];
      LastStep(Init(threads), evs);
      RunKeepsInv(Init(threads), front);
      ThreadsAreBusy(threads, front, e.t);
      forall d
        ensures MapsRegistered(After(Init(threads), front), front, d)
      {
        RegisteredIff(threads, front, d);
      }
      MadeIff(threads, front, p);
      StepMapsMade(After(Init(threads), front), front, e, p);
    }
  }

  /** How a call that has been decided came out. A Get that was not in the constructor critical
      section found a stub; one that was has what was made there, if there was a constructor.
      After a Remove the stub is there only if no constructor was. */
  ghost predicate Decided(s: State, evs: seq<Event>, t: nat)
    requires t < |s.pcs|
  {
    var pc, i := s.pcs[t], WorkedAt(evs, t);
    pc.Leaving? ==>
      && (i.Some? ==> Does(evs, i.value, pc.op))
      && match pc.op
         case Get(d, p) =>
           if i.None? then pc.ret.Some?
           else pc.ret == if Registered(evs[..i.value], d, Constructor(true)) then evs[i.value].made else None
         case Remove(d, p) => p in s.stubs <==> i.Some? && !AnyRegistered(evs[..i.value], d)
         case _ => i.Some?
  }

  lemma OwnStepDecides(s: State, evs: seq<Event>, e: Event)
    requires Inv(s) && Enabled(s, e) && Busy(s, evs, e.t) && Decided(s, evs, e.t)
    requires forall d :: MapsRegistered(s, evs, d)
    ensures Decided(Apply(s, e), evs + [e], e.t)
  {
    var all, i := evs + [e], WorkedAt(evs, e.t);
    assert all[..|evs|] == evs && (i.Some? ==> all[..i.value] == evs[..i.value]);
    assert Placed(s, e.t);
    StillDoes(evs, e);
    if !s.pcs[e.t].Idle? && TakesStubLock(s.pcs[e.t].op) {
      assert MapsRegistered(s, evs, s.pcs[e.t].op.desc);
    }
  }

  lemma OthersStepDecides(s: State, evs: seq<Event>, e: Event, t: nat)
    requires Inv(s) && Enabled(s, e) && t < |s.pcs| && t != e.t && Decided(s, evs, t)
    ensures Decided(Apply(s, e), evs + [e], t)
  {
    var all, i := evs + [e], WorkedAt(evs, t);
    assert all[..|evs|] == evs && (i.Some? ==> all[..i.value] == evs[..i.value]);
    assert Placed(s, t) && Placed(s, e.t);
    StillDoes(evs, e);
    assert Apply(s, e).pcs[t] == s.pcs[t] && WorkedAt(all, t) == i;
  }

  lemma {:induction false} CallsAreDecided(threads: nat, evs: seq<Event>, t: nat)
    requires Run(Init(threads), evs) && t < threads
    ensures |After(Init(threads), evs).pcs| == threads && Decided(After(Init(threads), evs), evs, t)
    decreases |evs|
  {
    if evs != [] {
      var front, e := evs[..|evs| - 1], evs[|evs| - 1];
      assert evs == front + [e];
      LastStep(Init(threads), evs);
      RunKeepsInv(Init(threads), front);
      ThreadsAreBusy(threads, front, e.t);
      forall d
        ensures MapsRegistered(After(Init(threads), front), front, d)
      {
        RegisteredIff(threads, front, d);
      }
      CallsAreDecided(threads, front, t);
      if t == e.t {
        OwnStepDecides(After(Init(threads), front), front, e);
      } else {
        OthersStepDecides(After(Init(threads), front), front, e, t);
      }
    }
  }

  /** What a Get returns, over every run: the stub there is. If there was none when it looked,
      that is the one its callback made, provided that the descriptor was registered, with a
      constructor function, when it got to it, and nothing otherwise. */
  lemma GetReturns(threads: nat, evs: seq<Event>, t: nat)
    requires Run(Init(threads), evs) && t < threads
    ensures |After(Init(threads), evs).pcs| == threads
    ensures var s := After(Init(threads), evs);
            var pc, i := s.pcs[t], WorkedAt(evs, t);
            pc.Leaving? && pc.op.Get? ==>
              && Calling(evs, t) == Some(pc.op)
              && (forall x: Stub :: pc.ret == Some(x) <==> Made(evs, pc.op.p, x))
              && if i.None? then pc.ret.Some?
                 else pc.ret == if Registered(evs[..i.value], pc.op.desc, Constructor(true)) then evs[i.value].made
                                else None
  {
    RunKeepsInv(Init(threads), evs);
    ThreadsAreBusy(threads, evs, t);
    CallsAreDecided(threads, evs, t);
    var s := After(Init(threads), evs);
    if s.pcs[t].Leaving? && s.pcs[t].op.Get? {
      assert Placed(s, t);
      MadeIff(threads, evs, s.pcs[t].op.p);
    }
  }

  /** What a thread can do after a step of its own, in the order the code has it. */
  lemma NextStep(s: State, e: Event, f: Event)
    requires Inv(s) && Enabled(s, e) && f.t == e.t
    ensures var s', op := Apply(s, e), if e.Call? then e.op else s.pcs[e.t].op;
            Enabled(s', f) <==>
              match e
              case Call(_, _) =>
                if op.Get? || op.Remove? then f.LockStub? && s.stubLock == None else f.LockCons? && s.consLock == None
              case LockStub(_) => f.Find?
              case Find(_) =>
                if (op.Get? && op.p in s.stubs) || (op.Remove? && op.p !in s.stubs) then f.Unlock?
                else f.LockCons? && s.consLock == None
              case LockCons(_) => f.Work?
              case Work(_, _) => f.Unlock?
              case Unlock(_) => if s.consLock == Some(e.t) && (op.Get? || op.Remove?) then f.Unlock? else f.Call?
  {
    assert Placed(s, e.t);
  }
}
