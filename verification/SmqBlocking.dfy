/** Blocking reads and writes of the shared-memory queue on top of the syncer: a call that
    finds too little data, or too little room, waits on its bit and tries again; a call that
    succeeds wakes the other side. Even threads read, odd threads write, any number of each.
    A transfer looks at the offsets in one step and stores its own in another; what is
    copied in between is the matter of SmqInterleave. */
module SmqBlocking {
  import opened Common
  import opened SmqOffsets
  import opened SmqSyncer

  const WRITE: Bit := 0   // SYNC_WORD_WRITE, 0x01
  const READ: Bit := 1    // SYNC_WORD_READ, 0x02

  predicate IsReader(t: Tid) {
    t % 2 == 0
  }

  function WaitBit(t: Tid): Bit {
    if IsReader(t) then READ else WRITE
  }

  function WakeBit(t: Tid): Bit {
    if IsReader(t) then WRITE else READ
  }

  /** A thread that is moving elements has yet to store the offset `to`. */
  datatype Role = Trying | Moving(n: nat, to: nat) | Waiting(n: nat) | Waking

  datatype Sys = Sys(q: nat, w: nat, r: nat, sync: State, roles: map<Tid, Role>) {
    function Role(t: Tid): Role {
      if t in roles then roles[t] else Trying
    }

    predicate Ok() {
      && (if q == 0 then w == r == 0 else w < q && r < q)
      && forall t <- roles :: roles[t].Moving? ==> roles[t].to < q
    }

    function Size(): nat
      requires Ok()
    {
      Readable(w, r, q)
    }
  }

  predicate Served(s: Sys, t: Tid, n: nat)
    requires s.Ok()
  {
    if IsReader(t) then CanRead(s.Size(), n) else CanWrite(s.Size(), n, s.q)
  }

  /** Where a transfer of n elements leaves the offset of its side. */
  function Target(s: Sys, t: Tid, n: nat): (to: nat)
    requires s.Ok() && Served(s, t, n)
    ensures to < s.q
  {
    Moved(if IsReader(t) then s.r else s.w, n, s.q)
  }

  /** How a call that cannot be served goes on: it waits without or with a deadline, or,
      its time being up, it gives up. */
  datatype Patience = Untimed | Timed | LastTry

  datatype Act =
    | Look(t: Tid, n: nat, patience: Patience)  // an attempt of a Read or Write of n elements
    | Store(t: Tid)                             // ends the transfer and calls Wake
    | Step(e: Event)                            // one step inside Wait or Wake
    | Return(t: Tid)                            // Wait or Wake has returned

  predicate Possible(s: Sys, a: Act) {
    match a
    case Look(t, _, _) => s.Role(t).Trying? && s.sync.Pc(t).Idle?
    case Store(t) => s.Role(t).Moving? && s.sync.Pc(t).Idle?
    case Step(e) => !e.CallWait? && !e.CallWake? && Enabled(s.sync, e)
    case Return(t) => (s.Role(t).Waiting? || s.Role(t).Waking?) && s.sync.Pc(t).Idle?
  }

  function Do(s: Sys, a: Act): (s': Sys)
    requires s.Ok() && Possible(s, a)
    ensures s'.Ok() && s'.q == s.q
  {
    match a
    case Look(t, n, patience) =>
      if Served(s, t, n) then s.(roles := s.roles[t := Moving(n, Target(s, t, n))])
      else if patience.LastTry? then s
      else s.(sync := Apply(s.sync, CallWait(t, {WaitBit(t)}, patience.Timed?)), roles := s.roles[t := Waiting(n)])
    case Store(t) =>
      var to := s.Role(t).to;
      Sys(s.q, if IsReader(t) then s.w else to, if IsReader(t) then to else s.r,
          Apply(s.sync, CallWake(t, {WakeBit(t)})), s.roles[t := Waking])
    case Step(e) => s.(sync := Apply(s.sync, e))
    case Return(t) => s.(roles := s.roles[t := Trying])
  }

  function Start(q: nat): (s: Sys)
    ensures s.Ok()
  {
    Sys(q, 0, 0, INIT, map[])
  }

  predicate Played(s: Sys, acts: seq<Act>)
    requires s.Ok()
    decreases |acts|
  {
    acts == [] || (Possible(s, acts[0]) && Played(Do(s, acts[0]), acts[1..]))
  }

  function Final(s: Sys, acts: seq<Act>): (s': Sys)
    requires s.Ok() && Played(s, acts)
    ensures s'.Ok() && s'.q == s.q
    decreases |acts|
  {
    if acts == [] then s else Final(Do(s, acts[0]), acts[1..])
  }

  function Actor(a: Act): Tid {
    if a.Step? then a.e.t else a.t
  }

  /** Reads ask for 1 to m elements, writes offer at most k. */
  predicate Within(a: Act, m: nat, k: nat) {
    a.Look? ==> if IsReader(a.t) then 0 < a.n <= m else a.n <= k
  }

  /** A play by these threads only. */
  ghost predicate PlayOf(q: nat, acts: seq<Act>, threads: set<Tid>) {
    Played(Start(q), acts) && forall a <- acts :: Actor(a) in threads
  }

  // ------------------------------------------------ what a call comes to

  /** What an attempt asks for is there, or has room, between the offsets as they are. */
  predicate Fits(s: Sys, t: Tid, n: nat) {
    var size := if s.w >= s.r then s.w - s.r else s.w + s.q - s.r;
    if t % 2 == 0 then 0 < n <= size else size + n < s.q
  }

  /** An attempt that fits moves exactly n elements, and goes on to wake the other side. */
  lemma LookMoves(s: Sys, t: Tid, n: nat, patience: Patience)
    requires s.Ok() && s.Role(t).Trying? && s.sync.Pc(t).Idle? && Fits(s, t, n)
    ensures var s' := Do(s, Look(t, n, patience));
            && s'.sync == s.sync && s'.w == s.w && s'.r == s.r && Possible(s', Store(t))
            && var s'' := Do(s', Store(t));
               && s''.r == (if t % 2 == 0 then (s.r + n) % s.q else s.r)
               && s''.w == (if t % 2 == 0 then s.w else (s.w + n) % s.q)
               && s''.sync == s.sync.Goto(t, WakeFetch({if t % 2 == 0 then 0 else 1}))
  {
    MovedIsRound(if t % 2 == 0 then s.r else s.w, n, s.q);
  }

  /** One that does not waits on the bit of its own side, with a deadline exactly if the call
      is timed; or, being the last try, leaves everything as it is. */
  lemma LookWaits(s: Sys, t: Tid, n: nat, patience: Patience)
    requires s.Ok() && s.Role(t).Trying? && s.sync.Pc(t).Idle? && !Fits(s, t, n)
    ensures var s' := Do(s, Look(t, n, patience));
            if patience.LastTry? then s' == s
            else
              && s'.w == s.w && s'.r == s.r && s'.Role(t) == Waiting(n)
              && s'.sync == s.sync.Goto(t, WaitFetch({if t % 2 == 0 then 1 else 0}, patience.Timed?))
  {}

  /** Nobody ever has to wait but in his sleep, and that can end at any time. */
  lemma CanGoOn(s: Sys, t: Tid)
    requires s.Ok()
    ensures match s.sync.Pc(t)
            case Idle =>
              (match s.Role(t)
               case Trying => forall n, patience :: Possible(s, Look(t, n, patience))
               case Moving(_, _) => Possible(s, Store(t))
               case _ => Possible(s, Return(t)))
            case WaitFetch(_, _) => Possible(s, Step(FetchAnd(t)))
            case WaitCompare(_, _, _) => Possible(s, Step(Compare(t)))
            case Asleep(_, _) => Possible(s, Step(Signal(t))) && Possible(s, Step(Spurious(t)))
            case Woken(_, _) => Possible(s, Step(FetchAndAgain(t)))
            case WakeFetch(_) => Possible(s, Step(FetchOr(t)))
            case WakeFutex(_) => Possible(s, Step(FutexWake(t)))
  {}

  /** The attempt that a thread made last. */
  function LastLook(acts: seq<Act>, t: Tid): Option<Act>
    decreases |acts|
  {
    if acts == [] then None
    else
      var front, a := acts[..|acts| - 1], acts[|acts| - 1];
      if a.Look? && a.t == t then Some(a) else LastLook(front, t)
  }

  function Deadline(pc: Pc): bool {
    match pc
    case WaitFetch(_, timed) => timed
    case WaitCompare(_, _, timed) => timed
    case Asleep(_, timed) => timed
    case Woken(_, timed) => timed
    case _ => false
  }

  /** A thread is in Wait for its last attempt only, which was none of a last try. */
  predicate WaitsAsAsked(s: Sys, t: Tid, look: Option<Act>) {
    && (s.Role(t).Moving? ==> look.Some? && look.value.Look? && s.Role(t).n == look.value.n)
    && (s.Role(t).Waiting? ==>
          look.Some? && look.value.Look? && s.Role(t).n == look.value.n && !look.value.patience.LastTry?)
    && (InWait(s.sync.Pc(t)) ==>
          s.Role(t).Waiting? && (Deadline(s.sync.Pc(t)) <==> look.value.patience.Timed?))
  }

  lemma {:induction false} LastAct(s: Sys, acts: seq<Act>)
    requires s.Ok() && Played(s, acts) && acts != []
    ensures var front, a := acts[..|acts| - 1], acts[|acts| - 1];
            Played(s, front) && Possible(Final(s, front), a) && Final(s, acts) == Do(Final(s, front), a)
    decreases |acts|
  {
    if |acts| > 1 {
      LastAct(Do(s, acts[0]), acts[1..]);
      var front := acts[..|acts| - 1];
      assert front[0] == acts[0] && front[1..] == acts[1..][..|acts[1..]| - 1];
    }
  }

  lemma DoWaitsAsAsked(s: Sys, a: Act, t: Tid, look: Option<Act>)
    requires s.Ok() && Possible(s, a) && WaitsAsAsked(s, t, look)
    ensures WaitsAsAsked(Do(s, a), t, if a.Look? && a.t == t then Some(a) else look)
  {}

  lemma {:induction false} PlayWaitsAsAsked(q: nat, acts: seq<Act>, t: Tid)
    requires Played(Start(q), acts)
    ensures WaitsAsAsked(Final(Start(q), acts), t, LastLook(acts, t))
    decreases |acts|
  {
    if acts != [] {
      var front, a := acts[..|acts| - 1], acts[|acts| - 1];
      LastAct(Start(q), acts);
      PlayWaitsAsAsked(q, front, t);
      assert LastLook(acts, t) == if a.Look? && a.t == t then Some(a) else LastLook(front, t);
      DoWaitsAsAsked(Final(Start(q), front), a, t, LastLook(front, t));
    }
  }

  /** Over every play of any number of threads: whoever sleeps does so in its last attempt,
      for the elements asked for in it; its sleep can time out exactly if it was timed, and no
      last try ever sleeps. */
  lemma SleepsAsAsked(q: nat, acts: seq<Act>, t: Tid)
    requires Played(Start(q), acts) && Final(Start(q), acts).sync.Pc(t).Asleep?
    ensures var s, look := Final(Start(q), acts), LastLook(acts, t);
            && look.Some? && look.value.Look? && s.Role(t) == Waiting(look.value.n)
            && !look.value.patience.LastTry?
            && (Possible(s, Step(Timeout(t))) <==> look.value.patience.Timed?)
  {
    PlayWaitsAsAsked(q, acts, t);
  }

  // ------------------------------------------- one reader and one writer

  /** Where a thread stands in the syncer, given what it is doing. */
  predicate PcFits(t: Tid, role: Role, pc: Pc) {
    match pc
    case Idle => true
    case WaitFetch(mask, _) => role.Waiting? && mask == {WaitBit(t)}
    case WaitCompare(mask, _, _) => role.Waiting? && mask == {WaitBit(t)}
    case Asleep(mask, _) => role.Waiting? && mask == {WaitBit(t)}
    case Woken(mask, _) => role.Waiting? && mask == {WaitBit(t)}
    case WakeFetch(bits) => role.Waking? && bits == {WakeBit(t)}
    case WakeFutex(bits) => role.Waking? && bits == {WakeBit(t)}
  }

  /** If thread `t` waits though it could now be served, its bit is on, or `other` is
      about to turn it on. */
  predicate Noticed(s: Sys, t: Tid, other: Tid)
    requires s.Ok()
  {
    s.Role(t).Waiting? && !s.sync.Pc(t).Idle? && Served(s, t, s.Role(t).n) ==>
      WaitBit(t) in s.sync.word || s.sync.Pc(other) == WakeFetch({WaitBit(t)})
  }

  /** A transfer in progress was served by the offsets as they are, or by less. */
  predicate Underway(s: Sys, t: Tid)
    requires s.Ok()
  {
    s.Role(t).Moving? ==>
      s.sync.Pc(t).Idle? && Served(s, t, s.Role(t).n) && s.Role(t).to == Target(s, t, s.Role(t).n)
  }

  ghost predicate PairInv(s: Sys, r: Tid, w: Tid) {
    && s.Ok() && Inv(s.sync) && Underway(s, r) && Underway(s, w)
    && s.sync.pcs.Keys <= {r, w}
    && PcFits(r, s.Role(r), s.sync.Pc(r)) && PcFits(w, s.Role(w), s.sync.Pc(w))
    && Noticed(s, r, w) && Noticed(s, w, r)
  }

  /** The event inside the syncer that an act amounts to, if any. */
  function Inner(s: Sys, a: Act): seq<Event>
    requires s.Ok()
  {
    match a
    case Look(t, n, patience) =>
      if Served(s, t, n) || patience.LastTry? then [] else [CallWait(t, {WaitBit(t)}, patience.Timed?)]
    case Store(t) => [CallWake(t, {WakeBit(t)})]
    case Step(e) => [e]
    case Return(_) => []
  }

  /** What storing an offset does to the number of readable elements. */
  lemma StoreSize(s: Sys, t: Tid)
    requires s.Ok() && Possible(s, Store(t)) && Underway(s, t)
    ensures Do(s, Store(t)).Size() == if IsReader(t) then s.Size() - s.Role(t).n else s.Size() + s.Role(t).n
  {
    if IsReader(t) {
      ReadShrinks(s.w, s.r, s.Role(t).n, s.q);
    } else {
      WriteGrows(s.w, s.r, s.Role(t).n, s.q);
    }
  }

  /** The other side's transfer stays possible, to the same place. */
  lemma DoKeepsUnderway(s: Sys, a: Act, t: Tid, other: Tid)
    requires s.Ok() && Possible(s, a) && Actor(a) in {t, other} && Underway(s, t) && Underway(s, other)
    requires IsReader(t) != IsReader(other)
    ensures Underway(Do(s, a), t)
  {
    if a.Store? && a.t == other {
      StoreSize(s, other);
    }
  }

  lemma DoKeepsNotice(s: Sys, a: Act, t: Tid, other: Tid)
    requires s.Ok() && Possible(s, a) && Actor(a) in {t, other} && Noticed(s, t, other)
    requires Underway(s, t) && Underway(s, other)
    requires PcFits(t, s.Role(t), s.sync.Pc(t)) && PcFits(other, s.Role(other), s.sync.Pc(other))
    requires IsReader(t) != IsReader(other)
    ensures Noticed(Do(s, a), t, other)
  {
    var b, w := WaitBit(t), s.sync.word;
    assert b in w ==> b in w * {b};
    assert WaitBit(other) != b && WakeBit(other) == b;
    if a.Store? {
      StoreSize(s, a.t);
    }
  }

  lemma DoKeepsPlace(s: Sys, a: Act, t: Tid)
    requires s.Ok() && Possible(s, a) && PcFits(t, s.Role(t), s.sync.Pc(t))
    requires PcFits(Actor(a), s.Role(Actor(a)), s.sync.Pc(Actor(a)))
    ensures PcFits(t, Do(s, a).Role(t), Do(s, a).sync.Pc(t))
  {}

  lemma DoKeepsThreads(s: Sys, a: Act, threads: set<Tid>)
    requires s.Ok() && Possible(s, a) && Actor(a) in threads
    requires s.sync.pcs.Keys <= threads && s.roles.Keys <= threads
    ensures Do(s, a).sync.pcs.Keys <= threads && Do(s, a).roles.Keys <= threads
  {}

  lemma DoKeepsInv(s: Sys, a: Act, r: Tid, w: Tid)
    requires IsReader(r) && !IsReader(w)
    requires PairInv(s, r, w) && s.roles.Keys <= {r, w} && Possible(s, a) && Actor(a) in {r, w}
    ensures PairInv(Do(s, a), r, w) && Do(s, a).roles.Keys <= {r, w}
  {
    if Inner(s, a) != [] {
      StepKeepsInv(s.sync, Inner(s, a)[0]);
    }
    DoKeepsUnderway(s, a, r, w);
    DoKeepsUnderway(s, a, w, r);
    DoKeepsPlace(s, a, r);
    DoKeepsPlace(s, a, w);
    DoKeepsThreads(s, a, {r, w});
    DoKeepsNotice(s, a, r, w);
    DoKeepsNotice(s, a, w, r);
  }

  lemma {:induction false} PlayKeepsInv(s: Sys, acts: seq<Act>, r: Tid, w: Tid)
    requires IsReader(r) && !IsReader(w)
    requires PairInv(s, r, w) && s.roles.Keys <= {r, w} && Played(s, acts) && forall a <- acts :: Actor(a) in {r, w}
    ensures PairInv(Final(s, acts), r, w) && Final(s, acts).q == s.q
    decreases |acts|
  {
    if acts != [] {
      DoKeepsInv(s, acts[0], r, w);
      PlayKeepsInv(Do(s, acts[0]), acts[1..], r, w);
    }
  }

  // --------------------------------------------------- who is left asleep

  predicate Sleeps(s: Sys, t: Tid) {
    s.sync.Pc(t).Asleep?
  }

  /** A wake of this bit is under way. */
  ghost predicate WakeComing(s: Sys, b: Bit) {
    exists u <- s.sync.pcs :: s.sync.pcs[u] == WakeFetch({b}) || s.sync.pcs[u] == WakeFutex({b})
  }

  /** Thread `t` sleeps in a call that could be served, and nobody is about to wake it. */
  ghost predicate Oversleeps(s: Sys, t: Tid)
    requires s.Ok()
  {
    Sleeps(s, t) && s.Role(t).Waiting? && Served(s, t, s.Role(t).n) && !WakeComing(s, WaitBit(t))
  }

  /** One reader and one writer: whoever sleeps although it could be served is being woken
      by the other at this moment, who has yet to set the bit or to enter FUTEX_WAKE. */
  lemma NobodyOversleeps(q: nat, acts: seq<Act>, r: Tid, w: Tid, t: Tid)
    requires IsReader(r) && !IsReader(w) && PlayOf(q, acts, {r, w})
    ensures !Oversleeps(Final(Start(q), acts), t)
  {
    PlayKeepsInv(Start(q), acts, r, w);
    var s := Final(Start(q), acts);
    if Sleeps(s, t) && s.Role(t).Waiting? && Served(s, t, s.Role(t).n) {
      var other := if t == r then w else r;
      if WaitBit(t) in s.sync.word {
        assert SleepsOnSetBit(s.sync, t, WaitBit(t));
        assert WakePending(s.sync, WaitBit(t));
      } else {
        assert s.sync.pcs[other] == WakeFetch({WaitBit(t)});
      }
    }
  }

  /** Nothing can ever be put into the queue. */
  predicate NoTraffic(q: nat, threads: set<Tid>) {
    q <= 1 || forall t <- threads :: IsReader(t)
  }

  /** The queue is empty, stays so, and no waiting call could be served. */
  ghost predicate Starved(s: Sys, threads: set<Tid>) {
    && s.Ok() && s.roles.Keys <= threads && s.w == s.r == 0
    && (forall t <- s.roles :: s.roles[t].Moving? ==> s.q == 1)
    && forall t <- s.roles :: s.roles[t].Waiting? ==> !Served(s, t, s.roles[t].n)
  }

  lemma DoKeepsStarved(s: Sys, a: Act, threads: set<Tid>)
    requires Starved(s, threads) && NoTraffic(s.q, threads) && Possible(s, a) && Actor(a) in threads
    ensures Starved(Do(s, a), threads)
  {
    var s' := Do(s, a);
    forall t <- s'.roles
      ensures s'.roles[t].Moving? ==> s'.q == 1
      ensures s'.roles[t].Waiting? ==> !Served(s', t, s'.roles[t].n)
    {
      assert t == Actor(a) || s'.roles[t] == s.roles[t];
    }
  }

  lemma {:induction false} PlayKeepsStarved(s: Sys, acts: seq<Act>, threads: set<Tid>)
    requires Starved(s, threads) && NoTraffic(s.q, threads)
    requires Played(s, acts) && forall a <- acts :: Actor(a) in threads
    ensures Starved(Final(s, acts), threads)
    decreases |acts|
  {
    if acts != [] {
      DoKeepsStarved(s, acts[0], threads);
      PlayKeepsStarved(Do(s, acts[0]), acts[1..], threads);
    }
  }

  // -------------------------------------------------------- making plays

  lemma {:induction false} PlayedInTurn(s: Sys, a: seq<Act>, b: seq<Act>)
    requires s.Ok() && Played(s, a) && Played(Final(s, a), b)
    ensures Played(s, a + b) && Final(s, a + b) == Final(Final(s, a), b)
    decreases |a|
  {
    if a == [] {
      assert a + b == b;
    } else {
      assert (a + b)[1..] == a[1..] + b;
      PlayedInTurn(Do(s, a[0]), a[1..], b);
    }
  }

  predicate DoTo(s: Sys, a: Act, s': Sys) {
    s.Ok() && Possible(s, a) && Do(s, a) == s'
  }

  /** A list of states, each the act of the one before, is the play. */
  lemma {:induction false} StatesArePlay(acts: seq<Act>, ss: seq<Sys>)
    requires |ss| == |acts| + 1 && ss[0].Ok()
    requires forall i | 0 <= i < |acts| :: DoTo(ss[i], acts[i], ss[i + 1])
    ensures Played(ss[0], acts) && Final(ss[0], acts) == ss[|acts|]
    decreases |acts|
  {
    if acts != [] {
      assert DoTo(ss[0], acts[0], ss[0 + 1]);
      forall i | 0 <= i < |acts[1..]|
        ensures DoTo(ss[1..][i], acts[1..][i], ss[1..][i + 1])
      {
        assert DoTo(ss[i + 1], acts[i + 1], ss[i + 1 + 1]);
      }
      StatesArePlay(acts[1..], ss[1..]);
    }
  }

  /** The offsets after a transfer of n elements by `t`, and what its wake does not change. */
  function Transferred(s: Sys, t: Tid, n: nat, sync: State): Sys
    requires s.Ok() && Served(s, t, n)
  {
    Sys(s.q, if IsReader(t) then s.w else Target(s, t, n), if IsReader(t) then Target(s, t, n) else s.r,
        sync, s.roles[t := Moving(n, Target(s, t, n))][t := Waking])
  }

  lemma TransferredSize(s: Sys, t: Tid, n: nat, sync: State)
    requires s.Ok() && Served(s, t, n)
    ensures Transferred(s, t, n, sync).Ok()
    ensures Transferred(s, t, n, sync).Size() == if IsReader(t) then s.Size() - n else s.Size() + n
  {
    if IsReader(t) {
      ReadShrinks(s.w, s.r, n, s.q);
    } else {
      WriteGrows(s.w, s.r, n, s.q);
    }
  }

  /** A call that is served moves its elements and is about to set the other side's bit. */
  lemma Transfer(s: Sys, t: Tid, n: nat) returns (acts: seq<Act>)
    requires s.Ok() && s.Role(t).Trying? && s.sync.Pc(t).Idle? && Served(s, t, n)
    ensures Played(s, acts) && acts == [Look(t, n, Untimed), Store(t)]
    ensures Final(s, acts) == Transferred(s, t, n, s.sync.Goto(t, WakeFetch({WakeBit(t)})))
  {
    var s1 := s.(roles := s.roles[t := Moving(n, Target(s, t, n))]);
    assert DoTo(s, Look(t, n, Untimed), s1);
    var s2 := Transferred(s, t, n, s.sync.Goto(t, WakeFetch({WakeBit(t)})));
    assert DoTo(s1, Store(t), s2);
    acts := [Look(t, n, Untimed), Store(t)];
    StatesArePlay(acts, [s, s1, s2]);
  }

  /** Nobody is in a call; z elements in the queue, and maybe a token for a reader. */
  predicate AtRest(s: Sys, q: nat, z: nat) {
    && s.Ok() && s.q == q && s.Size() == z && s.sync.word <= {READ}
    && (forall t <- s.sync.pcs :: s.sync.pcs[t].Idle?)
    && (forall t <- s.roles :: s.roles[t].Trying?)
  }

  /** The wake after a transfer, onto a bit that is on already. */
  lemma WakeOntoToken(s: Sys, w: Tid) returns (acts: seq<Act>)
    requires s.Ok() && !IsReader(w) && s.Role(w).Waking? && s.sync.Pc(w) == WakeFetch({READ}) && READ in s.sync.word
    ensures Played(s, acts) && acts == [Step(FetchOr(w)), Return(w)]
    ensures Final(s, acts) == s.(sync := s.sync.Goto(w, Idle), roles := s.roles[w := Trying])
  {
    var word := s.sync.word;
    assert READ in word * {READ} && word + {READ} == word;
    var s1 := s.(sync := s.sync.Goto(w, Idle));
    assert DoTo(s, Step(FetchOr(w)), s1);
    var s2 := s1.(roles := s.roles[w := Trying]);
    assert DoTo(s1, Return(w), s2);
    acts := [Step(FetchOr(w)), Return(w)];
    StatesArePlay(acts, [s, s1, s2]);
  }

  /** The same onto a bit that is off, while nobody sleeps. */
  lemma WakeNobody(s: Sys, w: Tid) returns (acts: seq<Act>)
    requires s.Ok() && !IsReader(w) && s.Role(w).Waking? && w in s.sync.pcs && s.sync.pcs[w] == WakeFetch({READ})
    requires s.sync.word == {} && forall t <- s.sync.pcs :: t != w ==> s.sync.pcs[t].Idle?
    ensures Played(s, acts) && acts == [Step(FetchOr(w)), Step(FutexWake(w)), Return(w)]
    ensures Final(s, acts) == s.(sync := State({READ}, s.sync.pcs[w := Idle]), roles := s.roles[w := Trying])
  {
    var pcs := s.sync.pcs;
    var s1 := s.(sync := State({READ}, pcs[w := WakeFutex({READ})]));
    assert {} * {READ} == {} && {} + {READ} == {READ};
    assert DoTo(s, Step(FetchOr(w)), s1);
    var s2 := s.(sync := State({READ}, pcs[w := Idle]));
    assert WakeSleepers(s1.sync.pcs, {READ})[w := Idle] == s2.sync.pcs;
    assert DoTo(s1, Step(FutexWake(w)), s2);
    var s3 := s2.(roles := s.roles[w := Trying]);
    assert DoTo(s2, Return(w), s3);
    acts := [Step(FetchOr(w)), Step(FutexWake(w)), Return(w)];
    StatesArePlay(acts, [s, s1, s2, s3]);
  }

  lemma WriteSome(s: Sys, q: nat, z: nat, n: nat, w: Tid) returns (acts: seq<Act>)
    requires !IsReader(w) && AtRest(s, q, z) && z + n < q
    ensures Played(s, acts) && AtRest(Final(s, acts), q, z + n)
    ensures forall a <- acts :: Actor(a) == w && Within(a, 0, n)
  {
    var first := Transfer(s, w, n);
    var s' := Final(s, first);
    TransferredSize(s, w, n, s'.sync);
    var second := WakeAlone(s', w);
    PlayedInTurn(s, first, second);
    acts := first + second;
  }

  /** Either way nobody is in a call afterwards, and the bit is on. */
  lemma WakeAlone(s: Sys, w: Tid) returns (acts: seq<Act>)
    requires s.Ok() && !IsReader(w) && s.Role(w).Waking? && w in s.sync.pcs && s.sync.pcs[w] == WakeFetch({READ})
    requires s.sync.word <= {READ} && forall t <- s.sync.pcs :: t != w ==> s.sync.pcs[t].Idle?
    ensures Played(s, acts) && forall a <- acts :: Actor(a) == w && !a.Look?
    ensures var f := Final(s, acts);
            && f.q == s.q && f.w == s.w && f.r == s.r && f.roles == s.roles[w := Trying]
            && f.sync.word == {READ} && forall t <- f.sync.pcs :: f.sync.pcs[t].Idle?
  {
    if READ in s.sync.word {
      acts := WakeOntoToken(s, w);
    } else {
      acts := WakeNobody(s, w);
    }
  }

  /** A call that cannot be served, on a bit that is off, ends asleep. */
  lemma FallAsleep(s: Sys, t: Tid, n: nat) returns (acts: seq<Act>)
    requires s.Ok() && WaitBit(t) !in s.sync.word && s.Role(t).Trying? && s.sync.Pc(t).Idle? && !Served(s, t, n)
    ensures Played(s, acts) && acts == [Look(t, n, Untimed), Step(FetchAnd(t)), Step(Compare(t))]
    ensures Final(s, acts) == s.(sync := s.sync.Goto(t, Asleep({WaitBit(t)}, false)), roles := s.roles[t := Waiting(n)])
  {
    var word, mask, pcs, roles := s.sync.word, {WaitBit(t)}, s.sync.pcs, s.roles[t := Waiting(n)];
    var s1 := s.(sync := State(word, pcs[t := WaitFetch(mask, false)]), roles := roles);
    assert DoTo(s, Look(t, n, Untimed), s1);
    var s2 := s1.(sync := State(word, pcs[t := WaitCompare(mask, word, false)]));
    assert word * mask == {} && word - mask == word;
    assert DoTo(s1, Step(FetchAnd(t)), s2);
    var s3 := s1.(sync := State(word, pcs[t := Asleep(mask, false)]));
    assert DoTo(s2, Step(Compare(t)), s3);
    acts := [Look(t, n, Untimed), Step(FetchAnd(t)), Step(Compare(t))];
    StatesArePlay(acts, [s, s1, s2, s3]);
  }

  /** A call that cannot be served takes the token that is there, and finds nothing. */
  lemma TakeToken(s: Sys, t: Tid, n: nat) returns (acts: seq<Act>)
    requires s.Ok() && WaitBit(t) in s.sync.word && s.Role(t).Trying? && s.sync.Pc(t).Idle? && !Served(s, t, n)
    ensures Played(s, acts) && acts == [Look(t, n, Untimed), Step(FetchAnd(t))]
    ensures Final(s, acts) == s.(sync := State(s.sync.word - {WaitBit(t)}, s.sync.pcs[t := Idle]),
                                 roles := s.roles[t := Waiting(n)])
  {
    var word, mask, pcs, roles := s.sync.word, {WaitBit(t)}, s.sync.pcs, s.roles[t := Waiting(n)];
    var s1 := s.(sync := State(word, pcs[t := WaitFetch(mask, false)]), roles := roles);
    assert DoTo(s, Look(t, n, Untimed), s1);
    var s2 := s1.(sync := State(word - mask, pcs[t := Idle]));
    assert WaitBit(t) in word * mask;
    assert DoTo(s1, Step(FetchAnd(t)), s2);
    acts := [Look(t, n, Untimed), Step(FetchAnd(t))];
    StatesArePlay(acts, [s, s1, s2]);
  }

  // ------------------------------------------- the two sides block each other

  lemma {:induction false} FillTo(q: nat, z: nat, w: Tid) returns (acts: seq<Act>)
    requires z < q && !IsReader(w)
    ensures Played(Start(q), acts) && AtRest(Final(Start(q), acts), q, z)
    ensures forall a <- acts :: Actor(a) == w && Within(a, 0, 1)
    decreases z
  {
    if z == 0 {
      acts := [];
    } else {
      acts := FillTo(q, z - 1, w);
      var more := WriteSome(Final(Start(q), acts), q, z - 1, 1, w);
      PlayedInTurn(Start(q), acts, more);
      acts := acts + more;
    }
  }

  /** A read that comes too early takes the token a former write left. */
  lemma SpendToken(s: Sys, q: nat, z: nat, n: nat, r: Tid) returns (acts: seq<Act>)
    requires IsReader(r) && AtRest(s, q, z) && z < n
    ensures Played(s, acts) && AtRest(Final(s, acts), q, z) && Final(s, acts).sync.word == {}
    ensures forall a <- acts :: Actor(a) == r && Within(a, n, 0)
  {
    if READ in s.sync.word {
      acts := TakeToken(s, r, n);
      var s' := Final(s, acts);
      assert DoTo(s', Return(r), s'.(roles := s'.roles[r := Trying]));
      StatesArePlay([Return(r)], [s', s'.(roles := s'.roles[r := Trying])]);
      PlayedInTurn(s, acts, [Return(r)]);
      acts := acts + [Return(r)];
    } else {
      acts := [];
    }
  }

  /** The queue filled to z elements, the token of the last write spent by a read that
      came too early for its n elements. */
  lemma FillAndSpend(q: nat, z: nat, n: nat, r: Tid, w: Tid) returns (acts: seq<Act>)
    requires z < q && z < n && IsReader(r) && !IsReader(w)
    ensures Played(Start(q), acts) && AtRest(Final(Start(q), acts), q, z)
    ensures Final(Start(q), acts).sync.word == {} && forall a <- acts :: Actor(a) in {r, w} && Within(a, n, 1)
  {
    var fill := FillTo(q, z, w);
    var spend := SpendToken(Final(Start(q), fill), q, z, n, r);
    PlayedInTurn(Start(q), fill, spend);
    acts := fill + spend;
  }

  /** A play of one reader and one writer whose calls stay within m and k elements. */
  ghost predicate PairPlay(q: nat, acts: seq<Act>, r: Tid, w: Tid, m: nat, k: nat) {
    PlayOf(q, acts, {r, w}) && forall a <- acts :: Within(a, m, k)
  }

  /** Two calls that cannot be served, one on each side. */
  lemma BothFallAsleep(s: Sys, r: Tid, w: Tid, m: nat, k: nat) returns (acts: seq<Act>)
    requires IsReader(r) && !IsReader(w) && s.sync.word == {}
    requires s.Role(r).Trying? && s.sync.Pc(r).Idle? && s.Role(w).Trying? && s.sync.Pc(w).Idle?
    requires s.Ok() && 0 < m && !CanRead(s.Size(), m) && !CanWrite(s.Size(), k, s.q)
    ensures Played(s, acts) && Sleeps(Final(s, acts), r) && Sleeps(Final(s, acts), w)
    ensures forall a <- acts :: Actor(a) in {r, w} && Within(a, m, k)
  {
    var first := FallAsleep(s, r, m);
    var second := FallAsleep(Final(s, first), w, k);
    PlayedInTurn(s, first, second);
    acts := first + second;
  }

  /** With larger calls both sides can be asleep at once: too little to read, too little
      room to write. */
  lemma BothCanSleep(q: nat, r: Tid, w: Tid, m: nat, k: nat) returns (acts: seq<Act>)
    requires IsReader(r) && !IsReader(w) && 0 < m && 0 < k && m + k > q > 0
    ensures PairPlay(q, acts, r, w, m, k) && Sleeps(Final(Start(q), acts), r) && Sleeps(Final(Start(q), acts), w)
  {
    var first := FillAndSpend(q, if k >= q then 0 else q - k, m, r, w);
    var second := BothFallAsleep(Final(Start(q), first), r, w, m, k);
    PlayedInTurn(Start(q), first, second);
    acts := first + second;
  }

  ghost predicate AskWithin(s: Sys, m: nat, k: nat) {
    forall t <- s.roles :: s.roles[t].Waiting? ==>
      if IsReader(t) then 0 < s.roles[t].n <= m else s.roles[t].n <= k
  }

  lemma {:induction false} PlayAsksWithin(s: Sys, acts: seq<Act>, m: nat, k: nat)
    requires s.Ok() && AskWithin(s, m, k) && Played(s, acts) && forall a <- acts :: Within(a, m, k)
    ensures AskWithin(Final(s, acts), m, k)
    decreases |acts|
  {
    if acts != [] {
      assert Within(acts[0], m, k);
      PlayAsksWithin(Do(s, acts[0]), acts[1..], m, k);
    }
  }

  lemma NeverBothAsleep(q: nat, acts: seq<Act>, r: Tid, w: Tid, m: nat, k: nat)
    requires IsReader(r) && !IsReader(w) && PairPlay(q, acts, r, w, m, k) && m + k <= q
    ensures !(Sleeps(Final(Start(q), acts), r) && Sleeps(Final(Start(q), acts), w))
  {
    PlayKeepsInv(Start(q), acts, r, w);
    PlayAsksWithin(Start(q), acts, m, k);
    var s := Final(Start(q), acts);
    if Sleeps(s, r) && Sleeps(s, w) {
      assert PcFits(r, s.Role(r), s.sync.Pc(r)) && PcFits(w, s.Role(w), s.sync.Pc(w));
      var t := if Served(s, r, s.Role(r).n) then r else w;
      assert Served(s, t, s.Role(t).n);
      NobodyOversleeps(q, acts, r, w, t);
      assert false;
    }
  }

  /** Reader and writer never block each other exactly when the largest read and the
      largest write together ask for no more elements than the queue has. */
  lemma NeverBothAsleepIff(q: nat, r: Tid, w: Tid, m: nat, k: nat)
    requires IsReader(r) && !IsReader(w) && 0 < m && 0 < k && 0 < q
    ensures (forall acts :: PairPlay(q, acts, r, w, m, k) ==>
               !(Sleeps(Final(Start(q), acts), r) && Sleeps(Final(Start(q), acts), w)))
            <==> m + k <= q
  {
    if m + k > q {
      var acts := BothCanSleep(q, r, w, m, k);
    } else {
      forall acts | PairPlay(q, acts, r, w, m, k)
        ensures !(Sleeps(Final(Start(q), acts), r) && Sleeps(Final(Start(q), acts), w))
      {
        NeverBothAsleep(q, acts, r, w, m, k);
      }
    }
  }

  // ------------------------------------------------ two threads on one side

  /** Thread `t` sleeps alone in a call for one element, the bit it waits for is off. */
  ghost predicate AsleepForOne(s: Sys, t: Tid) {
    && t in s.sync.pcs && s.sync.pcs[t] == Asleep({WaitBit(t)}, false) && s.Role(t) == Waiting(1)
    && WaitBit(t) !in s.sync.word
    && forall u <- s.sync.pcs :: u != t ==> s.sync.pcs[u].Idle?
  }

  /** The wake after a transfer, with one thread asleep on the bit. */
  lemma WakeSleeper(s: Sys, server: Tid, t: Tid) returns (acts: seq<Act>)
    requires s.Ok() && IsReader(server) != IsReader(t) && WaitBit(t) !in s.sync.word
    requires server in s.sync.pcs && s.sync.pcs[server] == WakeFetch({WaitBit(t)})
    requires t in s.sync.pcs && s.sync.pcs[t] == Asleep({WaitBit(t)}, false)
    requires forall u <- s.sync.pcs :: u != t && u != server ==> s.sync.pcs[u].Idle?
    ensures Played(s, acts) && forall a <- acts :: Actor(a) == server
    ensures Final(s, acts) == s.(sync := State(s.sync.word + {WaitBit(t)},
                                               s.sync.pcs[server := Idle][t := Woken({WaitBit(t)}, false)]))
  {
    var bits, word, pcs := {WaitBit(t)}, s.sync.word, s.sync.pcs;
    var s1 := s.(sync := State(word + bits, pcs[server := WakeFutex(bits)]));
    assert word * bits == {};
    assert DoTo(s, Step(FetchOr(server)), s1);
    var s2 := s.(sync := State(word + bits, pcs[server := Idle][t := Woken(bits, false)]));
    assert WaitBit(t) in bits * bits;
    assert WakeSleepers(s1.sync.pcs, bits)[server := Idle] == s2.sync.pcs;
    assert DoTo(s1, Step(FutexWake(server)), s2);
    acts := [Step(FetchOr(server)), Step(FutexWake(server))];
    StatesArePlay(acts, [s, s1, s2]);
  }

  /** A call of the other side is served and wakes the sleeper. */
  lemma ServeSleeper(s: Sys, server: Tid, t: Tid) returns (acts: seq<Act>)
    requires s.Ok() && AsleepForOne(s, t) && IsReader(server) != IsReader(t)
    requires s.Role(server).Trying? && s.sync.Pc(server).Idle? && Served(s, server, 1)
    ensures Played(s, acts) && forall a <- acts :: Actor(a) == server
    ensures Final(s, acts) == Transferred(s, server, 1,
                                State(s.sync.word + {WaitBit(t)},
                                      s.sync.pcs[server := Idle][t := Woken({WaitBit(t)}, false)]))
  {
    var first := Transfer(s, server, 1);
    var s0 := Final(s, first);
    var second := WakeSleeper(s0, server, t);
    assert s0.sync.pcs[server := Idle] == s.sync.pcs[server := Idle];
    PlayedInTurn(s, first, second);
    acts := first + second;
  }

  /** A woken thread that finds its bit off again goes back to sleep. */
  lemma SleepAgain(s: Sys, t: Tid) returns (acts: seq<Act>)
    requires s.Ok() && t in s.sync.pcs && s.sync.pcs[t] == Woken({WaitBit(t)}, false) && WaitBit(t) !in s.sync.word
    ensures Played(s, acts) && acts == [Step(FetchAndAgain(t)), Step(FetchAnd(t)), Step(Compare(t))]
    ensures Final(s, acts) == s.(sync := s.sync.Goto(t, Asleep({WaitBit(t)}, false)))
  {
    var word, mask, pcs := s.sync.word, {WaitBit(t)}, s.sync.pcs;
    assert word * mask == {} && word - mask == word;
    var s1 := s.(sync := State(word, pcs[t := WaitFetch(mask, false)]));
    assert DoTo(s, Step(FetchAndAgain(t)), s1);
    var s2 := s.(sync := State(word, pcs[t := WaitCompare(mask, word, false)]));
    assert DoTo(s1, Step(FetchAnd(t)), s2);
    var s3 := s.(sync := State(word, pcs[t := Asleep(mask, false)]));
    assert DoTo(s2, Step(Compare(t)), s3);
    acts := [Step(FetchAndAgain(t)), Step(FetchAnd(t)), Step(Compare(t))];
    StatesArePlay(acts, [s, s1, s2, s3]);
  }

  /** `thief`, on the side of the woken thread `t`, takes the token for a call of two
      elements that cannot be served, and `t` sleeps again. */
  lemma StealToken(s: Sys, thief: Tid, t: Tid) returns (acts: seq<Act>)
    requires s.Ok() && t in s.sync.pcs && s.sync.pcs[t] == Woken({WaitBit(t)}, false) && s.Role(t) == Waiting(1)
    requires forall u <- s.sync.pcs :: u != t ==> s.sync.pcs[u].Idle?
    requires thief != t && IsReader(thief) == IsReader(t) && WaitBit(t) in s.sync.word
    requires s.Role(thief).Trying? && s.sync.Pc(thief).Idle? && !Served(s, thief, 2)
    ensures Played(s, acts) && (forall a <- acts :: Actor(a) in {thief, t})
    ensures AsleepForOne(Final(s, acts), t) && Final(s, acts).w == s.w && Final(s, acts).r == s.r
  {
    var first := TakeToken(s, thief, 2);
    var s' := Final(s, first);
    assert WaitBit(t) !in s'.sync.word && s'.Role(t) == Waiting(1);
    var second := SleepAgain(s', t);
    PlayedInTurn(s, first, second);
    acts := first + second;
  }

  /** Thread `t` is served and woken, but loses its token to `thief`: it ends asleep beside
      what it waits for. */
  lemma TokenStolen(s: Sys, server: Tid, thief: Tid, t: Tid) returns (acts: seq<Act>)
    requires s.Ok() && AsleepForOne(s, t) && thief != t
    requires IsReader(server) != IsReader(t) && IsReader(thief) == IsReader(t)
    requires s.Role(server).Trying? && s.sync.Pc(server).Idle? && s.Role(thief).Trying? && s.sync.Pc(thief).Idle?
    requires if IsReader(t) then s.Size() == 0 && s.q >= 2 else s.Size() == s.q - 1 >= 1
    ensures Played(s, acts) && (forall a <- acts :: Actor(a) in {server, thief, t})
    ensures Oversleeps(Final(s, acts), t)
  {
    var first := ServeSleeper(s, server, t);
    var s' := Final(s, first);
    TransferredSize(s, server, 1, s'.sync);
    var second := StealToken(s', thief, t);
    PlayedInTurn(s, first, second);
    acts := first + second;
    BesideItsElement(Final(s', second), t);
  }

  lemma BesideItsElement(s: Sys, t: Tid)
    requires s.Ok() && AsleepForOne(s, t) && Served(s, t, 1)
    ensures Oversleeps(s, t)
  {}

  /** Two readers: one sleeps, the writer puts one element in, the other takes the token. */
  lemma TwoReadersOversleep(q: nat, w: Tid, thief: Tid, t: Tid) returns (acts: seq<Act>)
    requires q >= 2 && !IsReader(w) && IsReader(thief) && IsReader(t) && thief != t
    ensures PlayOf(q, acts, {w, thief, t}) && Oversleeps(Final(Start(q), acts), t)
  {
    var first := FallAsleep(Start(q), t, 1);
    var second := TokenStolen(Final(Start(q), first), w, thief, t);
    PlayedInTurn(Start(q), first, second);
    acts := first + second;
  }

  /** Two writers: one fills the queue, the other sleeps; the reader takes one element, the
      first writer the token. */
  lemma TwoWritersOversleep(q: nat, r: Tid, thief: Tid, t: Tid) returns (acts: seq<Act>)
    requires q >= 2 && IsReader(r) && !IsReader(thief) && !IsReader(t) && thief != t
    ensures PlayOf(q, acts, {r, thief, t}) && Oversleeps(Final(Start(q), acts), t)
  {
    var fill := WriteSome(Start(q), q, 0, q - 1, thief);
    var s := Final(Start(q), fill);
    var first := FallAsleep(s, t, 1);
    var second := TokenStolen(Final(s, first), r, thief, t);
    PlayedInTurn(s, first, second);
    PlayedInTurn(Start(q), fill, first + second);
    acts := fill + (first + second);
  }

  /** Two writers alone: the first looks, the second fills the queue and sleeps, the first
      stores the offset it computed before, and the queue is empty again. */
  lemma WritersRace(q: nat, stale: Tid, t: Tid) returns (acts: seq<Act>)
    requires q >= 2 && !IsReader(stale) && !IsReader(t) && stale != t
    ensures PlayOf(q, acts, {stale, t}) && Oversleeps(Final(Start(q), acts), t)
  {
    var s0 := Start(q);
    var s1 := s0.(roles := map[stale := Moving(0, 0)]);
    assert DoTo(s0, Look(stale, 0, Untimed), s1);
    StatesArePlay([Look(stale, 0, Untimed)], [s0, s1]);
    var fill := FillBeside(s1, t);
    var s2 := Final(s1, fill);
    var late := SleepThenStale(s2, stale, t);
    PlayedInTurn(s1, fill, late);
    PlayedInTurn(s0, [Look(stale, 0, Untimed)], fill + late);
    acts := [Look(stale, 0, Untimed)] + (fill + late);
  }

  /** From a full queue: `t` falls asleep, and then comes the late store. */
  lemma SleepThenStale(s: Sys, stale: Tid, t: Tid) returns (acts: seq<Act>)
    requires s.Ok() && s.q >= 2 && s.w == s.q - 1 && s.r == 0 && !IsReader(stale) && !IsReader(t) && stale != t
    requires s.sync == State({READ}, map[t := Idle]) && s.Role(stale) == Moving(0, 0) && s.Role(t).Trying?
    ensures Played(s, acts) && (forall a <- acts :: Actor(a) in {stale, t}) && Oversleeps(Final(s, acts), t)
  {
    var sleep := FallAsleep(s, t, 1);
    var s' := Final(s, sleep);
    assert s'.sync.pcs == map[t := Asleep({WRITE}, false)];
    var back := StoreStale(s', stale, t);
    PlayedInTurn(s, sleep, back);
    acts := sleep + back;
  }

  lemma FillBeside(s: Sys, t: Tid) returns (acts: seq<Act>)
    requires s.Ok() && s.q >= 2 && s.w == s.r == 0 && s.sync == INIT && !IsReader(t) && s.Role(t).Trying?
    ensures Played(s, acts) && forall a <- acts :: Actor(a) == t
    ensures var f := Final(s, acts);
            && f.w == s.q - 1 && f.r == 0 && f.sync == State({READ}, map[t := Idle])
            && f.roles == s.roles[t := Trying]
  {
    var first := Transfer(s, t, s.q - 1);
    var s' := Final(s, first);
    var second := WakeNobody(s', t);
    PlayedInTurn(s, first, second);
    acts := first + second;
    assert s'.sync.pcs[t := Idle] == map[t := Idle];
    assert s'.roles[t := Trying] == s.roles[t := Trying];
  }

  /** The late store takes the offset back; its wake finds the token of the first. */
  lemma StoreStale(s: Sys, stale: Tid, t: Tid) returns (acts: seq<Act>)
    requires s.Ok() && s.q >= 2 && s.r == 0 && !IsReader(stale) && !IsReader(t) && stale != t
    requires s.sync == State({READ}, map[t := Asleep({WRITE}, false)])
    requires s.Role(stale) == Moving(0, 0) && s.Role(t) == Waiting(1)
    ensures Played(s, acts) && (forall a <- acts :: Actor(a) == stale) && Oversleeps(Final(s, acts), t)
  {
    var s1 := Sys(s.q, 0, 0, s.sync.Goto(stale, WakeFetch({READ})), s.roles[stale := Waking]);
    assert DoTo(s, Store(stale), s1);
    StatesArePlay([Store(stale)], [s, s1]);
    var more := WakeOntoToken(s1, stale);
    PlayedInTurn(s, [Store(stale)], more);
    acts := [Store(stale)] + more;
    BesideItsElement(Final(s1, more), t);
  }

  /** No two threads are on the same side. */
  predicate OnePerSide(threads: set<Tid>) {
    forall t, u | t in threads && u in threads && IsReader(t) == IsReader(u) :: t == u
  }

  ghost predicate NeverOversleeps(q: nat, threads: set<Tid>) {
    forall acts, t :: PlayOf(q, acts, threads) ==> !Oversleeps(Final(Start(q), acts), t)
  }

  lemma SomebodyOversleeps(q: nat, threads: set<Tid>)
    requires !NoTraffic(q, threads) && !OnePerSide(threads)
    ensures !NeverOversleeps(q, threads)
  {
    var thief, t :| thief in threads && t in threads && IsReader(thief) == IsReader(t) && thief != t;
    var acts;
    if server :| server in threads && IsReader(server) != IsReader(t) {
      if IsReader(t) {
        acts := TwoReadersOversleep(q, server, thief, t);
      } else {
        acts := TwoWritersOversleep(q, server, thief, t);
      }
    } else {
      acts := WritersRace(q, thief, t);
    }
    assert PlayOf(q, acts, threads);
  }

  /** Exactly when no call is ever left asleep beside what it waits for, for every set of
      threads and every capacity: when there is one reader and one writer at most, or
      nothing can be put into the queue. */
  lemma NeverOversleepsIff(q: nat, threads: set<Tid>)
    ensures NeverOversleeps(q, threads) <==> NoTraffic(q, threads) || OnePerSide(threads)
  {
    if NoTraffic(q, threads) {
      forall acts, t | PlayOf(q, acts, threads)
        ensures !Oversleeps(Final(Start(q), acts), t)
      {
        PlayKeepsStarved(Start(q), acts, threads);
      }
    } else if OnePerSide(threads) {
      var w :| w in threads && !IsReader(w);
      var r := 0;
      if reader :| reader in threads && IsReader(reader) {
        r := reader;
      }
      forall acts, t | PlayOf(q, acts, threads)
        ensures !Oversleeps(Final(Start(q), acts), t)
      {
        assert forall a <- acts :: Actor(a) in {r, w};
        NobodyOversleeps(q, acts, r, w, t);
      }
    } else {
      SomebodyOversleeps(q, threads);
    }
  }
}
