/** Several queues at once: any sequence of queue operations, over any number of queues that
    share no buffer, is the same sequence on plain lists. */
module NetBufQueues {
  import opened NetBuffer
  import opened NetBufQueue

  // ------------------------------------------------------ on plain lists

  datatype Op =
    | Enq(i: nat, nb: NetBuf?)
    | EnqHead(i: nat, nb: NetBuf?)
    | Deq(i: nat)
    | DeqTail(i: nat)
    | Drop(i: nat)          // NetBufQueueClear
    | Join(i: nat, j: nat)  // NetBufQueueConcat

  /** The queues, what was dequeued and what was freed, in order, and what a queue
      concatenated with itself lost. */
  datatype World = World(qs: seq<seq<NetBuf>>, taken: seq<NetBuf>, freed: seq<NetBuf>, lost: seq<NetBuf>)

  predicate Fits(w: World, op: Op) {
    op.i < |w.qs| && (op.Join? ==> op.j < |w.qs|)
  }

  function Stepped(w: World, op: Op): World
    requires Fits(w, op)
  {
    var q := w.qs[op.i];
    match op
    case Enq(i, nb) => if nb == null then w else w.(qs := w.qs[i := q + [nb]])
    case EnqHead(i, nb) => if nb == null then w else w.(qs := w.qs[i := [nb] + q])
    case Deq(i) => if q == [] then w else w.(qs := w.qs[i := q[1..]], taken := w.taken + [q[0]])
    case DeqTail(i) =>
      if q == [] then w
      else w.(qs := w.qs[i := q[..|q| - 1]], taken := w.taken + [q[|q| - 1]])
    case Drop(i) => w.(qs := w.qs[i := []], freed := w.freed + q)
    case Join(i, j) =>
      if i == j then w.(qs := w.qs[i := []], lost := w.lost + q)
      else w.(qs := w.qs[i := q + w.qs[j]][j := []])
  }

  /** How often an operation puts buffer `b` in. */
  function Entered(op: Op, b: NetBuf): nat {
    if (op.Enq? || op.EnqHead?) && op.nb == b then 1 else 0
  }

  function Times(s: seq<NetBuf>, b: NetBuf): nat {
    multiset(s)[b]
  }

  function Queued(qs: seq<seq<NetBuf>>, b: NetBuf): nat {
    if qs == [] then 0 else Times(qs[0], b) + Queued(qs[1..], b)
  }

  /** How often `b` is anywhere. */
  function Anywhere(w: World, b: NetBuf): nat {
    Queued(w.qs, b) + Times(w.taken, b) + Times(w.freed, b) + Times(w.lost, b)
  }

  lemma {:induction false} QueuedUpdate(qs: seq<seq<NetBuf>>, i: nat, q: seq<NetBuf>, b: NetBuf)
    requires i < |qs|
    ensures Queued(qs[i := q], b) + Times(qs[i], b) == Queued(qs, b) + Times(q, b)
    decreases |qs|
  {
    if i == 0 {
      assert qs[i := q][1..] == qs[1..];
    } else {
      assert qs[i := q][1..] == qs[1..][i - 1 := q];
      QueuedUpdate(qs[1..], i - 1, q, b);
    }
  }

  lemma TimesSum(s: seq<NetBuf>, t: seq<NetBuf>, b: NetBuf)
    ensures Times(s + t, b) == Times(s, b) + Times(t, b)
  {}

  lemma OneOut(w: World, i: nat, x: NetBuf, rest: seq<NetBuf>, b: NetBuf)
    requires i < |w.qs| && multiset(w.qs[i]) == multiset{x} + multiset(rest)
    ensures Anywhere(w.(qs := w.qs[i := rest], taken := w.taken + [x]), b) == Anywhere(w, b)
  {
    TimesSum(w.taken, [x], b);
    QueuedUpdate(w.qs, i, rest, b);
  }

  lemma Joined(qs: seq<seq<NetBuf>>, i: nat, j: nat, b: NetBuf)
    requires i < |qs| && j < |qs| && i != j
    ensures Queued(qs[i := qs[i] + qs[j]][j := []], b) == Queued(qs, b)
  {
    TimesSum(qs[i], qs[j], b);
    QueuedUpdate(qs, i, qs[i] + qs[j], b);
    QueuedUpdate(qs[i := qs[i] + qs[j]], j, [], b);
  }

  lemma StepConserves(w: World, op: Op, b: NetBuf)
    requires Fits(w, op)
    ensures Anywhere(Stepped(w, op), b) == Anywhere(w, b) + Entered(op, b)
  {
    var q := w.qs[op.i];
    match op {
      case Enq(i, nb) =>
        if nb != null {
          TimesSum(q, [nb], b);
          QueuedUpdate(w.qs, i, q + [nb], b);
        }
      case EnqHead(i, nb) =>
        if nb != null {
          TimesSum([nb], q, b);
          QueuedUpdate(w.qs, i, [nb] + q, b);
        }
      case Deq(i) =>
        if q != [] {
          assert q == [q[0]] + q[1..];
          OneOut(w, i, q[0], q[1..], b);
        }
      case DeqTail(i) =>
        if q != [] {
          var last := |q| - 1;
          assert q == q[..last] + [q[last]];
          OneOut(w, i, q[last], q[..last], b);
        }
      case Drop(i) =>
        TimesSum(w.freed, q, b);
        QueuedUpdate(w.qs, i, [], b);
      case Join(i, j) =>
        if i == j {
          TimesSum(w.lost, q, b);
          QueuedUpdate(w.qs, i, [], b);
        } else {
          Joined(w.qs, i, j, b);
        }
    }
  }

  predicate AllFit(w: World, ops: seq<Op>)
    decreases |ops|
  {
    ops == [] || (Fits(w, ops[0]) && AllFit(Stepped(w, ops[0]), ops[1..]))
  }

  function Played(w: World, ops: seq<Op>): World
    requires AllFit(w, ops)
    decreases |ops|
  {
    if ops == [] then w else Played(Stepped(w, ops[0]), ops[1..])
  }

  function AllEntered(ops: seq<Op>, b: NetBuf): nat
    decreases |ops|
  {
    if ops == [] then 0 else Entered(ops[0], b) + AllEntered(ops[1..], b)
  }

  /** Over any run nothing is duplicated or dropped: as often as a buffer was put in, it is
      queued, was handed out, was freed, or was lost to a queue concatenated with itself. */
  lemma {:induction false} BuffersConserved(w: World, ops: seq<Op>, b: NetBuf)
    requires AllFit(w, ops)
    ensures Anywhere(Played(w, ops), b) == Anywhere(w, b) + AllEntered(ops, b)
    decreases |ops|
  {
    if ops != [] {
      StepConserves(w, ops[0], b);
      BuffersConserved(Stepped(w, ops[0]), ops[1..], b);
    }
  }

  // ------------------------------------------------- what callers must do

  /** Lists that share no buffer. */
  ghost predicate Disjoint(qs: seq<seq<NetBuf>>) {
    forall i, j | 0 <= i < j < |qs| :: forall b <- qs[i] :: b !in qs[j]
  }

  /** A buffer that is enqueued is nowhere queued, and not freed. */
  predicate Owned(w: World, op: Op) {
    (op.Enq? || op.EnqHead?) && op.nb != null ==>
      (forall q <- w.qs :: op.nb !in q) && op.nb !in w.freed
  }

  predicate AllOwned(w: World, ops: seq<Op>)
    requires AllFit(w, ops)
    decreases |ops|
  {
    ops == [] || (Owned(w, ops[0]) && AllOwned(Stepped(w, ops[0]), ops[1..]))
  }

  lemma StepKeepsDisjoint(w: World, op: Op)
    requires Fits(w, op) && Owned(w, op) && Disjoint(w.qs)
    ensures Disjoint(Stepped(w, op).qs)
  {
    var w' := Stepped(w, op);
    forall i, j | 0 <= i < j < |w'.qs|
      ensures forall b <- w'.qs[i] :: b !in w'.qs[j]
    {
      assert w.qs[i] in w.qs && w.qs[j] in w.qs;
    }
  }

  // ------------------------------------------------------ on the C queues

  ghost function Links(all: set<NetBuf>): set<DListHead> {
    set b | b in all :: b.dlist
  }

  ghost function Heads(qs: seq<Queue>): set<DListHead> {
    set q | q in qs :: q.dlist
  }

  /** The queues are what the lists say, share no buffer, and exactly the freed buffers are freed. */
  ghost predicate Holds(qs: seq<Queue>, w: World, all: set<NetBuf>)
    reads qs, Heads(qs), all, Links(all)
  {
    && |qs| == |w.qs| && Disjoint(w.qs)
    && (forall i, j | 0 <= i < j < |qs| :: qs[i] != qs[j] && qs[i].dlist != qs[j].dlist)
    && (forall b <- all :: b.dlist.owner == b && b.frees == if b in w.freed then 1 else 0)
    && (forall i | 0 <= i < |qs| :: IsList(qs[i], w.qs[i], w.freed, all))
  }

  ghost predicate IsList(q: Queue, bufs: seq<NetBuf>, freed: seq<NetBuf>, all: set<NetBuf>)
    reads q, q.dlist, Links(all)
  {
    && (forall n <- q.links :: n in Links(all)) && q.Valid() && q.bufs == bufs
    && forall b <- bufs :: b in all && b !in freed
  }

  lemma Apart(qs: seq<Queue>, w: World, all: set<NetBuf>, i: nat, k: nat)
    requires Holds(qs, w, all) && i < |qs| && k < |qs| && i != k
    ensures Nodes(qs[i]) !! Nodes(qs[k]) && Separate(qs[i], qs[k])
  {
    assert IsList(qs[i], w.qs[i], w.freed, all) && IsList(qs[k], w.qs[k], w.freed, all);
    forall n <- qs[i].links
      ensures n !in qs[k].links && n != qs[k].dlist
    {
      var a :| 0 <= a < |w.qs[i]| && n == qs[i].links[a];
      assert n.owner == w.qs[i][a] && w.qs[i][a] !in w.qs[k];
      assert forall c | 0 <= c < |w.qs[k]| :: qs[k].links[c].owner == w.qs[k][c] != n.owner;
    }
    assert forall n <- qs[k].links :: n.owner != null;
  }

  lemma NotLinked(q: Queue, bufs: seq<NetBuf>, freed: seq<NetBuf>, all: set<NetBuf>, nb: NetBuf)
    requires IsList(q, bufs, freed, all) && nb !in bufs && nb.dlist.owner == nb
    ensures nb.dlist !in Nodes(q)
  {}

  /** All queues are untouched by what changes queue i, and the buffer `nb`, if any. */
  lemma OthersApart(qs: seq<Queue>, w: World, all: set<NetBuf>, i: nat, nb: NetBuf?)
    requires Holds(qs, w, all) && i < |qs|
    requires nb != null ==> nb in all && forall q <- w.qs :: nb !in q
    ensures forall k | 0 <= k < |qs| ::
              && IsList(qs[k], w.qs[k], w.freed, all) && NodeOf(nb) !! Nodes(qs[k])
              && (k != i ==> Nodes(qs[i]) !! Nodes(qs[k]))
  {
    forall k | 0 <= k < |qs|
      ensures IsList(qs[k], w.qs[k], w.freed, all) && NodeOf(nb) !! Nodes(qs[k])
      ensures k != i ==> Nodes(qs[i]) !! Nodes(qs[k])
    {
      if nb != null {
        NotLinked(qs[k], w.qs[k], w.freed, all, nb);
      }
      if k != i {
        Apart(qs, w, all, i, k);
      }
    }
  }

  method PutOne(q: Queue, nb: NetBuf, atHead: bool)
    requires q.Valid() && nb.dlist !in q.links && nb.dlist.owner == nb
    modifies q, Nodes(q)`next, Nodes(q)`prev, NodeOf(nb)`next, NodeOf(nb)`prev
    ensures q.Valid() && q.bufs == if atHead then [nb] + old(q.bufs) else old(q.bufs) + [nb]
    ensures forall n <- q.links :: n in old(q.links) || n == nb.dlist
  {
    if atHead {
      EnqueueHead(q, nb);
    } else {
      Enqueue(q, nb);
    }
    forall n <- q.links
      ensures n in old(q.links) || n == nb.dlist
    {
      var a :| 0 <= a < |q.links| && q.links[a] == n;
      assert n == q.bufs[a].dlist;
    }
  }

  method PutInto(qs: seq<Queue>, i: nat, nb: NetBuf, atHead: bool, ghost w: World, ghost all: set<NetBuf>)
    requires Holds(qs, w, all) && i < |qs|
    requires nb in all && (forall q <- w.qs :: nb !in q) && nb !in w.freed
    modifies qs, Heads(qs)`next, Heads(qs)`prev, Links(all)`next, Links(all)`prev
    ensures Holds(qs, Stepped(w, if atHead then EnqHead(i, nb) else Enq(i, nb)), all)
  {
    ghost var bufs := if atHead then [nb] + w.qs[i] else w.qs[i] + [nb];
    StepKeepsDisjoint(w, if atHead then EnqHead(i, nb) else Enq(i, nb));
    OthersApart(qs, w, all, i, nb);
    assert IsList(qs[i], w.qs[i], w.freed, all) && w.qs[i] in w.qs;
    NotLinked(qs[i], w.qs[i], w.freed, all, nb);
    PutOne(qs[i], nb, atHead);
    assert IsList(qs[i], bufs, w.freed, all);
    forall k | 0 <= k < |qs| && k != i
      ensures IsList(qs[k], w.qs[k], w.freed, all)
    {}
    assert Holds(qs, w.(qs := w.qs[i := bufs]), all);
  }

  method DoEnqueue(qs: seq<Queue>, i: nat, nb: NetBuf?, atHead: bool, ghost w: World, ghost all: set<NetBuf>)
    requires Holds(qs, w, all) && i < |qs|
    requires nb != null ==> nb in all && (forall q <- w.qs :: nb !in q) && nb !in w.freed
    modifies qs, Heads(qs)`next, Heads(qs)`prev, Links(all)`next, Links(all)`prev
    ensures Holds(qs, Stepped(w, if atHead then EnqHead(i, nb) else Enq(i, nb)), all)
  {
    if nb != null {
      PutInto(qs, i, nb, atHead, w, all);
    } else if atHead {
      EnqueueHead(qs[i], null);
    } else {
      Enqueue(qs[i], null);
    }
  }

  /** The one buffer that a dequeue hands out, and what it leaves. */
  function Taken(q: seq<NetBuf>, atTail: bool): NetBuf? {
    if q == [] then null else if atTail then q[|q| - 1] else q[0]
  }

  function Rest(q: seq<NetBuf>, atTail: bool): seq<NetBuf> {
    if q == [] then [] else if atTail then q[..|q| - 1] else q[1..]
  }

  lemma RestKeepsDisjoint(qs: seq<seq<NetBuf>>, i: nat, atTail: bool)
    requires i < |qs| && Disjoint(qs)
    ensures Disjoint(qs[i := Rest(qs[i], atTail)])
  {
    assert forall b <- Rest(qs[i], atTail) :: b in qs[i];
  }

  method TakeOne(q: Queue, atTail: bool) returns (nb: NetBuf?)
    requires q.Valid()
    modifies q, Nodes(q)`next, Nodes(q)`prev
    ensures q.Valid() && q.bufs == Rest(old(q.bufs), atTail) && nb == Taken(old(q.bufs), atTail)
    ensures forall n <- q.links :: n in old(q.links)
  {
    if atTail {
      nb := DequeueTail(q);
    } else {
      nb := Dequeue(q);
    }
  }

  method TakeFrom(qs: seq<Queue>, i: nat, atTail: bool, ghost w: World, ghost all: set<NetBuf>) returns (nb: NetBuf?)
    requires Holds(qs, w, all) && i < |qs|
    modifies qs, Heads(qs)`next, Heads(qs)`prev, Links(all)`next, Links(all)`prev
    ensures nb == Taken(w.qs[i], atTail)
    ensures Holds(qs, w.(qs := w.qs[i := Rest(w.qs[i], atTail)]), all)
  {
    RestKeepsDisjoint(w.qs, i, atTail);
    OthersApart(qs, w, all, i, null);
    assert IsList(qs[i], w.qs[i], w.freed, all);
    nb := TakeOne(qs[i], atTail);
    assert IsList(qs[i], Rest(w.qs[i], atTail), w.freed, all);
    forall k | 0 <= k < |qs| && k != i
      ensures IsList(qs[k], w.qs[k], w.freed, all)
    {}
  }

  method DoDequeue(qs: seq<Queue>, i: nat, atTail: bool, ghost w: World, ghost all: set<NetBuf>) returns (nb: NetBuf?)
    requires Holds(qs, w, all) && i < |qs|
    modifies qs, Heads(qs)`next, Heads(qs)`prev, Links(all)`next, Links(all)`prev
    ensures Holds(qs, Stepped(w, if atTail then DeqTail(i) else Deq(i)), all)
    ensures Stepped(w, if atTail then DeqTail(i) else Deq(i)).taken == w.taken + if nb == null then [] else [nb]
  {
    ghost var rest := w.qs[i := Rest(w.qs[i], atTail)];
    nb := TakeFrom(qs, i, atTail, w, all);
    assert w.qs[i] == [] ==> rest == w.qs;
    assert Stepped(w, if atTail then DeqTail(i) else Deq(i)).qs == rest;
  }

  method DoDrop(qs: seq<Queue>, i: nat, ghost w: World, ghost all: set<NetBuf>)
    requires Holds(qs, w, all) && i < |qs|
    modifies qs, Heads(qs)`next, Heads(qs)`prev, Links(all)`next, Links(all)`prev, all
    ensures Holds(qs, Stepped(w, Drop(i)), all)
  {
    ghost var w' := Stepped(w, Drop(i));
    StepKeepsDisjoint(w, Drop(i));
    OthersApart(qs, w, all, i, null);
    assert IsList(qs[i], w.qs[i], w.freed, all);
    Clear(qs[i]);
    forall k | 0 <= k < |qs|
      ensures IsList(qs[k], w'.qs[k], w'.freed, all)
    {
      if k != i {
        assert IsList(qs[k], w.qs[k], w.freed, all);
      }
    }
  }

  method DoJoin(qs: seq<Queue>, i: nat, j: nat, ghost w: World, ghost all: set<NetBuf>)
    requires Holds(qs, w, all) && i < |qs| && j < |qs|
    modifies qs, Heads(qs)`next, Heads(qs)`prev, Links(all)`next, Links(all)`prev
    ensures Holds(qs, Stepped(w, Join(i, j)), all)
  {
    ghost var w' := Stepped(w, Join(i, j));
    StepKeepsDisjoint(w, Join(i, j));
    OthersApart(qs, w, all, i, null);
    OthersApart(qs, w, all, j, null);
    assert IsList(qs[i], w.qs[i], w.freed, all) && IsList(qs[j], w.qs[j], w.freed, all);
    if i != j {
      Apart(qs, w, all, i, j);
    }
    Concat(qs[i], qs[j]);
    forall k | 0 <= k < |qs|
      ensures IsList(qs[k], w'.qs[k], w'.freed, all)
    {
      if k != i && k != j {
        assert IsList(qs[k], w.qs[k], w.freed, all);
      }
    }
  }

  method Perform(qs: seq<Queue>, op: Op, ghost w: World, ghost all: set<NetBuf>) returns (nb: NetBuf?)
    requires Holds(qs, w, all) && Fits(w, op) && Owned(w, op)
    requires (op.Enq? || op.EnqHead?) && op.nb != null ==> op.nb in all
    modifies qs, Heads(qs)`next, Heads(qs)`prev, Links(all)`next, Links(all)`prev, all
    ensures Holds(qs, Stepped(w, op), all)
    ensures Stepped(w, op).taken == w.taken + if nb == null then [] else [nb]
  {
    nb := null;
    match op {
      case Enq(i, b) => DoEnqueue(qs, i, b, false, w, all);
      case EnqHead(i, b) => DoEnqueue(qs, i, b, true, w, all);
      case Deq(i) => nb := DoDequeue(qs, i, false, w, all);
      case DeqTail(i) => nb := DoDequeue(qs, i, true, w, all);
      case Drop(i) => DoDrop(qs, i, w, all);
      case Join(i, j) => DoJoin(qs, i, j, w, all);
    }
  }

  /** Any run of operations on any number of queues: afterwards the queues are what the run
      makes of the lists, and what was handed out is what the run hands out. */
  method Session(qs: seq<Queue>, ops: seq<Op>, ghost w: World, ghost all: set<NetBuf>) returns (taken: seq<NetBuf>)
    requires Holds(qs, w, all) && w.taken == [] && AllFit(w, ops) && AllOwned(w, ops)
    requires forall op <- ops :: (op.Enq? || op.EnqHead?) && op.nb != null ==> op.nb in all
    modifies qs, Heads(qs)`next, Heads(qs)`prev, Links(all)`next, Links(all)`prev, all
    ensures Holds(qs, Played(w, ops), all) && taken == Played(w, ops).taken
  {
    ghost var now := w;
    taken := [];
    for i := 0 to |ops|
      invariant Holds(qs, now, all) && taken == now.taken
      invariant AllFit(now, ops[i..]) && AllOwned(now, ops[i..]) && Played(now, ops[i..]) == Played(w, ops)
    {
      assert ops[i..][1..] == ops[i + 1..] && ops[i..][0] == ops[i];
      var nb := Perform(qs, ops[i], now, all);
      if nb != null {
        taken := taken + [nb];
      }
      now := Stepped(now, ops[i]);
    }
  }
}
