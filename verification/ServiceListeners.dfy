/** Holders of service-status listeners: a list in creation order beside the listener
    list of the service manager. */
module ServiceListeners {
  import opened Common

  datatype Status = Success | InvalidParam | MallocFail | InvalidObject

  class Remote {
    const index: nat
    var recycles: nat

    constructor (index: nat)
      ensures this.index == index && recycles == 0
    {
      this.index := index;
      recycles := 0;
    }
  }

  class Holder {
    const index: nat
    const listenClass: nat
    var listenerRemote: Remote?
    var frees: nat

    constructor (remote: Remote, listenClass: nat)
      ensures index == remote.index && this.listenClass == listenClass
      ensures listenerRemote == remote && frees == 0
    {
      index, this.listenClass := remote.index, listenClass;
      listenerRemote, frees := remote, 0;
    }
  }

  /** The position of the oldest holder with this index, or the length of the list. */
  function Oldest(hs: seq<Holder>, index: nat): (k: nat)
    ensures k <= |hs|
    ensures forall i | 0 <= i < k :: hs[i].index != index
    ensures k < |hs| ==> hs[k].index == index
  {
    if hs == [] || hs[0].index == index then 0 else 1 + Oldest(hs[1..], index)
  }

  /** A list with the first entry for this very holder taken out. */
  function RemoveOne(hs: seq<Holder>, h: Holder): seq<Holder> {
    if hs == [] then []
    else if hs[0] == h then hs[1..]
    else [hs[0]] + RemoveOne(hs[1..], h)
  }

  function Without<T>(s: seq<T>, k: nat): seq<T>
    requires k < |s|
  {
    s[..k] + s[k + 1..]
  }

  /** Where no holder is listed twice, that takes out the position it is found at. */
  lemma {:induction false} RemoveOneAt(hs: seq<Holder>, k: nat)
    requires k < |hs| && Distinct(hs)
    ensures RemoveOne(hs, hs[k]) == Without(hs, k)
    decreases k
  {
    if k > 0 {
      RemoveOneAt(hs[1..], k - 1);
      assert [hs[0]] + Without(hs[1..], k - 1) == Without(hs, k);
    }
  }

  lemma WithoutAt<T>(s: seq<T>, k: nat)
    requires k < |s| && Distinct(s)
    ensures |Without(s, k)| == |s| - 1 && Distinct(Without(s, k))
    ensures forall i | 0 <= i < |s| - 1 :: Without(s, k)[i] == s[if i < k then i else i + 1] != s[k]
  {}

  // ------------------------------------------------------ on a plain list

  datatype Listener = Listener(index: nat, listenClass: nat)

  datatype Event =
    | Register(tokenOk: bool, listenClass: Option<nat>, remote: Remote?, allocOk: bool, descOk: bool, mgrOk: bool)
    | Unregister(tokenOk: bool, remote: Remote?)

  function IndexOf(ls: seq<Listener>, index: nat): (k: nat)
    ensures k <= |ls|
  {
    if ls == [] || ls[0].index == index then 0 else 1 + IndexOf(ls[1..], index)
  }

  function Stepped(ls: seq<Listener>, e: Event): seq<Listener> {
    match e
    case Register(tokenOk, listenClass, remote, allocOk, descOk, mgrOk) =>
      if tokenOk && listenClass.Some? && remote != null && allocOk && descOk && mgrOk
      then ls + [Listener(remote.index, listenClass.value)]
      else ls
    case Unregister(tokenOk, remote) =>
      if tokenOk && remote != null && IndexOf(ls, remote.index) < |ls|
      then Without(ls, IndexOf(ls, remote.index))
      else ls
  }

  function Played(ls: seq<Listener>, es: seq<Event>): seq<Listener>
    decreases |es|
  {
    if es == [] then ls else Played(Stepped(ls, es[0]), es[1..])
  }

  function View(hs: seq<Holder>): seq<Listener> {
    seq(|hs|, i requires 0 <= i < |hs| => Listener(hs[i].index, hs[i].listenClass))
  }

  lemma {:induction false} SamePosition(hs: seq<Holder>, index: nat)
    ensures IndexOf(View(hs), index) == Oldest(hs, index)
    decreases |hs|
  {
    if hs != [] && hs[0].index != index {
      assert View(hs)[1..] == View(hs[1..]);
      SamePosition(hs[1..], index);
    }
  }

  lemma ViewSnoc(hs: seq<Holder>, h: Holder)
    ensures View(hs + [h]) == View(hs) + [Listener(h.index, h.listenClass)]
  {}

  lemma ViewWithout(hs: seq<Holder>, k: nat)
    requires k < |hs|
    ensures View(Without(hs, k)) == Without(View(hs), k)
  {}

  // ------------------------------------------------------- the two lists

  ghost predicate Whole(h: Holder, r: Remote)
    reads h, r
  {
    h.frees == 0 && h.listenerRemote == r && r.recycles == 0 && r.index == h.index
  }

  /** Every holder is alive, listed once, and has a remote of its own. */
  ghost predicate Matched(hs: seq<Holder>, rs: seq<Remote>)
    reads hs, rs
  {
    && Distinct(hs) && Distinct(rs) && |rs| == |hs|
    && forall i | 0 <= i < |hs| :: Whole(hs[i], rs[i])
  }

  lemma OneLess(hs: seq<Holder>, rs: seq<Remote>, k: nat)
    requires Matched(hs, rs) && k < |hs|
    ensures Matched(Without(hs, k), Without(rs, k)) && Whole(hs[k], rs[k])
    ensures hs[k] !in Without(hs, k) && rs[k] !in Without(rs, k)
  {
    WithoutAt(hs, k);
    WithoutAt(rs, k);
  }

  class Listeners {
    var holders: seq<Holder>      // g_holoderList
    var registered: seq<Holder>   // the manager's listener list
    ghost var remoteOf: seq<Remote>

    ghost predicate AllAlive()
      reads this, holders, remoteOf
    {
      Matched(holders, remoteOf)
    }

    /** The list is, in creation order, what is registered with the manager. */
    ghost predicate Valid()
      reads this, holders, remoteOf
    {
      AllAlive() && holders == registered
    }

    constructor ()
      ensures Valid() && holders == []
    {
      holders, registered, remoteOf := [], [], [];
    }

    /** ServStatListenerHolderGet. */
    method Get(index: nat) returns (h: Holder?)
      ensures h == null <==> Oldest(holders, index) == |holders|
      ensures h != null ==> h == holders[Oldest(holders, index)]
    {
      var i := 0;
      while i < |holders|
        invariant i <= |holders|
        invariant Oldest(holders, index) == i + Oldest(holders[i..], index)
      {
        if holders[i].index == index {
          return holders[i];
        }
        assert holders[i..][1..] == holders[i + 1..];
        i := i + 1;
      }
      return null;
    }

    /** ServStatListenerHolderCreate; `allocOk` and `descOk` answer for the allocator and
        for setting the interface descriptor. */
    method Create(remote: Remote?, listenClass: nat, allocOk: bool, descOk: bool) returns (h: Holder?)
      requires Valid() && (remote != null ==> remote.recycles == 0 && remote !in remoteOf)
      modifies this`holders, this`remoteOf
      ensures AllAlive() && registered == old(registered)
      ensures h == null <==> remote == null || !allocOk || !descOk
      ensures h == null ==> holders == old(holders) && remoteOf == old(remoteOf)
      ensures h != null ==> fresh(h) && h.listenerRemote == remote && h.listenClass == listenClass
      ensures h != null ==> holders == old(holders) + [h] && remoteOf == old(remoteOf) + [remote]
    {
      if remote == null || !allocOk || !descOk {
        return null;
      }
      h := new Holder(remote, listenClass);
      holders, remoteOf := holders + [h], remoteOf + [remote];
    }

    /** A holder that is in no list any more, and its remote. */
    method Dismantle(h: Holder, remote: Remote)
      requires AllAlive() && h !in holders && remote !in remoteOf && Whole(h, remote)
      modifies h, remote
      ensures AllAlive() && h.frees == 1 && h.listenerRemote == null && remote.recycles == 1
    {
      remote.recycles := remote.recycles + 1;
      h.listenerRemote := null;
      h.frees := h.frees + 1;
    }

    /** ServStatListenerHolderRelease; `k` is where the holder is. */
    method Release(h: Holder, ghost k: nat)
      requires AllAlive() && k < |holders| && h == holders[k]
      modifies this`holders, this`remoteOf, h, h.listenerRemote
      ensures AllAlive()
      ensures holders == Without(old(holders), k) && remoteOf == Without(old(remoteOf), k)
      ensures h.frees == 1 && h.listenerRemote == null
      ensures old(remoteOf)[k].recycles == 1
    {
      RemoveOneAt(holders, k);
      OneLess(holders, remoteOf, k);
      holders := RemoveOne(holders, h);
      remoteOf := Without(remoteOf, k);
      Dismantle(h, h.listenerRemote);
    }

    /** The manager's answer `mgrOk` does not show in the result: a refused registration
        is answered with success. */
    method RegisterServListener(tokenOk: bool, listenClass: Option<nat>, remote: Remote?,
                                allocOk: bool, descOk: bool, mgrOk: bool) returns (ret: Status)
      requires Valid() && (remote != null ==> remote.recycles == 0 && remote !in remoteOf)
      modifies this, remote
      ensures Valid()
      ensures ret == if !tokenOk || listenClass.None? || remote == null then InvalidParam
                     else if !allocOk || !descOk then MallocFail else Success
      ensures ret == Success && mgrOk ==>
                |holders| > 0 && remoteOf == old(remoteOf) + [remote]
                && holders[|holders| - 1].listenClass == listenClass.value
                && fresh(holders[|holders| - 1]) && holders == old(holders) + [holders[|holders| - 1]]
      ensures !(ret == Success && mgrOk) ==> holders == old(holders) && remoteOf == old(remoteOf)
      ensures remote != null ==> remote.recycles == if ret == Success && !mgrOk then 1 else 0
    {
      if !tokenOk || listenClass.None? || remote == null {
        return InvalidParam;
      }
      var h := Create(remote, listenClass.value, allocOk, descOk);
      if h == null {
        return MallocFail;
      }
      if mgrOk {
        registered := registered + [h];
      } else {
        Release(h, |holders| - 1);
        assert holders == old(holders);
      }
      return Success;
    }

    /** Unregistering by the index of a fresh handle on the listener. The manager takes the
        holder it is given out of its own list. */
    method UnregisterServListener(tokenOk: bool, remote: Remote?) returns (ret: Status)
      requires Valid() && (remote != null ==> remote.recycles == 0 && remote !in remoteOf)
      modifies this, remote, holders, remoteOf
      ensures Valid()
      ensures ret == if !tokenOk || remote == null then InvalidParam
                     else if Oldest(old(holders), remote.index) == |old(holders)| then InvalidObject
                     else Success
      ensures ret != Success ==> holders == old(holders) && remoteOf == old(remoteOf)
      ensures ret == Success ==>
                var k := Oldest(old(holders), remote.index);
                && holders == Without(old(holders), k) && remoteOf == Without(old(remoteOf), k)
                && old(holders)[k].frees == 1 && old(remoteOf)[k].recycles == 1
      ensures remote != null ==> remote.recycles == if ret == InvalidParam then 0 else 1
    {
      if !tokenOk || remote == null {
        return InvalidParam;
      }
      var h := Get(remote.index);
      if h == null {
        Recycle(remote);
        return InvalidObject;
      }
      ghost var k := Oldest(holders, remote.index);
      RemoveOneAt(registered, k);
      registered := RemoveOne(registered, h);
      OneLess(holders, remoteOf, k);
      Release(h, k);
      Recycle(remote);
      return Success;
    }

    method Recycle(remote: Remote)
      requires Valid() && remote.recycles == 0 && remote !in remoteOf
      modifies remote
      ensures Valid() && remote.recycles == 1
    {
      remote.recycles := remote.recycles + 1;
    }

    /** One event; `rs` holds all remotes there are. */
    method Serve(e: Event, ghost rs: set<Remote>)
      requires Valid() && forall r <- remoteOf :: r in rs
      requires e.remote != null ==> e.remote in rs && e.remote.recycles == 0 && e.remote !in remoteOf
      modifies this, holders, rs
      ensures Valid() && View(holders) == Stepped(old(View(holders)), e)
      ensures forall r <- remoteOf :: r in rs && (r in old(remoteOf) || r == e.remote)
      ensures forall h <- holders :: h in old(holders) || fresh(h)
      ensures forall r <- rs :: r !in old(remoteOf) && r != e.remote ==> unchanged(r)
    {
      match e {
        case Register(tokenOk, listenClass, remote, allocOk, descOk, mgrOk) =>
          ghost var was := holders;
          var ret := RegisterServListener(tokenOk, listenClass, remote, allocOk, descOk, mgrOk);
          if ret == Success && mgrOk {
            assert Whole(holders[|was|], remoteOf[|was|]);
            ViewSnoc(was, holders[|was|]);
          }
        case Unregister(tokenOk, remote) =>
          if remote != null {
            SamePosition(holders, remote.index);
          }
          ghost var was := holders;
          var ret := UnregisterServListener(tokenOk, remote);
          if ret == Success {
            ViewWithout(was, Oldest(was, remote.index));
          }
      }
    }

    /** Any run of requests, each with a handle of its own: both lists are, in creation
        order, what the run makes of a plain list. */
    method Session(es: seq<Event>, ghost rs: set<Remote>)
      requires Valid() && forall r <- remoteOf :: r in rs
      requires forall i | 0 <= i < |es| && es[i].remote != null ::
                 es[i].remote in rs && es[i].remote.recycles == 0 && es[i].remote !in remoteOf
      requires forall i, j | 0 <= i < j < |es| && es[i].remote != null :: es[i].remote != es[j].remote
      modifies this, holders, rs
      ensures Valid() && View(holders) == View(registered) == Played(old(View(holders)), es)
    {
      for i := 0 to |es|
        invariant Valid() && Played(View(holders), es[i..]) == Played(old(View(holders)), es)
        invariant forall r <- remoteOf :: r in rs
        invariant forall k | 0 <= k < |holders| :: holders[k] in old(holders) || fresh(holders[k])
        invariant forall j | i <= j < |es| && es[j].remote != null ::
                    es[j].remote.recycles == 0 && es[j].remote !in remoteOf
      {
        assert es[i..][1..] == es[i + 1..] && es[i..][0] == es[i];
        Serve(es[i], rs);
        assert forall k | 0 <= k < |holders| :: holders[k] in holders;
      }
    }
  }
}
