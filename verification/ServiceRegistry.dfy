/** The device service manager's stub: it wraps every published service in an object it
    owns, files the object under the service's name, and listens for the death of the
    process behind it. The manager underneath is a map from names to objects. */
module ServiceRegistry {
  import opened Common

  datatype Name = Name(text: string)

  datatype Status =
    | Success | Failure | InvalidParam | NoPermission | MallocFail | NoDeviceService | InvalidObject

  /** A remote handle, fresh with every read from a parcel. */
  class Remote {
    var target: ServiceObject?
    var watched: bool     // a death recipient of the stub is attached
    var recycles: nat

    /** Just read from a parcel. */
    predicate Untouched()
      reads this
    {
      target == null && !watched && recycles == 0
    }

    method Watch(o: ServiceObject)
      modifies this
      ensures target == o && watched && recycles == old(recycles)
    {
      target, watched := o, true;
    }
  }

  class ServiceObject {
    var priv: Option<Name>
    var service: Remote?
    var frees: nat

    constructor (name: Name, service: Remote)
      ensures priv == Some(name) && this.service == service && frees == 0
    {
      priv, this.service, frees := Some(name), service, 0;
    }

    /** The object is freed; nobody listens for the death of its remote, which is given back. */
    method Dismantle()
      requires service != null
      modifies this, service
      ensures priv.None? && service == null && frees == old(frees) + 1
      ensures !old(service).watched && old(service).recycles == old(service.recycles) + 1
      ensures old(service).target == old(service.target)
    {
      service.watched := false;
      service.recycles := service.recycles + 1;
      priv := None;
      service := null;
      frees := frees + 1;
    }
  }

  /** What a parcel of an add or update request yields, field by field; None is a failed read. */
  datatype Request = Request(
    tokenOk: bool,
    name: Option<Name>,
    permitted: bool,
    devClass: Option<nat>,
    service: Remote?)

  /** The registrations that are not `remote`'s. */
  function Dropped(registered: map<Name, Remote>, remote: Remote): map<Name, Remote> {
    map n | n in registered && registered[n] != remote :: registered[n]
  }

  class Stub {
    var services: map<Name, ServiceObject>        // the IDevSvcManager underneath
    ghost var owned: map<ServiceObject, Remote>   // made by ObtainServiceObject and not released
    ghost var made: set<ServiceObject>            // all that it ever made
    ghost var known: set<Remote>                  // the remotes it made them for
    ghost var registered: map<Name, Remote>       // the remote that stands under each name
    ghost var foreign: map<Name, ServiceObject>   // the manager's own objects

    /** Every owned object is alive and whole, every other one was freed once. A watched
        remote is held by its target, any other one was given back. */
    ghost predicate Owns()
      reads this`owned, this`made, this`known, made, known
    {
      && owned.Keys <= made && owned.Values <= known
      && (forall o {:trigger Alive(o)} | o in made :: Alive(o))
      && (forall o {:trigger Wired(o)} | o in owned :: Wired(o))
      && (forall r {:trigger Held(r)} | r in known :: Held(r))
    }

    ghost predicate Alive(o: ServiceObject)
      reads this`owned, o
    {
      o.frees == if o in owned then 0 else 1
    }

    ghost predicate Wired(o: ServiceObject)
      requires o in owned
      reads this`owned, o, owned[o]
    {
      o.priv.Some? && o.service == owned[o] && owned[o].target == o && owned[o].watched
    }

    ghost predicate Held(r: Remote)
      reads this`owned, this`made, r, made
    {
      && r.target != null && r.target in made && r.recycles == (if r.watched then 0 else 1)
      && if r.watched then r.target in owned && owned[r.target] == r else r.target.priv.None?
    }

    /** Under every name is an owned object that carries the name and holds the remote, or a
        foreign object, which carries no name. */
    ghost predicate NamesMatch()
      reads this`services, this`registered, this`foreign, this`owned, services.Values
    {
      && services.Keys == registered.Keys + foreign.Keys && registered.Keys !! foreign.Keys
      && (forall n {:trigger Filed(n)} | n in registered :: Filed(n))
      && (forall n {:trigger Strange(n)} | n in foreign :: Strange(n))
    }

    ghost predicate Filed(n: Name)
      requires n in services && n in registered
      reads this`services, this`registered, this`owned, services[n]
    {
      services[n] in owned && owned[services[n]] == registered[n] && services[n].priv == Some(n)
    }

    ghost predicate Strange(n: Name)
      requires n in services && n in foreign
      reads this`services, this`foreign, this`owned, services[n]
    {
      services[n] == foreign[n] && services[n] !in owned && services[n].priv.None?
    }

    /** Every owned object other than `loose` is registered under its name. */
    ghost predicate FiledBut(loose: ServiceObject?)
      requires owned.Keys <= made
      reads this`owned, this`made, this`services, made
    {
      && (forall o {:trigger Listed(o)} | o in owned && o != loose :: Listed(o))
      && loose !in services.Values
    }

    ghost predicate Listed(o: ServiceObject)
      reads this`services, o
    {
      o.priv.Some? && o.priv.value in services && services[o.priv.value] == o
    }

    ghost predicate ValidBut(loose: ServiceObject?)
      reads this, made, known, services.Values
    {
      Owns() && NamesMatch() && FiledBut(loose)
    }

    ghost predicate Valid()
      reads this, made, known, services.Values
    {
      ValidBut(null)
    }

    constructor ()
      ensures Valid() && registered == map[] && foreign == map[] && made == {} && known == {}
    {
      services, owned, made, known := map[], map[], {}, {};
      registered, foreign := map[], map[];
    }

    /** What a request about `name` may touch besides the stub. */
    ghost function Entry(name: Option<Name>): set<object?>
      reads this, services.Values
    {
      if name.Some? && name.value in services && services[name.value].priv.Some?
      then {services[name.value], services[name.value].service} else {}
    }

    method MakeServiceObject(name: Name, service: Remote) returns (o: ServiceObject)
      requires Valid() && service.Untouched() && service !in known
      modifies service, this`owned, this`made, this`known
      ensures ValidBut(o) && fresh(o) && o.priv == Some(name) && o.service == service && made == old(made) + {o}
      ensures owned == old(owned)[o := service] && known == old(known) + {service}
    {
      o := new ServiceObject(name, service);
      service.Watch(o);
      Adopt(o, service);
    }

    /** A new object and its remote are counted among those of the stub. */
    ghost method Adopt(o: ServiceObject, service: Remote)
      requires Valid() && o !in made && o.priv.Some? && o.frees == 0 && o.service == service && service !in known
      requires service.target == o && service.watched && service.recycles == 0 && o !in services.Values
      modifies this`owned, this`made, this`known
      ensures ValidBut(o) && made == old(made) + {o}
      ensures owned == old(owned)[o := service] && known == old(known) + {service}
    {
      owned := owned[o := service];
      made, known := made + {o}, known + {service};
      forall x <- made
        ensures Alive(x)
      {
        assert x == o || old(Alive(x));
      }
      forall x <- owned
        ensures Wired(x) && (x != o ==> Listed(x))
      {
        assert x == o || (old(Wired(x)) && old(Listed(x)));
      }
      forall r <- known
        ensures Held(r)
      {
        assert r == service || old(Held(r));
      }
      forall n <- registered
        ensures Filed(n)
      {
        assert old(Filed(n));
      }
      forall n <- foreign
        ensures Strange(n)
      {
        assert old(Strange(n));
      }
    }

    /** `allocOk` is the answer of the memory allocator. */
    method ObtainServiceObject(name: Name, service: Remote, allocOk: bool) returns (o: ServiceObject?)
      requires Valid() && service.Untouched() && service !in known
      modifies service, this`owned, this`made, this`known
      ensures o == null <==> !allocOk
      ensures o == null ==> unchanged(this) && unchanged(service)
      ensures ValidBut(o) && (forall x <- made :: x in old(made) || fresh(x))
      ensures o != null ==> fresh(o) && o.priv == Some(name) && o.service == service
      ensures o != null ==>
                && owned == old(owned)[o := service] && made == old(made) + {o}
                && known == old(known) + {service}
    {
      if !allocOk {
        return null;
      }
      o := MakeServiceObject(name, service);
    }

    /** Releases an owned object that is not registered (any more), or leaves a foreign one alone. */
    method ReleaseServiceObject(o: ServiceObject?)
      requires ValidBut(if o != null && o.priv.Some? then o else null)
      requires o != null && o.priv.Some? ==> o in owned
      modifies this`owned, if o == null || o.priv.None? then {} else {o, o.service}
      ensures Valid()
      ensures o == null || old(o.priv.None?) ==> unchanged(this) && (o != null ==> unchanged(o))
      ensures o != null && old(o.priv.Some?) ==>
                && o.frees == 1 && o.priv.None? && o.service == null && owned == old(owned) - {o}
                && old(o.service) != null && old(o.service).recycles == 1 && !old(o.service).watched
    {
      if o == null {
        return;
      }
      if o.priv.None? {
        return;
      }
      ghost var remote := o.service;
      assert Alive(o) && Wired(o) && Held(remote);
      o.Dismantle();
      owned := owned - {o};
      forall x <- made
        ensures Alive(x)
      {
        assert old(Alive(x));
      }
      forall x <- owned
        ensures Wired(x) && Listed(x)
      {
        assert old(Wired(x)) && old(Listed(x));
      }
      forall r <- known
        ensures Held(r)
      {
        assert r == remote || old(Held(r));
      }
      forall n <- registered
        ensures Filed(n)
      {
        assert old(Filed(n));
      }
      forall n <- foreign
        ensures Strange(n)
      {
        assert old(Strange(n));
      }
    }

    /** The manager files `o` under its name, in place of `oldObject`. */
    method FileUnder(name: Name, o: ServiceObject) returns (oldObject: ServiceObject?)
      requires ValidBut(o) && o in owned && o.priv == Some(name)
      modifies this`services, this`registered, this`foreign
      ensures oldObject == if name in old(services) then old(services)[name] else null
      ensures ValidBut(if oldObject != null && oldObject.priv.Some? then oldObject else null)
      ensures oldObject != null && oldObject.priv.Some? ==> oldObject in owned
      ensures registered == old(registered)[name := owned[o]] && foreign == old(foreign) - {name}
    {
      oldObject := if name in services then services[name] else null;
      ghost var loose := if oldObject != null && oldObject.priv.Some? then oldObject else null;
      var filed := services[name := o];
      ghost var r, f := registered[name := owned[o]], foreign - {name};
      NamesAfterFiling(name, o, filed, r, f);
      ListedAfterFiling(name, o, filed, loose);
      Install(filed, r, f, loose);
    }

    method Install(s: map<Name, ServiceObject>, ghost r: map<Name, Remote>, ghost f: map<Name, ServiceObject>,
                   ghost loose: ServiceObject?)
      requires Owns() && s.Keys == r.Keys + f.Keys && r.Keys !! f.Keys && loose !in s.Values
      requires forall n <- r :: s[n] in owned && owned[s[n]] == r[n] && s[n].priv == Some(n)
      requires forall n <- f :: s[n] == f[n] && s[n] !in owned && s[n].priv.None?
      requires forall x <- owned :: x != loose ==> x.priv.Some? && x.priv.value in s && s[x.priv.value] == x
      modifies this`services, this`registered, this`foreign
      ensures ValidBut(loose) && services == s && registered == r && foreign == f
    {
      services, registered, foreign := s, r, f;
    }

    /** What every name will stand for when `o` is filed. */
    lemma NamesAfterFiling(name: Name, o: ServiceObject, s: map<Name, ServiceObject>, r: map<Name, Remote>,
                           f: map<Name, ServiceObject>)
      requires ValidBut(o) && o in owned && o.priv == Some(name)
      requires s == services[name := o] && r == registered[name := owned[o]] && f == foreign - {name}
      ensures s.Keys == r.Keys + f.Keys && r.Keys !! f.Keys
      ensures forall n <- r :: s[n] in owned && owned[s[n]] == r[n] && s[n].priv == Some(n)
      ensures forall n <- f :: s[n] == f[n] && s[n] !in owned && s[n].priv.None?
    {
      forall n <- r
        ensures n != name ==> Filed(n)
      {}
      forall n <- f
        ensures Strange(n)
      {}
    }

    /** And which object will be under no name. */
    lemma ListedAfterFiling(name: Name, o: ServiceObject, s: map<Name, ServiceObject>, loose: ServiceObject?)
      requires ValidBut(o) && o in owned && o.priv == Some(name) && s == services[name := o]
      requires loose == if name in services && services[name].priv.Some? then services[name] else null
      ensures (loose != null ==> loose in owned) && loose !in s.Values
      ensures forall x <- owned :: x != loose ==> x.priv.Some? && x.priv.value in s && s[x.priv.value] == x
    {
      assert name in registered ==> Filed(name);
      assert name in foreign ==> Strange(name);
      forall x <- owned | x != o
        ensures Listed(x)
      {}
      forall n <- services
        ensures if n in registered then Filed(n) else Strange(n)
      {}
    }

    method Refile(name: Name, o: ServiceObject)
      requires ValidBut(o) && o in owned && o.priv == Some(name)
      modifies this`services, this`registered, this`foreign, this`owned, Entry(Some(name))
      ensures Valid() && made == old(made) && known == old(known)
      ensures registered == old(registered)[name := old(owned)[o]] && foreign == old(foreign) - {name}
    {
      var oldObject := FileUnder(name, o);
      ReleaseServiceObject(oldObject);
    }

    /** The manager's answer: refused, the new object is released; otherwise it is filed. */
    method Settle(name: Name, o: ServiceObject, mgr: Status)
      requires ValidBut(o) && o in owned && o.priv == Some(name)
      modifies this`services, this`registered, this`foreign, this`owned, o, o.service, Entry(Some(name))
      ensures Valid() && made == old(made) && known == old(known)
      ensures registered == if mgr == Success then old(registered)[name := old(owned)[o]] else old(registered)
      ensures foreign == if mgr == Success then old(foreign) - {name} else old(foreign)
      ensures mgr != Success ==> old(owned)[o].recycles == 1 && !old(owned)[o].watched
    {
      assert Wired(o);
      if mgr != Success {
        ReleaseServiceObject(o);
      } else {
        Refile(name, o);
      }
    }

    /** The common end of add and update; `mgr` is what the manager answers, and it files
        the object when it succeeds. */
    method Publish(name: Name, service: Remote, allocOk: bool, mgr: Status) returns (ret: Status)
      requires Valid() && service.Untouched() && service !in known
      modifies this, service, Entry(Some(name))
      ensures Valid() && (forall x <- made :: x in old(made) || fresh(x))
      ensures ret == if !allocOk then MallocFail else mgr
      ensures if allocOk then known == old(known) + {service} else unchanged(this) && unchanged(service)
      ensures registered == if allocOk && mgr == Success then old(registered)[name := service] else old(registered)
      ensures foreign == if allocOk && mgr == Success then old(foreign) - {name} else old(foreign)
      ensures allocOk && mgr != Success ==> service.recycles == 1 && !service.watched
    {
      var o := ObtainServiceObject(name, service, allocOk);
      if o == null {
        return MallocFail;
      }
      assert known == old(known) + {service} && forall x <- made :: x in old(made) || x == o;
      Settle(name, o, mgr);
      return mgr;
    }

    /** The service stands under the name from now on exactly if all of the request can be
        read, it is permitted, there is memory and the manager agrees. An unreadable device
        class and a missing remote are answered with the result of the permission check,
        which is success. */
    method AddService(r: Request, allocOk: bool, mgr: Status) returns (ret: Status)
      requires Valid()
      requires r.service != null ==> r.service.Untouched() && r.service !in known
      modifies this, r.service, Entry(r.name)
      ensures Valid() && (forall x <- made :: x in old(made) || fresh(x))
      ensures ret == if !r.tokenOk then InvalidParam
                     else if r.name.None? then Failure
                     else if !r.permitted then NoPermission
                     else if r.devClass.None? || r.service == null then Success
                     else if !allocOk then MallocFail
                     else mgr
      ensures if r.tokenOk && r.name.Some? && r.permitted && r.devClass.Some? && r.service != null && allocOk then
                && known == old(known) + {r.service}
                && registered == (if mgr != Success then old(registered)
                                  else old(registered)[r.name.value := r.service])
                && foreign == (if mgr == Success then old(foreign) - {r.name.value} else old(foreign))
                && (mgr != Success ==> r.service.recycles == 1 && !r.service.watched)
              else unchanged(this) && (r.service != null ==> unchanged(r.service))
    {
      if !r.tokenOk {
        return InvalidParam;
      }
      if r.name.None? {
        return Failure;
      }
      if !r.permitted {
        return NoPermission;
      }
      if r.devClass.None? {
        return Success;
      }
      if r.service == null {
        return Success;
      }
      ret := Publish(r.name.value, r.service, allocOk, mgr);
    }

    /** As AddService, but only over an existing registration. */
    method UpdateService(r: Request, allocOk: bool, mgr: Status) returns (ret: Status)
      requires Valid()
      requires r.service != null ==> r.service.Untouched() && r.service !in known
      modifies this, r.service, Entry(r.name)
      ensures Valid() && (forall x <- made :: x in old(made) || fresh(x))
      ensures ret == if !r.tokenOk then InvalidParam
                     else if r.name.None? then Failure
                     else if !r.permitted then NoPermission
                     else if r.devClass.None? || r.service == null then Success
                     else if r.name.value !in old(registered) && r.name.value !in old(foreign) then NoDeviceService
                     else if !allocOk then MallocFail
                     else mgr
      ensures if && r.tokenOk && r.name.Some? && r.permitted && r.devClass.Some? && r.service != null && allocOk
                 && (r.name.value in old(registered) || r.name.value in old(foreign)) then
                && known == old(known) + {r.service}
                && registered == (if mgr != Success then old(registered)
                                  else old(registered)[r.name.value := r.service])
                && foreign == (if mgr == Success then old(foreign) - {r.name.value} else old(foreign))
                && (mgr != Success ==> r.service.recycles == 1 && !r.service.watched)
              else unchanged(this) && (r.service != null ==> unchanged(r.service))
    {
      if !r.tokenOk {
        return InvalidParam;
      }
      if r.name.None? {
        return Failure;
      }
      if !r.permitted {
        return NoPermission;
      }
      if r.devClass.None? {
        return Success;
      }
      if r.service == null {
        return Success;
      }
      if r.name.value !in services {
        return NoDeviceService;
      }
      ret := Publish(r.name.value, r.service, allocOk, mgr);
    }

    /** `permitted` and the fields of the request as above. */
    method RemoveService(tokenOk: bool, name: Option<Name>, permitted: bool) returns (ret: Status)
      requires Valid()
      modifies this, Entry(name)
      ensures Valid() && made == old(made) && known == old(known) && foreign == old(foreign)
      ensures ret == if !tokenOk then InvalidParam
                     else if name.None? then Failure
                     else if !permitted then NoPermission
                     else if name.value in old(registered) then Success
                     else if name.value in old(foreign) then InvalidObject
                     else NoDeviceService
      ensures registered == if ret == Success then old(registered) - {name.value} else old(registered)
    {
      if !tokenOk {
        return InvalidParam;
      }
      if name.None? {
        return Failure;
      }
      if !permitted {
        return NoPermission;
      }
      if name.value !in services {
        return NoDeviceService;
      }
      var o := services[name.value];
      assert if name.value in registered then Filed(name.value) else Strange(name.value);
      if o.priv.None? {
        return InvalidObject;
      }
      if name.value != o.priv.value {
        return InvalidObject;
      }
      Unregister(name.value, o);
      ReleaseServiceObject(o);
      return Success;
    }

    /** The manager drops the name. */
    method Unregister(name: Name, ghost o: ServiceObject)
      requires Valid() && name in registered && services[name] == o
      modifies this`services, this`registered
      ensures ValidBut(o) && registered == old(registered) - {name}
    {
      assert Filed(name);
      services, registered := services - {name}, registered - {name};
      forall x <- owned | x != o
        ensures Listed(x)
      {
        assert old(Listed(x));
      }
      forall n <- registered
        ensures Filed(n) && services[n] != o
      {
        assert old(Filed(n));
      }
      forall n <- foreign
        ensures Strange(n) && services[n] != o
      {
        assert old(Strange(n));
      }
    }

    /** A registration for `remote` is its target, under the target's name. */
    lemma StandsForTarget(remote: Remote, n: Name)
      requires Valid() && n in registered && registered[n] == remote
      ensures remote.watched && remote.target == services[n] && services[n].priv == Some(n)
    {
      assert Filed(n) && Wired(services[n]);
    }

    /** So a death takes out at most one registration. */
    lemma DeathOf(remote: Remote)
      requires Valid() && (remote in known || remote.Untouched())
      ensures var o := remote.target;
              if o == null || o.priv.None? then Dropped(registered, remote) == registered
              else
                && o in owned && o.service == remote
                && o.priv.value in registered && services[o.priv.value] == o
                && Dropped(registered, remote) == registered - {o.priv.value}
    {
      var o := remote.target;
      forall n <- registered | registered[n] == remote
        ensures o != null && o.priv == Some(n)
      {
        StandsForTarget(remote, n);
      }
      if o != null && o.priv.Some? {
        assert Held(remote);
        assert Wired(o) && Listed(o);
        var n := o.priv.value;
        assert n in foreign ==> Strange(n);
        assert Filed(n);
      }
    }

    /** The process behind `remote` died. */
    method OnServiceDied(remote: Remote)
      requires Valid() && (remote in known || remote.Untouched())
      modifies this, if remote.target == null || remote.target.priv.None? then {} else {remote, remote.target}
      ensures Valid() && made == old(made) && known == old(known) && foreign == old(foreign)
      ensures registered == Dropped(old(registered), remote)
    {
      var o := remote.target;
      DeathOf(remote);
      if o == null || o.priv.None? {
        return;
      }
      var serviceName := o.priv.value;
      var service := if serviceName in services then services[serviceName].service else null;
      if service == remote {
        Unregister(serviceName, o);
      }
      ReleaseServiceObject(o);
    }

    /** The live objects the stub made are exactly those registered, each once. */
    lemma LiveAreRegistered(o: ServiceObject)
      requires Valid() && o in made
      ensures o.frees == 0 <==> exists n <- registered :: services[n] == o
      ensures o.frees <= 1
    {
      assert Alive(o);
      if o in owned {
        assert Listed(o);
        assert o.priv.value in foreign ==> Strange(o.priv.value);
      }
      forall n <- registered
        ensures services[n] in owned
      {
        assert Filed(n);
      }
    }

    /** A remote that stands for nothing any more was given back once, and is not watched. */
    lemma RestIsGivenBack(r: Remote)
      requires Valid() && r in known
      ensures r in registered.Values ==> r.recycles == 0 && r.watched
      ensures r !in registered.Values ==> r.recycles == 1 && !r.watched
    {
      assert Held(r);
      if r.watched {
        assert Wired(r.target) && Listed(r.target);
        var n := r.target.priv.value;
        assert n in foreign ==> Strange(n);
        assert Filed(n) && registered[n] == r;
      }
      forall n <- registered
        ensures registered[n] == r ==> r.watched
      {
        if registered[n] == r {
          StandsForTarget(r, n);
        }
      }
    }

    ghost function View(): Ledger
      reads this
    {
      Ledger(registered, foreign.Keys)
    }

    ghost predicate KnownOrUntouched(r: Remote)
      reads this`known, r
    {
      r in known || r.Untouched()
    }

    /** The service of an add or update is new. */
    ghost predicate Fresh(e: Event)
      reads this`known
    {
      forall r <- Published(e) :: r !in known
    }

    ghost function Touched(e: Event): set<object?>
      reads this, services.Values, Handle(e), set r | r in Handle(e) :: r.target
    {
      match e
      case Add(r, _, _) => {r.service} + Entry(r.name)
      case Update(r, _, _) => {r.service} + Entry(r.name)
      case Remove(_, name, _) => Entry(name)
      case Die(remote) => if remote.target == null || remote.target.priv.None? then {} else {remote, remote.target}
    }

    /** An event touches no remote but its own and known ones. */
    lemma TouchesOwn(e: Event, r: Remote)
      requires Valid() && r !in known && r !in Handle(e)
      ensures r !in Touched(e)
    {
      var name := if e.Add? || e.Update? then e.r.name else if e.Remove? then e.name else None;
      if name.Some? && name.value in services {
        assert if name.value in registered then Filed(name.value) && Wired(services[name.value])
               else Strange(name.value);
      }
    }

    method ServePublish(e: Event, ghost rs: set<Remote>)
      requires e.Add? || e.Update?
      requires Valid() && Fresh(e) && Handle(e) <= rs && forall r <- rs :: KnownOrUntouched(r)
      modifies this, Touched(e)
      ensures Valid() && (forall x <- made :: x in old(made) || fresh(x)) && View() == Stepped(old(View()), e)
      ensures known == old(known) + Obtained(old(View()), e) && forall r <- rs :: KnownOrUntouched(r)
    {
      forall r <- rs | r !in known && r !in Handle(e)
        ensures r !in Touched(e)
      {
        TouchesOwn(e, r);
      }
      if e.Add? {
        var _ := AddService(e.r, e.allocOk, e.mgr);
      } else {
        var _ := UpdateService(e.r, e.allocOk, e.mgr);
      }
    }

    /** One event; `rs` are remotes that come with this or later events. */
    method Serve(e: Event, ghost rs: set<Remote>)
      requires Valid() && Fresh(e) && Handle(e) <= rs && forall r <- rs :: KnownOrUntouched(r)
      modifies this, Touched(e)
      ensures Valid() && (forall x <- made :: x in old(made) || fresh(x)) && View() == Stepped(old(View()), e)
      ensures known == old(known) + Obtained(old(View()), e) && forall r <- rs :: KnownOrUntouched(r)
    {
      if e.Add? || e.Update? {
        ServePublish(e, rs);
        return;
      }
      forall r <- rs | r !in known && r !in Handle(e)
        ensures r !in Touched(e)
      {
        TouchesOwn(e, r);
      }
      if e.Remove? {
        var _ := RemoveService(e.tokenOk, e.name, e.permitted);
      } else {
        OnServiceDied(e.remote);
      }
    }

    lemma TouchesOwned(e: Event)
      requires Valid() && forall r <- Handle(e) :: KnownOrUntouched(r)
      ensures forall x <- Touched(e) :: x == null || x in made || x in known || x in Handle(e)
    {
      var name := if e.Add? || e.Update? then e.r.name else if e.Remove? then e.name else None;
      if name.Some? && name.value in services {
        assert if name.value in registered then Filed(name.value) && Wired(services[name.value])
               else Strange(name.value);
      }
      if e.Die? && e.remote in known {
        assert Held(e.remote);
      }
    }

    /** Any run of requests and deaths, whatever the manager and the allocator answer: the
        registry is what the run makes of a plain map, and by LiveAreRegistered and
        RestIsGivenBack nothing is left over and nothing released twice. */
    method Session(es: seq<Event>, ghost rs: set<Remote>)
      requires Valid() && forall r <- rs :: KnownOrUntouched(r)
      requires forall e <- es :: Handle(e) <= rs && Fresh(e)
      requires forall i, j | 0 <= i < j < |es| :: Published(es[i]) !! Published(es[j])
      modifies this, rs, made, known
      ensures Valid() && View() == Served(old(View()), es)
    {
      for i := 0 to |es|
        invariant Valid() && (forall x <- made :: x in old(made) || fresh(x)) && known <= old(known) + rs
        invariant Served(View(), es[i..]) == Served(old(View()), es)
        invariant forall r <- rs :: KnownOrUntouched(r)
        invariant forall j | i <= j < |es| :: Fresh(es[j])
      {
        assert es[i..][1..] == es[i + 1..] && es[i..][0] == es[i];
        assert es[i] in es;
        TouchesOwned(es[i]);
        Serve(es[i], rs);
      }
    }
  }

  // ------------------------------------------------------- on plain maps

  datatype Event =
    | Add(r: Request, allocOk: bool, mgr: Status)
    | Update(r: Request, allocOk: bool, mgr: Status)
    | Remove(tokenOk: bool, name: Option<Name>, permitted: bool)
    | Die(remote: Remote)

  /** Which remote stands under which name, and which names are the manager's own. */
  datatype Ledger = Ledger(registered: map<Name, Remote>, foreign: set<Name>)

  /** The remote that comes with an event. */
  function Handle(e: Event): set<Remote> {
    match e
    case Add(r, _, _) => if r.service == null then {} else {r.service}
    case Update(r, _, _) => if r.service == null then {} else {r.service}
    case Remove(_, _, _) => {}
    case Die(remote) => {remote}
  }

  /** The service it publishes. */
  function Published(e: Event): set<Remote> {
    if e.Die? then {} else Handle(e)
  }

  /** All of the request can be read, and it is permitted. */
  predicate Complete(r: Request) {
    r.tokenOk && r.name.Some? && r.permitted && r.devClass.Some? && r.service != null
  }

  /** An object is made for the service of an add or update. */
  predicate Obtains(l: Ledger, e: Event) {
    match e
    case Add(r, allocOk, _) => Complete(r) && allocOk
    case Update(r, allocOk, _) =>
      Complete(r) && allocOk && (r.name.value in l.registered || r.name.value in l.foreign)
    case _ => false
  }

  function Obtained(l: Ledger, e: Event): set<Remote> {
    if Obtains(l, e) then Handle(e) else {}
  }

  function Stepped(l: Ledger, e: Event): Ledger {
    match e
    case Add(r, _, mgr) =>
      if Obtains(l, e) && mgr == Success then
        Ledger(l.registered[r.name.value := r.service], l.foreign - {r.name.value})
      else l
    case Update(r, _, mgr) =>
      if Obtains(l, e) && mgr == Success then
        Ledger(l.registered[r.name.value := r.service], l.foreign - {r.name.value})
      else l
    case Remove(tokenOk, name, permitted) =>
      if tokenOk && name.Some? && permitted then l.(registered := l.registered - {name.value}) else l
    case Die(remote) => l.(registered := Dropped(l.registered, remote))
  }

  function Served(l: Ledger, es: seq<Event>): Ledger
    decreases |es|
  {
    if es == [] then l else Served(Stepped(l, es[0]), es[1..])
  }

  /** The remote that an event puts under a name. */
  predicate Puts(l: Ledger, e: Event, n: Name, x: Remote) {
    && (e.Add? || e.Update?) && e.r.tokenOk && e.r.name == Some(n) && e.r.permitted && e.r.devClass.Some?
    && e.r.service == x && e.allocOk && e.mgr == Success
    && (e.Update? ==> n in l.registered || n in l.foreign)
  }

  /** It takes `x` away from the name, for another remote, on request, or with its death. */
  predicate Takes(l: Ledger, e: Event, n: Name, x: Remote) {
    || ((e.Add? || e.Update?) && e.r.service != null && e.r.service != x && Puts(l, e, n, e.r.service))
    || (e.Remove? && e.tokenOk && e.permitted && e.name == Some(n))
    || (e.Die? && e.remote == x)
  }

  predicate Stands(l: Ledger, n: Name, x: Remote) {
    n in l.registered && l.registered[n] == x
  }

  lemma OneEvent(l: Ledger, e: Event, n: Name, x: Remote)
    ensures Stands(Stepped(l, e), n, x) <==> Puts(l, e, n, x) || (Stands(l, n, x) && !Takes(l, e, n, x))
  {}

  lemma {:induction false} LastServed(l: Ledger, es: seq<Event>)
    requires es != []
    ensures Served(l, es) == Stepped(Served(l, es[..|es| - 1]), es[|es| - 1])
    decreases |es|
  {
    if |es| > 1 {
      LastServed(Stepped(l, es[0]), es[1..]);
      var front := es[..|es| - 1];
      assert front[0] == es[0] && front[1..] == es[1..][..|es[1..]| - 1];
    }
  }

  /** The i-th event of a run puts `x` under the name, and none takes it away again. */
  ghost predicate PutFor(l: Ledger, es: seq<Event>, i: nat, n: Name, x: Remote)
    requires i < |es|
  {
    && Puts(Served(l, es[..i]), es[i], n, x)
    && forall j | i < j < |es| :: !Takes(Served(l, es[..j]), es[j], n, x)
  }

  /** Over any run: a remote stands under a name exactly when some request put it there and
      nothing took it away since, or it stood there before and nothing did. */
  lemma {:induction false} StandsIff(l: Ledger, es: seq<Event>, n: Name, x: Remote)
    ensures Stands(Served(l, es), n, x) <==>
              || (exists i | 0 <= i < |es| :: PutFor(l, es, i, n, x))
              || (Stands(l, n, x) && forall j | 0 <= j < |es| :: !Takes(Served(l, es[..j]), es[j], n, x))
    decreases |es|
  {
    if es != [] {
      var k := |es| - 1;
      var front := es[..k];
      assert forall i | 0 <= i <= k :: front[..i] == es[..i];
      LastServed(l, es);
      OneEvent(Served(l, front), es[k], n, x);
      StandsIff(l, front, n, x);
      forall i | 0 <= i < k
        ensures PutFor(l, es, i, n, x) <==> PutFor(l, front, i, n, x) && !Takes(Served(l, front), es[k], n, x)
      {}
      assert PutFor(l, es, k, n, x) <==> Puts(Served(l, front), es[k], n, x);
    }
  }
}
