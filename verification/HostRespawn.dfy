/** What the device manager does when a driver host dies: clean its record up and, unless
    the host died too often in a row, have it started again. */
module HostRespawn {
  import opened Common

  const INVALID_PID := -1
  const HOST_INIT_DIE_NUM := 1
  const HOST_MAX_DIE_NUM := 3

  // --------------------------------------------------- the counter of one host

  /** What a death that counts does to the stored number: the new number, and whether a
      restart follows. */
  function Counted(stored: Option<int>): (int, bool) {
    match stored
    case None => (HOST_INIT_DIE_NUM, true)
    case Some(v) => if v > HOST_MAX_DIE_NUM then (0, false) else (v + 1, true)
  }

  /** The stored number and the restarts after n deaths that count. */
  function AfterDeaths(n: nat): (Option<int>, nat) {
    if n == 0 then (None, 0)
    else
      var (stored, restarts) := AfterDeaths(n - 1);
      var (v, again) := Counted(stored);
      (Some(v), if again then restarts + 1 else restarts)
  }

  function Number(stored: Option<int>): int {
    if stored.Some? then stored.value else 0
  }

  /** Four restarts out of every five deaths, for ever. */
  lemma {:induction false} FourOfFive(n: nat)
    ensures Number(AfterDeaths(n).0) == n % 5
    ensures AfterDeaths(n).1 == n - n / 5
    ensures AfterDeaths(n).0 == None <==> n == 0
  {
    if n != 0 {
      FourOfFive(n - 1);
    }
  }

  // --------------------------------------------------------------- the manager

  class HostClnt {
    const hostId: nat
    const hostName: string
    var hostPid: int
    var hasService: bool
    var devices: seq<nat>
    var unloadDevInfos: seq<nat>
    var stopFlag: bool

    constructor (hostId: nat, hostName: string)
      ensures this.hostId == hostId && this.hostName == hostName
    {
      this.hostId, this.hostName := hostId, hostName;
    }

    /** A death of this host counts. */
    predicate Counts()
      reads this
    {
      devices != [] && !stopFlag && unloadDevInfos == []
    }
  }

  class DevmgrServiceFull {
    var hosts: seq<HostClnt>
    var hostMap: map<string, int>
    ghost var deaths: map<string, nat>     // deaths that counted, by host name
    ghost var restarts: map<string, nat>   // times the installer was turned to

    ghost function Stored(name: string): Option<int>
      reads this
    {
      if name in hostMap then Some(hostMap[name]) else None
    }

    ghost function Deaths(name: string): nat
      reads this
    {
      if name in deaths then deaths[name] else 0
    }

    ghost function Restarts(name: string): nat
      reads this
    {
      if name in restarts then restarts[name] else 0
    }

    ghost predicate Throttled(name: string)
      reads this
    {
      Stored(name) == AfterDeaths(Deaths(name)).0 && Restarts(name) == AfterDeaths(Deaths(name)).1
    }

    /** The throttle of every host, whatever happened to the other hosts. */
    ghost predicate Valid()
      reads this
    {
      forall name :: Throttled(name)
    }

    constructor (hosts: seq<HostClnt>)
      ensures Valid() && this.hosts == hosts
    {
      this.hosts := hosts;
      hostMap, deaths, restarts := map[], map[], map[];
    }

    method CleanupDiedHostResources(h: HostClnt)
      modifies h
      ensures h.hostPid == INVALID_PID && !h.hasService && h.devices == []
      ensures h.stopFlag == old(h.stopFlag) && h.unloadDevInfos == old(h.unloadDevInfos)
    {
      h.hostPid := INVALID_PID;
      if h.hasService {
        h.hasService := false;
      }
      h.devices := [];
    }

    /** One host's throttle moved on, the others stayed. */
    twostate lemma CountedWell(name: string)
      requires old(Valid()) && Throttled(name)
      requires forall n :: n != name ==>
                 Stored(n) == old(Stored(n)) && Restarts(n) == old(Restarts(n)) && Deaths(n) == old(Deaths(n))
      ensures Valid()
    {
      forall n
        ensures Throttled(n)
      {
        assert n != name ==> old(Throttled(n));
      }
    }

    /** The counting part of HandleDeviceHostDied; `again` is whether a restart follows. */
    method CountDeath(name: string) returns (again: bool)
      requires Valid()
      modifies this`hostMap, this`deaths, this`restarts
      ensures Valid()
      ensures deaths == old(deaths)[name := old(Deaths(name)) + 1]
      ensures forall n :: n != name ==> Stored(n) == old(Stored(n)) && Restarts(n) == old(Restarts(n))
      ensures again <==> Deaths(name) % 5 != 0
    {
      ghost var d := Deaths(name);
      assert Throttled(name);
      FourOfFive(d);
      FourOfFive(d + 1);
      deaths := deaths[name := d + 1];
      if name !in hostMap {
        hostMap := hostMap[name := HOST_INIT_DIE_NUM];
      } else {
        if hostMap[name] > HOST_MAX_DIE_NUM {
          hostMap := hostMap[name := 0];
          CountedWell(name);
          return false;
        }
        hostMap := hostMap[name := hostMap[name] + 1];
      }
      restarts := restarts[name := Restarts(name) + 1];
      CountedWell(name);
      return true;
    }

    /** `start` is what the installer's StartDeviceHost answers; None when there is no installer. */
    method HandleDeviceHostDied(h: HostClnt, start: Option<int>) returns (ret: int, ghost started: bool)
      requires Valid()
      modifies h, this`hostMap, this`deaths, this`restarts
      ensures Valid()
      ensures h.devices == [] && !h.hasService
      ensures h.stopFlag == old(h.stopFlag) && h.unloadDevInfos == old(h.unloadDevInfos)
      ensures old(h.devices == [] || h.stopFlag || h.unloadDevInfos != []) ==>
                ret == 0 && !started && unchanged(this) && h.hostPid == INVALID_PID
      ensures old(h.devices != [] && !h.stopFlag && h.unloadDevInfos == []) ==>
                && deaths == old(deaths)[h.hostName := old(Deaths(h.hostName)) + 1]
                && (forall n :: n != h.hostName ==> Stored(n) == old(Stored(n)) && Restarts(n) == old(Restarts(n)))
                && (started <==> start.Some? && Deaths(h.hostName) % 5 != 0)
                && ret == h.hostPid == if started then start.value else INVALID_PID
    {
      var isHostEmpty := h.devices == [];
      CleanupDiedHostResources(h);
      started := false;
      if isHostEmpty || h.stopFlag {
        return 0, false;
      }
      if h.unloadDevInfos != [] {
        return 0, false;
      }
      var again := CountDeath(h.hostName);
      if !again {
        h.stopFlag := false;
        return INVALID_PID, false;
      }
      if start.Some? {
        h.hostPid := start.value;
        return h.hostPid, true;
      }
      return INVALID_PID, false;
    }

    /** Only the first host with that id is touched. */
    method OnDeviceHostDied(hostId: nat, start: Option<int>) returns (ghost found: nat)
      requires Valid()
      modifies this`hostMap, this`deaths, this`restarts, hosts
      ensures Valid()
      ensures found <= |hosts| && forall i | 0 <= i < found :: hosts[i].hostId != hostId
      ensures found < |hosts| ==> hosts[found].hostId == hostId && hosts[found].devices == []
      ensures forall h <- hosts :: (found < |hosts| ==> h != hosts[found]) ==> unchanged(h)
      ensures if found < |hosts| && old(hosts[found].Counts())
              then deaths == old(deaths)[hosts[found].hostName := old(Deaths(hosts[found].hostName)) + 1]
              else deaths == old(deaths) && hostMap == old(hostMap)
      ensures found < |hosts| ==>
                var h := hosts[found];
                && h.hostPid == (if old(h.Counts()) && start.Some? && Deaths(h.hostName) % 5 != 0 then start.value
                                 else INVALID_PID)
                && forall n :: n != h.hostName ==> Stored(n) == old(Stored(n)) && Restarts(n) == old(Restarts(n))
    {
      found := |hosts|;
      for i := 0 to |hosts|
        invariant unchanged(this) && forall h <- hosts :: unchanged(h)
        invariant found == |hosts| && forall j | 0 <= j < i :: hosts[j].hostId != hostId
      {
        if hosts[i].hostId == hostId {
          found := i;
          var ret, _ := HandleDeviceHostDied(hosts[i], start);
          break;
        }
      }
    }
  }
}
