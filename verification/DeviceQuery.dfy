/** The query for usable or unusable devices: the device manager writes the reply, the
    client reads it into a list. */
module DeviceQuery {
  import opened Parcel

  datatype Status = Success | Failure

  datatype Policy = NoPolicy | Public | Capacity | Friendly | Private

  datatype DeviceInfo = DeviceInfo(svcName: string, policy: Policy, status: uint16, deviceType: int32)

  datatype DeviceInfoNode = DeviceInfoNode(svcName: string, deviceType: int32)

  const UNUSABLE: uint16 := 0
  const USABLE: uint16 := 1
  const LOCAL_SERVICE: int32 := 0
  const REMOTE_SERVICE: int32 := 1

  // ------------------------------------------------------- what is asked for

  predicate Offered(d: DeviceInfo, status: uint16) {
    (d.policy.Capacity? || d.policy.Public?) && d.status == status
  }

  function NodeOf(d: DeviceInfo): DeviceInfoNode {
    DeviceInfoNode(d.svcName, d.deviceType)
  }

  function OfHost(devices: seq<DeviceInfo>, status: uint16): seq<DeviceInfoNode> {
    if devices == [] then []
    else OfHost(devices[..|devices| - 1], status)
         + var d := devices[|devices| - 1];
           if Offered(d, status) then [NodeOf(d)] else []
  }

  /** The offered devices of all hosts, host after host. */
  function OfHosts(hosts: seq<seq<DeviceInfo>>, status: uint16): seq<DeviceInfoNode> {
    if hosts == [] then []
    else OfHosts(hosts[..|hosts| - 1], status) + OfHost(hosts[|hosts| - 1], status)
  }

  predicate KnownType(t: int32) {
    t == LOCAL_SERVICE || t == REMOTE_SERVICE
  }

  function IfKnown(n: DeviceInfoNode): seq<DeviceInfoNode> {
    if KnownType(n.deviceType) then [n] else []
  }

  function Known(nodes: seq<DeviceInfoNode>): seq<DeviceInfoNode> {
    if nodes == [] then []
    else IfKnown(nodes[0]) + Known(nodes[1..])
  }

  function Encode(nodes: seq<DeviceInfoNode>): seq<Item> {
    if nodes == [] then []
    else [Str(nodes[0].svcName), I32(nodes[0].deviceType)] + Encode(nodes[1..])
  }

  function EntryOf(d: DeviceInfo): seq<Item> {
    [Str(d.svcName), I32(d.deviceType)]
  }

  lemma {:induction false} EncodeConcat(a: seq<DeviceInfoNode>, b: seq<DeviceInfoNode>)
    ensures Encode(a + b) == Encode(a) + Encode(b)
    decreases |a|
  {
    if a == [] {
      assert a + b == b;
    } else {
      assert (a + b)[1..] == a[1..] + b;
      EncodeConcat(a[1..], b);
    }
  }

  lemma {:induction false} EncodeLength(nodes: seq<DeviceInfoNode>)
    ensures |Encode(nodes)| == 2 * |nodes|
    decreases |nodes|
  {
    if nodes != [] {
      EncodeLength(nodes[1..]);
    }
  }

  lemma {:induction false} PartOfHost(devices: seq<DeviceInfo>, j: nat, status: uint16)
    requires j <= |devices|
    ensures |Encode(OfHost(devices[..j], status))| <= |Encode(OfHost(devices, status))|
    decreases |devices|
  {
    EncodeLength(OfHost(devices, status));
    if j < |devices| {
      var front := devices[..|devices| - 1];
      assert front[..j] == devices[..j];
      EncodeLength(OfHost(front, status));
      PartOfHost(front, j, status);
    } else {
      assert devices[..j] == devices;
    }
  }

  lemma {:induction false} PartOfHosts(hosts: seq<seq<DeviceInfo>>, i: nat, status: uint16)
    requires i <= |hosts|
    ensures |Encode(OfHosts(hosts[..i], status))| <= |Encode(OfHosts(hosts, status))|
    decreases |hosts|
  {
    EncodeLength(OfHosts(hosts, status));
    if i < |hosts| {
      var front := hosts[..|hosts| - 1];
      assert front[..i] == hosts[..i];
      EncodeLength(OfHosts(front, status));
      PartOfHosts(front, i, status);
    } else {
      assert hosts[..i] == hosts;
    }
  }

  // -------------------------------------------------- what the reply means

  /** The node is that of a public or capacity device of this status. */
  ghost predicate IsOffer(devices: seq<DeviceInfo>, status: uint16, n: DeviceInfoNode) {
    exists d <- devices ::
      && (d.policy == Public || d.policy == Capacity) && d.status == status
      && n.svcName == d.svcName && n.deviceType == d.deviceType
  }

  /** The reply for one host: device after device, an entry for each public or capacity device
      of this status and nothing for any other. */
  lemma {:induction false} HostInOrder(a: seq<DeviceInfo>, b: seq<DeviceInfo>, d: DeviceInfo, status: uint16)
    ensures OfHost([], status) == [] && OfHost(a + b, status) == OfHost(a, status) + OfHost(b, status)
    ensures OfHost([d], status) ==
            if (d.policy == Public || d.policy == Capacity) && d.status == status
            then [DeviceInfoNode(d.svcName, d.deviceType)] else []
    decreases |b|
  {
    assert [d][..0] == [];
    if b == [] {
      assert a + b == a && OfHost(a, status) + [] == OfHost(a, status);
    } else {
      var front, last := b[..|b| - 1], b[|b| - 1];
      HostInOrder(a, front, d, status);
      assert (a + b)[..|a + b| - 1] == a + front && (a + b)[|a + b| - 1] == last;
      NodesAssoc(OfHost(a, status), OfHost(front, status), if Offered(last, status) then [NodeOf(last)] else []);
    }
  }

  /** The whole reply: host after host. */
  lemma {:induction false} HostsInOrder(a: seq<seq<DeviceInfo>>, b: seq<seq<DeviceInfo>>, h: seq<DeviceInfo>,
                                        status: uint16)
    ensures OfHosts([], status) == [] && OfHosts([h], status) == OfHost(h, status)
    ensures OfHosts(a + b, status) == OfHosts(a, status) + OfHosts(b, status)
    decreases |b|
  {
    assert [h][..0] == [] && [] + OfHost(h, status) == OfHost(h, status);
    if b == [] {
      assert a + b == a && OfHosts(a, status) + [] == OfHosts(a, status);
    } else {
      var front, last := b[..|b| - 1], b[|b| - 1];
      HostsInOrder(a, front, h, status);
      assert (a + b)[..|a + b| - 1] == a + front && (a + b)[|a + b| - 1] == last;
      NodesAssoc(OfHosts(a, status), OfHosts(front, status), OfHost(last, status));
    }
  }

  lemma {:induction false} HostOffers(devices: seq<DeviceInfo>, status: uint16, n: DeviceInfoNode)
    ensures n in OfHost(devices, status) <==> IsOffer(devices, status, n)
    decreases |devices|
  {
    if devices != [] {
      var front, d := devices[..|devices| - 1], devices[|devices| - 1];
      HostOffers(front, status, n);
      assert devices == front + [d];
      assert forall x :: x in devices <==> x in front || x == d;
    }
  }

  lemma {:induction false} HostsOffer(hosts: seq<seq<DeviceInfo>>, status: uint16, n: DeviceInfoNode)
    ensures n in OfHosts(hosts, status) <==> exists h <- hosts :: IsOffer(h, status, n)
    decreases |hosts|
  {
    if hosts != [] {
      var front, h := hosts[..|hosts| - 1], hosts[|hosts| - 1];
      HostsOffer(front, status, n);
      HostOffers(h, status, n);
      assert hosts == front + [h];
      assert forall x :: x in hosts <==> x in front || x == h;
    }
  }

  /** Local and remote services are kept, in order, and nothing else. */
  lemma {:induction false} KnownInOrder(a: seq<DeviceInfoNode>, b: seq<DeviceInfoNode>, n: DeviceInfoNode)
    ensures Known([]) == [] && Known(a + b) == Known(a) + Known(b)
    ensures Known([n]) == if n.deviceType == 0 || n.deviceType == 1 then [n] else []
    decreases |a|
  {
    assert [n][1..] == [];
    if a == [] {
      assert a + b == b;
    } else {
      assert (a + b)[1..] == a[1..] + b;
      KnownInOrder(a[1..], b, n);
      NodesAssoc(IfKnown(a[0]), Known(a[1..]), Known(b));
    }
  }

  lemma {:induction false} KnownIff(nodes: seq<DeviceInfoNode>, n: DeviceInfoNode)
    ensures n in Known(nodes) <==> n in nodes && (n.deviceType == 0 || n.deviceType == 1)
    decreases |nodes|
  {
    if nodes != [] {
      KnownIff(nodes[1..], n);
    }
  }

  // ------------------------------------------------------------- the writer

  lemma OneMore(devices: seq<DeviceInfo>, j: nat, status: uint16)
    requires j < |devices|
    ensures Encode(OfHost(devices[..j + 1], status)) ==
            Encode(OfHost(devices[..j], status))
            + if Offered(devices[j], status) then EntryOf(devices[j]) else []
  {
    assert devices[..j + 1][..j] == devices[..j];
    var n := NodeOf(devices[j]);
    EncodeConcat(OfHost(devices[..j], status), [n]);
    assert [n][1..] == [];
    assert OfHost(devices[..j], status) + [] == OfHost(devices[..j], status);
  }

  lemma OneMoreHost(hosts: seq<seq<DeviceInfo>>, i: nat, status: uint16)
    requires i < |hosts|
    ensures Encode(OfHosts(hosts[..i + 1], status)) ==
            Encode(OfHosts(hosts[..i], status)) + Encode(OfHost(hosts[i], status))
  {
    assert hosts[..i + 1][..i] == hosts[..i];
    EncodeConcat(OfHosts(hosts[..i], status), OfHost(hosts[i], status));
  }

  /** The step of the outer loop: what host i adds, which still belongs to the whole reply. */
  lemma NextHost(hosts: seq<seq<DeviceInfo>>, i: nat, status: uint16, sofar: seq<Item>)
    requires i < |hosts| && sofar == Encode(OfHosts(hosts[..i], status))
    ensures var part := Encode(OfHost(hosts[i], status));
            && sofar + part == Encode(OfHosts(hosts[..i + 1], status))
            && |sofar| + |part| <= |Encode(OfHosts(hosts, status))|
  {
    OneMoreHost(hosts, i, status);
    PartOfHosts(hosts, i + 1, status);
  }

  /** The step of the inner loop. */
  lemma NextDevice(devices: seq<DeviceInfo>, j: nat, status: uint16, sofar: seq<Item>)
    requires j < |devices| && sofar == Encode(OfHost(devices[..j], status))
    ensures var part := if Offered(devices[j], status) then EntryOf(devices[j]) else [];
            && sofar + part == Encode(OfHost(devices[..j + 1], status))
            && |sofar| + |part| <= |Encode(OfHost(devices, status))|
  {
    OneMore(devices, j, status);
    PartOfHost(devices, j + 1, status);
  }

  /** One entry of the reply. */
  method WriteEntry(d: DeviceInfo, reply: HdfSBuf) returns (flag: bool)
    requires reply.Valid()
    modifies reply`items
    ensures reply.Valid()
    ensures flag <==> old(|reply.items|) + 2 <= reply.capacity
    ensures flag ==> reply.items == old(reply.items) + EntryOf(d)
  {
    flag := reply.Write(Str(d.svcName));
    if flag {
      flag := reply.Write(I32(d.deviceType));
    }
  }

  /** The inner loop of DevFillQueryDeviceInfo, over the devices of one host. */
  method FillHost(devices: seq<DeviceInfo>, status: uint16, reply: HdfSBuf) returns (ok: bool)
    requires reply.Valid()
    modifies reply`items
    ensures reply.Valid()
    ensures ok <==> old(|reply.items|) + |Encode(OfHost(devices, status))| <= reply.capacity
    ensures ok ==> reply.items == old(reply.items) + Encode(OfHost(devices, status))
  {
    ghost var start, sofar := reply.items, [];
    for j := 0 to |devices|
      invariant reply.Valid() && reply.items == start + sofar
      invariant sofar == Encode(OfHost(devices[..j], status))
    {
      NextDevice(devices, j, status, sofar);
      var d := devices[j];
      if d.status == status && (d.policy == Public || d.policy == Capacity) {
        var flag := WriteEntry(d, reply);
        if !flag {
          return false;
        }
        Assoc(start, sofar, EntryOf(d));
        sofar := sofar + EntryOf(d);
      } else {
        assert sofar + [] == sofar;
      }
    }
    assert devices[..|devices|] == devices;
    return true;
  }

  lemma Assoc(a: seq<Item>, b: seq<Item>, c: seq<Item>)
    ensures a + b + c == a + (b + c)
  {}

  /** The outer loop, host after host. */
  method FillHosts(hosts: seq<seq<DeviceInfo>>, status: uint16, reply: HdfSBuf) returns (ok: bool)
    requires reply.Valid()
    modifies reply`items
    ensures reply.Valid()
    ensures ok <==> old(|reply.items|) + |Encode(OfHosts(hosts, status))| <= reply.capacity
    ensures ok ==> reply.items == old(reply.items) + Encode(OfHosts(hosts, status))
  {
    ghost var start, sofar := reply.items, [];
    for i := 0 to |hosts|
      invariant reply.Valid() && reply.items == start + sofar
      invariant sofar == Encode(OfHosts(hosts[..i], status))
    {
      ghost var part := Encode(OfHost(hosts[i], status));
      NextHost(hosts, i, status, sofar);
      ok := FillHost(hosts[i], status, reply);
      if !ok {
        return false;
      }
      Assoc(start, sofar, part);
      sofar := sofar + part;
    }
    assert hosts[..|hosts|] == hosts;
    return true;
  }

  /** DevFillQueryDeviceInfo; `status` is what was read from the request. */
  method FillQueryDeviceInfo(hosts: seq<seq<DeviceInfo>>, status: uint16, reply: HdfSBuf) returns (r: Status)
    requires reply.Valid()
    modifies reply`items
    ensures reply.Valid()
    ensures r == Success <==>
              (status == 0 || status == 1)
              && old(|reply.items|) + |Encode(OfHosts(hosts, status))| <= reply.capacity
    ensures r == Success ==> reply.items == old(reply.items) + Encode(OfHosts(hosts, status))
  {
    if status != UNUSABLE && status != USABLE {
      return Failure;
    }
    var ok := FillHosts(hosts, status, reply);
    return if ok then Success else Failure;
  }

  // ------------------------------------------------------------- the reader

  class DeviceInfoList {
    var deviceCnt: nat                 // uint32_t
    var list: seq<DeviceInfoNode>

    constructor ()
      ensures deviceCnt == 0 && list == []
    {
      deviceCnt, list := 0, [];
    }

    ghost predicate Valid()
      reads this
    {
      deviceCnt == |list| % 0x1_0000_0000
    }
  }

  /** What any stream yields: an entry per leading name. A name without a number behind it
      reads as a local service. */
  function Decode(s: seq<Item>): seq<DeviceInfoNode>
    decreases |s|
  {
    if s == [] || !s[0].Str? then []
    else if |s| > 1 && s[1].I32? then IfKnown(DeviceInfoNode(s[0].str, s[1].i32)) + Decode(s[2..])
    else [DeviceInfoNode(s[0].str, LOCAL_SERVICE)] + Decode(s[1..])
  }

  /** How many names the reader finds, and so how many allocations it makes. */
  function Names(s: seq<Item>): (n: nat)
    ensures n <= |s|
    decreases |s|
  {
    if s == [] || !s[0].Str? then 0
    else if |s| > 1 && s[1].I32? then 1 + Names(s[2..])
    else 1 + Names(s[1..])
  }

  lemma CountUp(n: nat)
    ensures (n % 0x1_0000_0000 + 1) % 0x1_0000_0000 == (n + 1) % 0x1_0000_0000
  {}

  /** The loop body of HdfObtainDeviceInfo after a name was read. */
  method ReadEntry(list: DeviceInfoList, reply: HdfSBuf, svrName: string)
    requires reply.Valid() && list.Valid()
    modifies list, reply`pos
    ensures reply.Valid() && list.Valid() && |reply.Rest()| <= old(|reply.Rest()|)
    ensures old(list.list) + Decode([Str(svrName)] + old(reply.Rest())) == list.list + Decode(reply.Rest())
    ensures Names([Str(svrName)] + old(reply.Rest())) == 1 + Names(reply.Rest())
  {
    ghost var was, rest := list.list, reply.Rest();
    var ok, deviceType := reply.ReadInt32();
    FirstEntry(svrName, rest, ok, deviceType, reply.Rest());
    ghost var node := DeviceInfoNode(svrName, deviceType);
    CountUp(|list.list|);
    if deviceType == LOCAL_SERVICE || deviceType == REMOTE_SERVICE {
      list.list := list.list + [DeviceInfoNode(svrName, deviceType)];
      list.deviceCnt := (list.deviceCnt + 1) % 0x1_0000_0000;
    }
    assert list.list == was + IfKnown(node);
    NodesAssoc(was, IfKnown(node), Decode(reply.Rest()));
  }

  lemma NodesAssoc(a: seq<DeviceInfoNode>, b: seq<DeviceInfoNode>, c: seq<DeviceInfoNode>)
    ensures a + b + c == a + (b + c)
  {}

  /** The entry behind a name, and what is left, whether a number follows it or not. */
  lemma FirstEntry(name: string, rest: seq<Item>, ok: bool, deviceType: int32, left: seq<Item>)
    requires if ok then rest == [I32(deviceType)] + left
             else deviceType == 0 && left == rest && (rest == [] || !rest[0].I32?)
    ensures Decode([Str(name)] + rest) == IfKnown(DeviceInfoNode(name, deviceType)) + Decode(left)
    ensures Names([Str(name)] + rest) == 1 + Names(left)
  {
    var s := [Str(name)] + rest;
    assert if ok then s[1] == I32(deviceType) && s[2..] == left else s[1..] == left;
  }

  /** HdfObtainDeviceInfo. The first `allocs` allocations succeed. */
  method ObtainDeviceInfo(list: DeviceInfoList, reply: HdfSBuf, allocs: nat) returns (r: Status)
    requires reply.Valid() && list.Valid()
    modifies list, reply`pos
    ensures reply.Valid() && list.Valid()
    ensures r == Success ==> list.list == old(list.list) + Decode(old(reply.Rest()))
    ensures r == Failure ==> list.list == [] && list.deviceCnt == 0
    ensures r == Success <==> Names(old(reply.Rest())) <= allocs
  {
    var used := 0;
    ghost var todo := reply.Rest();
    ghost var goal, names := list.list + Decode(todo), Names(todo);
    var svrName := reply.ReadString();
    while svrName.Some?
      invariant reply.Valid() && list.Valid() && used <= allocs
      invariant goal == list.list + Decode(todo) && names == used + Names(todo)
      invariant if svrName.Some? then todo == [Str(svrName.value)] + reply.Rest() else todo == [] || !todo[0].Str?
      decreases |todo|
    {
      if used == allocs {
        AtLeastOne(todo, svrName.value, reply.Rest());
        list.list, list.deviceCnt := [], 0;
        return Failure;
      }
      used := used + 1;
      ReadEntry(list, reply, svrName.value);
      todo := reply.Rest();
      svrName := reply.ReadString();
    }
    NothingLeft(list.list, todo);
    return Success;
  }

  lemma AtLeastOne(s: seq<Item>, name: string, rest: seq<Item>)
    requires s == [Str(name)] + rest
    ensures Names(s) > 0
  {}

  lemma NothingLeft(nodes: seq<DeviceInfoNode>, s: seq<Item>)
    requires s == [] || !s[0].Str?
    ensures nodes + Decode(s) == nodes && Names(s) == 0
  {}

  /** Reading back what was written gives the entries of a known type, in order. */
  lemma {:induction false} DecodeEncode(nodes: seq<DeviceInfoNode>)
    ensures Decode(Encode(nodes)) == Known(nodes)
    decreases |nodes|
  {
    if nodes != [] {
      DecodeEncode(nodes[1..]);
      var s := Encode(nodes);
      assert s[2..] == Encode(nodes[1..]) && DeviceInfoNode(s[0].str, s[1].i32) == nodes[0];
    }
  }

  /** The whole query, over a reply buffer that is large enough, with memory enough. */
  method Query(hosts: seq<seq<DeviceInfo>>, status: uint16, list: DeviceInfoList, room: nat) returns (r: Status)
    requires status == USABLE || status == UNUSABLE
    requires room >= |Encode(OfHosts(hosts, status))|
    modifies list
    ensures r == Success && list.list == Known(OfHosts(hosts, status))
    ensures forall n :: n in list.list <==>
              (n.deviceType == 0 || n.deviceType == 1) && exists h <- hosts :: IsOffer(h, status, n)
    ensures list.deviceCnt == |list.list| % 0x1_0000_0000
  {
    list.deviceCnt, list.list := 0, [];
    var reply := new HdfSBuf(room);
    r := FillQueryDeviceInfo(hosts, status, reply);
    assert reply.Rest() == Encode(OfHosts(hosts, status));
    DecodeEncode(OfHosts(hosts, status));
    r := ObtainDeviceInfo(list, reply, |reply.items|);
    forall n
      ensures n in list.list <==>
              (n.deviceType == 0 || n.deviceType == 1) && exists h <- hosts :: IsOffer(h, status, n)
    {
      KnownIff(OfHosts(hosts, status), n);
      HostsOffer(hosts, status, n);
    }
  }
}
