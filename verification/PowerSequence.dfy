/** Power notifications of a driver host: suspend walks the devices forward and the nodes
    of each backward, wake the other way round. A failing node does not stop the walk. */
module PowerSequence {
  import opened Common

  type Token = nat

  datatype Node = Node(powerToken: Option<Token>)

  datatype Device = Device(devNodes: seq<Node>)

  /** One call of PowerStateChange. */
  datatype Notice = Notice(token: Token, state: PowerState)

  datatype Status = Success | Failure | InvalidParam

  datatype PowerState = DozeResume | DozeSuspend | Resume | Suspend | Max

  datatype SysEvent = PowerSuspend | PowerDisplayOff | PowerResume | PowerDisplayOn | Other

  predicate IsWake(state: PowerState) {
    state.Resume? || state.DozeResume?
  }

  function SysEventToPowerState(event: SysEvent): PowerState {
    match event
    case PowerSuspend => Suspend
    case PowerDisplayOff => DozeSuspend
    case PowerResume => Resume
    case PowerDisplayOn => DozeResume
    case Other => Max
  }

  /** Power events are full suspends and resumes, display events the dozing ones; any other
      event gives the state that no host is notified of. */
  lemma EventMeans(event: SysEvent)
    ensures var state := SysEventToPowerState(event);
            && (state == Max <==> event == Other)
            && (IsWake(state) <==> event == PowerResume || event == PowerDisplayOn)
            && (state == DozeSuspend || state == DozeResume <==> event == PowerDisplayOff || event == PowerDisplayOn)
  {}

  // ------------------------------------------------- orders of notification

  function Reverse<T>(s: seq<T>): (r: seq<T>)
    ensures |r| == |s|
  {
    if s == [] then [] else Reverse(s[1..]) + [s[0]]
  }

  /** The tokens of a device, first node first. */
  function Tokens(nodes: seq<Node>): seq<Token> {
    if nodes == [] then [] else TokenOf(nodes[0]) + Tokens(nodes[1..])
  }

  function TokenOf(n: Node): seq<Token> {
    if n.powerToken.Some? then [n.powerToken.value] else []
  }

  function AllTokens(devices: seq<Device>): seq<Token> {
    if devices == [] then [] else Tokens(devices[0].devNodes) + AllTokens(devices[1..])
  }

  function SuspendOrder(devices: seq<Device>): seq<Token> {
    if devices == [] then [] else Reverse(Tokens(devices[0].devNodes)) + SuspendOrder(devices[1..])
  }

  function WakeOrder(devices: seq<Device>): seq<Token> {
    if devices == [] then [] else WakeOrder(devices[1..]) + Tokens(devices[0].devNodes)
  }

  function Order(devices: seq<Device>, state: PowerState): seq<Token> {
    if IsWake(state) then WakeOrder(devices) else SuspendOrder(devices)
  }

  lemma {:induction false} ReverseOfSum<T>(a: seq<T>, b: seq<T>)
    ensures Reverse(a + b) == Reverse(b) + Reverse(a)
    decreases |a|
  {
    if a == [] {
      assert a + b == b;
    } else {
      assert (a + b)[1..] == a[1..] + b;
      ReverseOfSum(a[1..], b);
    }
  }

  lemma {:induction false} ReverseTwice<T>(s: seq<T>)
    ensures Reverse(Reverse(s)) == s
    decreases |s|
  {
    if s != [] {
      ReverseTwice(s[1..]);
      ReverseOfSum(Reverse(s[1..]), [s[0]]);
      assert Reverse([s[0]]) == [s[0]];
    }
  }

  /** Waking mirrors suspending: the same nodes in exactly the opposite order. */
  lemma {:induction false} WakeMirrorsSuspend(devices: seq<Device>)
    ensures WakeOrder(devices) == Reverse(SuspendOrder(devices))
    decreases |devices|
  {
    if devices != [] {
      WakeMirrorsSuspend(devices[1..]);
      ReverseOfSum(Reverse(Tokens(devices[0].devNodes)), SuspendOrder(devices[1..]));
      ReverseTwice(Tokens(devices[0].devNodes));
    }
  }

  lemma {:induction false} ReverseIsPermutation<T>(s: seq<T>)
    ensures multiset(Reverse(s)) == multiset(s)
    decreases |s|
  {
    if s != [] {
      ReverseIsPermutation(s[1..]);
      assert s == [s[0]] + s[1..];
    }
  }

  /** Every node with a token is notified exactly as often as it is listed, both ways. */
  lemma {:induction false} EveryTokenOnce(devices: seq<Device>)
    ensures multiset(SuspendOrder(devices)) == multiset(AllTokens(devices))
    ensures multiset(WakeOrder(devices)) == multiset(AllTokens(devices))
    decreases |devices|
  {
    if devices != [] {
      EveryTokenOnce(devices[1..]);
      ReverseIsPermutation(Tokens(devices[0].devNodes));
    }
  }

  /** How many nodes of a device, and of all devices, carry a token. */
  function Carried(nodes: seq<Node>, token: Token): nat {
    if nodes == [] then 0 else (if nodes[0].powerToken == Some(token) then 1 else 0) + Carried(nodes[1..], token)
  }

  function Listed(devices: seq<Device>, token: Token): nat {
    if devices == [] then 0 else Carried(devices[0].devNodes, token) + Listed(devices[1..], token)
  }

  lemma {:induction false} TokensCarried(nodes: seq<Node>, token: Token)
    ensures multiset(Tokens(nodes))[token] == Carried(nodes, token)
    decreases |nodes|
  {
    if nodes != [] {
      TokensCarried(nodes[1..], token);
    }
  }

  lemma {:induction false} TokensListed(devices: seq<Device>, token: Token)
    ensures multiset(AllTokens(devices))[token] == Listed(devices, token)
    decreases |devices|
  {
    if devices != [] {
      TokensListed(devices[1..], token);
      TokensCarried(devices[0].devNodes, token);
    }
  }

  /** A token is notified once for every node that carries it, both ways. */
  lemma OncePerNode(devices: seq<Device>, state: PowerState, token: Token)
    ensures multiset(Order(devices, state))[token] == Listed(devices, token)
  {
    EveryTokenOnce(devices);
    TokensListed(devices, token);
  }

  lemma {:induction false} TokensOfSum(a: seq<Node>, b: seq<Node>)
    ensures Tokens(a + b) == Tokens(a) + Tokens(b)
    decreases |a|
  {
    if a == [] {
      assert a + b == b;
    } else {
      assert (a + b)[1..] == a[1..] + b;
      TokensOfSum(a[1..], b);
      Assoc(TokenOf(a[0]), Tokens(a[1..]), Tokens(b));
    }
  }

  lemma {:induction false} SuspendOrderOfSum(a: seq<Device>, b: seq<Device>)
    ensures SuspendOrder(a + b) == SuspendOrder(a) + SuspendOrder(b)
    decreases |a|
  {
    if a == [] {
      assert a + b == b;
    } else {
      assert (a + b)[1..] == a[1..] + b;
      SuspendOrderOfSum(a[1..], b);
      Assoc(Reverse(Tokens(a[0].devNodes)), SuspendOrder(a[1..]), SuspendOrder(b));
    }
  }

  lemma {:induction false} WakeOrderOfSum(a: seq<Device>, b: seq<Device>)
    ensures WakeOrder(a + b) == WakeOrder(b) + WakeOrder(a)
    decreases |a|
  {
    if a == [] {
      assert a + b == b;
    } else {
      assert (a + b)[1..] == a[1..] + b;
      WakeOrderOfSum(a[1..], b);
      Assoc(WakeOrder(b), WakeOrder(a[1..]), Tokens(a[0].devNodes));
    }
  }

  lemma OrderOfOne(d: Device)
    ensures SuspendOrder([d]) == Reverse(Tokens(d.devNodes)) && WakeOrder([d]) == Tokens(d.devNodes)
  {
    var none: seq<Device> := [];
    assert [d][1..] == none;
    assert WakeOrder(none) + Tokens(d.devNodes) == Tokens(d.devNodes);
    assert Reverse(Tokens(d.devNodes)) + SuspendOrder(none) == Reverse(Tokens(d.devNodes));
  }

  /** Suspend takes the devices in the order of the list, wake the last one first. */
  lemma DevicesInOrder(a: seq<Device>, b: seq<Device>, state: PowerState)
    ensures Order(a + b, state) == if state == Resume || state == DozeResume then Order(b, state) + Order(a, state)
                                   else Order(a, state) + Order(b, state)
  {
    SuspendOrderOfSum(a, b);
    WakeOrderOfSum(a, b);
  }

  /** Of one device, suspend takes the last node first, wake the first one. */
  lemma NodesInOrder(m: seq<Node>, n: seq<Node>, state: PowerState)
    ensures var front, back := Order([Device(m)], state), Order([Device(n)], state);
            Order([Device(m + n)], state) == if state == Resume || state == DozeResume then front + back
                                             else back + front
  {
    TokensOfSum(m, n);
    ReverseOfSum(Tokens(m), Tokens(n));
    OrderOfOne(Device(m + n));
    OrderOfOne(Device(m));
    OrderOfOne(Device(n));
  }

  /** And of one node its token, if it has one. */
  lemma NodeInOrder(n: Node, state: PowerState)
    ensures Order([Device([n])], state) == if n.powerToken.Some? then [n.powerToken.value] else []
    ensures Order([], state) == [] && Order([Device([])], state) == []
  {
    OrderOfOne(Device([n]));
    OrderOfOne(Device([]));
    assert [n][1..] == [] && Tokens([n]) == TokenOf(n) + [];
    assert Reverse(Tokens([n])) == Tokens([n]);
  }

  // ------------------------------------------------------------ the walk

  /** These tokens notified of a state, one after the other. */
  function Told(tokens: seq<Token>, state: PowerState): (ns: seq<Notice>)
    ensures |ns| == |tokens| && forall i | 0 <= i < |ns| :: ns[i] == Notice(tokens[i], state)
  {
    seq(|tokens|, i requires 0 <= i < |tokens| => Notice(tokens[i], state))
  }

  lemma ToldOfSum(log: seq<Notice>, a: seq<Token>, b: seq<Token>, state: PowerState)
    ensures log + Told(a, state) + Told(b, state) == log + Told(a + b, state)
  {}

  lemma Assoc(a: seq<Token>, b: seq<Token>, c: seq<Token>)
    ensures a + b + c == a + (b + c)
  {}

  lemma {:induction false} TokensSnoc(nodes: seq<Node>, n: Node)
    ensures Tokens(nodes + [n]) == Tokens(nodes) + TokenOf(n)
    decreases |nodes|
  {
    var all := nodes + [n];
    if nodes == [] {
      assert all == [n] && all[1..] == [];
    } else {
      assert all[0] == nodes[0] && all[1..] == nodes[1..] + [n];
      TokensSnoc(nodes[1..], n);
      Assoc(TokenOf(nodes[0]), Tokens(nodes[1..]), TokenOf(n));
    }
  }

  /** The walk forward has notified the tokens before node i, and then that of node i. */
  lemma OneForward(nodes: seq<Node>, i: nat)
    requires i < |nodes|
    ensures Tokens(nodes[..i + 1]) == Tokens(nodes[..i]) + TokenOf(nodes[i])
  {
    assert nodes[..i + 1] == nodes[..i] + [nodes[i]];
    TokensSnoc(nodes[..i], nodes[i]);
  }

  /** The walk backward has notified the tokens behind node i, and then that of node i. */
  lemma OneBackward(nodes: seq<Node>, i: nat)
    requires i < |nodes|
    ensures Reverse(Tokens(nodes[i..])) == Reverse(Tokens(nodes[i + 1..])) + TokenOf(nodes[i])
  {
    assert nodes[i..][1..] == nodes[i + 1..];
    ReverseOfSum(TokenOf(nodes[i]), Tokens(nodes[i + 1..]));
    assert Reverse(TokenOf(nodes[i])) == TokenOf(nodes[i]);
  }

  /** The calls numbered [from, to) all succeeded. */
  predicate AllOk(rc: nat -> bool, from: nat, to: nat) {
    forall k | from <= k < to :: rc(k)
  }

  /** The body of either loop: one node, if it has a token. */
  method Notify(n: Node, state: PowerState, rc: nat -> bool, ghost start: seq<Notice>, result: Status, log: seq<Notice>)
    returns (result': Status, log': seq<Notice>)
    requires |start| <= |log| && result == if AllOk(rc, |start|, |log|) then Success else Failure
    ensures log' == log + Told(TokenOf(n), state)
    ensures result' == if AllOk(rc, |start|, |log'|) then Success else Failure
  {
    result', log' := result, log;
    if n.powerToken.Some? {
      if !rc(|log|) {
        result' := Failure;
      }
      log' := log + [Notice(n.powerToken.value, state)];
    }
  }

  /** `rc(k)` is whether the k-th PowerStateChange of this notification succeeds; `log`
      collects these calls. */
  method DispatchPowerState(device: Device, state: PowerState, rc: nat -> bool, log: seq<Notice>)
    returns (result: Status, log': seq<Notice>)
    ensures var tokens := Tokens(device.devNodes);
            log' == log + Told(if IsWake(state) then tokens else Reverse(tokens), state)
    ensures result == if AllOk(rc, |log|, |log'|) then Success else Failure
  {
    var nodes := device.devNodes;
    result, log' := Success, log;
    if IsWake(state) {
      for i := 0 to |nodes|
        invariant log' == log + Told(Tokens(nodes[..i]), state)
        invariant result == if AllOk(rc, |log|, |log'|) then Success else Failure
      {
        OneForward(nodes, i);
        ToldOfSum(log, Tokens(nodes[..i]), TokenOf(nodes[i]), state);
        result, log' := Notify(nodes[i], state, rc, log, result, log');
      }
      assert nodes[..|nodes|] == nodes;
    } else {
      var i := |nodes|;
      while i > 0
        invariant 0 <= i <= |nodes|
        invariant log' == log + Told(Reverse(Tokens(nodes[i..])), state)
        invariant result == if AllOk(rc, |log|, |log'|) then Success else Failure
      {
        i := i - 1;
        OneBackward(nodes, i);
        ToldOfSum(log, Reverse(Tokens(nodes[i + 1..])), TokenOf(nodes[i]), state);
        result, log' := Notify(nodes[i], state, rc, log, result, log');
      }
      assert nodes[0..] == nodes;
    }
  }

  lemma {:induction false} SuspendOrderSnoc(devices: seq<Device>, d: Device)
    ensures SuspendOrder(devices + [d]) == SuspendOrder(devices) + Reverse(Tokens(d.devNodes))
    decreases |devices|
  {
    if devices == [] {
      assert devices + [d] == [d] && [d][1..] == [];
      assert SuspendOrder([d]) == Reverse(Tokens(d.devNodes)) + SuspendOrder([]);
    } else {
      assert (devices + [d])[1..] == devices[1..] + [d];
      SuspendOrderSnoc(devices[1..], d);
    }
  }

  lemma ToldNext(log: seq<Notice>, a: seq<Token>, b: seq<Token>, state: PowerState)
    requires log == Told(a, state)
    ensures log + Told(b, state) == Told(a + b, state)
  {}

  lemma WakeNext(ds: seq<Device>, i: nat, state: PowerState, log: seq<Notice>)
    requires i < |ds| && log == Told(WakeOrder(ds[i + 1..]), state)
    ensures log + Told(Tokens(ds[i].devNodes), state) == Told(WakeOrder(ds[i..]), state)
  {
    assert ds[i..][1..] == ds[i + 1..];
    ToldNext(log, WakeOrder(ds[i + 1..]), Tokens(ds[i].devNodes), state);
  }

  lemma SuspendNext(ds: seq<Device>, i: nat, state: PowerState, log: seq<Notice>)
    requires i < |ds| && log == Told(SuspendOrder(ds[..i]), state)
    ensures log + Told(Reverse(Tokens(ds[i].devNodes)), state) == Told(SuspendOrder(ds[..i + 1]), state)
  {
    SuspendOrderSnoc(ds[..i], ds[i]);
    assert ds[..i + 1] == ds[..i] + [ds[i]];
    ToldNext(log, SuspendOrder(ds[..i]), Reverse(Tokens(ds[i].devNodes)), state);
  }

  /** The body of either loop over the devices. */
  method NotifyDevice(d: Device, state: PowerState, rc: nat -> bool, result: Status, log: seq<Notice>)
    returns (result': Status, log': seq<Notice>)
    requires result == if AllOk(rc, 0, |log|) then Success else Failure
    ensures log' == log + Told(if IsWake(state) then Tokens(d.devNodes) else Reverse(Tokens(d.devNodes)), state)
    ensures result' == if AllOk(rc, 0, |log'|) then Success else Failure
  {
    var ret;
    ret, log' := DispatchPowerState(d, state, rc, log);
    result' := if ret != Success then Failure else result;
  }

  /** `devices` is None for a null host. */
  method PmNotify(devices: Option<seq<Device>>, state: PowerState, rc: nat -> bool)
    returns (result: Status, log: seq<Notice>)
    ensures devices == None || state == Max ==> result == InvalidParam && log == []
    ensures devices.Some? && state != Max ==>
              && log == Told(Order(devices.value, state), state)
              && result == if AllOk(rc, 0, |log|) then Success else Failure
  {
    if devices.None? || state == Max {
      return InvalidParam, [];
    }
    var ds := devices.value;
    result, log := Success, [];
    if IsWake(state) {
      var i := |ds|;
      while i > 0
        invariant 0 <= i <= |ds|
        invariant log == Told(WakeOrder(ds[i..]), state)
        invariant result == if AllOk(rc, 0, |log|) then Success else Failure
      {
        i := i - 1;
        WakeNext(ds, i, state, log);
        result, log := NotifyDevice(ds[i], state, rc, result, log);
      }
      assert ds[0..] == ds;
    } else {
      for i := 0 to |ds|
        invariant log == Told(SuspendOrder(ds[..i]), state)
        invariant result == if AllOk(rc, 0, |log|) then Success else Failure
      {
        SuspendNext(ds, i, state, log);
        result, log := NotifyDevice(ds[i], state, rc, result, log);
      }
      assert ds[..|ds|] == ds;
    }
  }

  lemma Mirror(devices: seq<Device>, down: PowerState, up: PowerState)
    requires !IsWake(down) && IsWake(up)
    ensures Order(devices, up) == Reverse(Order(devices, down))
    ensures multiset(Order(devices, down)) == multiset(AllTokens(devices))
  {
    WakeMirrorsSuspend(devices);
    EveryTokenOnce(devices);
  }

  /** A system suspend and the resume after it, on the same device lists, whatever fails. */
  method SuspendThenResume(devices: seq<Device>, down: SysEvent, up: SysEvent, rcDown: nat -> bool, rcUp: nat -> bool)
    returns (downLog: seq<Notice>, upLog: seq<Notice>)
    requires down.PowerSuspend? || down.PowerDisplayOff?
    requires up.PowerResume? || up.PowerDisplayOn?
    ensures var order := SuspendOrder(devices);
            && downLog == Told(order, if down.PowerSuspend? then Suspend else DozeSuspend)
            && upLog == Told(Reverse(order), if up.PowerResume? then Resume else DozeResume)
            && forall token :: multiset(order)[token] == Listed(devices, token)
  {
    var r1, r2;
    r1, downLog := PmNotify(Some(devices), SysEventToPowerState(down), rcDown);
    r2, upLog := PmNotify(Some(devices), SysEventToPowerState(up), rcUp);
    Mirror(devices, SysEventToPowerState(down), SysEventToPowerState(up));
    forall token
      ensures multiset(SuspendOrder(devices))[token] == Listed(devices, token)
    {
      TokensListed(devices, token);
    }
  }
}
