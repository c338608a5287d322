/** Keeping the ports of an instance in step with a list of interface addresses. */
module PtpPortTable {
  import opened Wrappers
  import opened BestMaster
  import opened PtpPort
  import opened PtpInstance
  import opened PtpRuns

  const TOO_MANY := 0xFFFF

  /** Adds the port, or moves the existing one to the address. */
  function AddOrUpdatePort(s: Instance, number: nat, address: nat, lookup: Lookup): Result<Instance> {
    var i := PortAt(s.ports, number);
    if i < |s.ports| then Ok(s.(ports := s.ports[i := s.ports[i].(address := address)]))
    else Add(s, number, address, lookup)
  }

  /** Goes through the addresses from `i`; an unspecified one removes its port. When a port cannot be
      added the ports handled so far stay as they are. */
  function PutPorts(s: Instance, addresses: seq<Option<nat>>, lookup: nat -> Lookup, i: nat): (r: (Instance, Option<string>))
    requires i <= |addresses|
    decreases |addresses| - i
  {
    if i == |addresses| then (s, None)
    else if addresses[i].None? then PutPorts(Remove(s, i + 1), addresses, lookup, i + 1)
    else
      var r := AddOrUpdatePort(s, i + 1, addresses[i].value, lookup(addresses[i].value));
      if r.Err? then (s, Some(r.error)) else PutPorts(r.value, addresses, lookup, i + 1)
  }

  lemma PutNothing(s: Instance, addresses: seq<Option<nat>>, lookup: nat -> Lookup)
    ensures PutPorts(s, addresses, lookup, |addresses|) == (s, None)
  {
  }

  /** The numbers above `n`. */
  function Surplus(ports: seq<Port>, n: nat): seq<nat> {
    if ports == [] then []
    else
      var number := ports[|ports| - 1].identity.number;
      Surplus(ports[..|ports| - 1], n) + if number > n then [number] else []
  }

  function RemoveEach(s: Instance, numbers: seq<nat>): Instance {
    if numbers == [] then s else Remove(RemoveEach(s, numbers[..|numbers| - 1]), numbers[|numbers| - 1])
  }

  function UpdatePorts(s: Instance, addresses: seq<Option<nat>>, lookup: nat -> Lookup): (Instance, Option<string>) {
    if |addresses| >= TOO_MANY then (s, Some("too many ports"))
    else
      var (t, error) := PutPorts(s, addresses, lookup, 0);
      if error.Some? then (t, error) else (RemoveEach(t, Surplus(t.ports, |addresses|)), None)
  }

  // ----- the table as a map from numbers to ports -----

  function Named(ports: seq<Port>, number: nat): Option<Port> {
    if HasPort(ports, number) then Some(ports[PortAt(ports, number)]) else None
  }

  lemma {:induction false} NamedWithout(ports: seq<Port>, k: nat, n: nat)
    ensures Named(Without(ports, k), n) == if n == k then None else Named(ports, n)
  {
    hide Named;
    if ports == [] {
      NamedNone(n);
    } else {
      NamedWithout(ports[1..], k, n);
      assert [ports[0]] + ports[1..] == ports;
      NamedCons(ports[0], ports[1..], n);
      NamedCons(ports[0], Without(ports[1..], k), n);
    }
  }

  lemma NamedNone(n: nat)
    ensures Named([], n) == None
  {
  }

  lemma NamedCons(port: Port, rest: seq<Port>, n: nat)
    ensures Named([port] + rest, n) == if port.identity.number == n then Some(port) else Named(rest, n)
  {
    assert ([port] + rest)[1..] == rest;
  }

  /** Only the table of ports, and with its first port the clock identity, may differ. */
  predicate SameButTable(s: Instance, t: Instance) {
    t == s.(default := s.default.(clock := t.default.clock), ports := t.ports, numberPorts := t.numberPorts)
  }

  lemma NamedRemove(s: Instance, k: nat, n: nat)
    ensures Named(Remove(s, k).ports, n) == if n == k then None else Named(s.ports, n)
    ensures SameButTable(s, Remove(s, k)) && Remove(s, k).default == s.default
  {
    NamedWithout(s.ports, k, n);
    WithoutKeeps(s.ports, k);
  }

  lemma NamedIs(ports: seq<Port>, number: nat, j: nat, own: ClockIdentity)
    requires PortsOk(ports, own) && j < |ports| && ports[j].identity.number == number
    ensures Named(ports, number) == Some(ports[j])
  {
  }

  /** The port that a successful call leaves under a number. */
  function Put(before: Option<Port>, number: nat, address: nat, own: ClockIdentity): Port {
    if before.Some? then before.value.(address := address)
    else Port(PortIdentity(own, number), address, Listening, [], None)
  }

  lemma NamedPut(s: Instance, number: nat, address: nat, lookup: Lookup, n: nat)
    requires Sound(s) && AddOrUpdatePort(s, number, address, lookup).Ok?
    ensures var t := AddOrUpdatePort(s, number, address, lookup).value;
      Sound(t) && SameButTable(s, t) &&
      (s.default.clock != 0 ==> t.default == s.default) &&
      Named(t.ports, n) == if n == number then Some(Put(Named(s.ports, number), number, address, t.default.clock)) else Named(s.ports, n)
  {
    hide ListOk;
    var t := AddOrUpdatePort(s, number, address, lookup).value;
    var i := PortAt(s.ports, number);
    if i < |s.ports| {
      ReplaceKeepsSound(s, i, s.ports[i].(address := address));
      NamedUpdate(s.ports, i, t.ports[i], n);
    } else {
      AddKeepsSound(s, number, address, lookup);
      NamedSnoc(s.ports, t.ports[i], n);
    }
  }

  lemma PortAtIs(ports: seq<Port>, number: nat, k: nat)
    requires k <= |ports| && (k < |ports| ==> ports[k].identity.number == number)
    requires forall j :: 0 <= j < k ==> ports[j].identity.number != number
    ensures PortAt(ports, number) == k
  {
  }

  lemma NamedUpdate(ports: seq<Port>, i: nat, p: Port, n: nat)
    requires i < |ports| && p.identity == ports[i].identity && i == PortAt(ports, p.identity.number)
    ensures Named(ports[i := p], n) == if n == p.identity.number then Some(p) else Named(ports, n)
  {
    PortAtIs(ports[i := p], n, PortAt(ports, n));
  }

  lemma NamedSnoc(ports: seq<Port>, p: Port, n: nat)
    requires !HasPort(ports, p.identity.number)
    ensures Named(ports + [p], n) == if n == p.identity.number then Some(p) else Named(ports, n)
  {
    if n == p.identity.number || HasPort(ports, n) {
      PortAtIs(ports + [p], n, PortAt(ports, n));
    } else {
      PortAtIs(ports + [p], n, |ports| + 1);
    }
  }

  // ----- what an update leaves -----

  /** The port that an update leaves under a number up to `i`: the one there was, at its new address,
      or a new one. */
  function Wanted(s: Instance, addresses: seq<Option<nat>>, own: ClockIdentity, n: nat): Option<Port>
    requires 1 <= n <= |addresses|
  {
    if addresses[n - 1].None? then None else Some(Put(Named(s.ports, n), n, addresses[n - 1].value, own))
  }

  /** The numbers up to `i` are as wanted, the others are untouched. */
  ghost predicate UpdatedTo(s: Instance, t: Instance, addresses: seq<Option<nat>>, i: nat) {
    i <= |addresses| && Sound(t) && (s.default.clock != 0 ==> t.default == s.default) &&
    forall n: nat :: Named(t.ports, n) ==
      if 1 <= n <= i then Wanted(s, addresses, t.default.clock, n) else Named(s.ports, n)
  }

  lemma UpdateOne(s: Instance, t: Instance, addresses: seq<Option<nat>>, lookup: nat -> Lookup, i: nat)
    requires UpdatedTo(s, t, addresses, i) && i < |addresses| && addresses[i].Some?
    requires AddOrUpdatePort(t, i + 1, addresses[i].value, lookup(addresses[i].value)).Ok?
    ensures UpdatedTo(s, AddOrUpdatePort(t, i + 1, addresses[i].value, lookup(addresses[i].value)).value, addresses, i + 1)
  {
    hide AddOrUpdatePort, Sound, Named;
    var u := AddOrUpdatePort(t, i + 1, addresses[i].value, lookup(addresses[i].value)).value;
    NamedPut(t, i + 1, addresses[i].value, lookup(addresses[i].value), i + 1);
    forall n: nat
      ensures Named(u.ports, n) == if 1 <= n <= i + 1 then Wanted(s, addresses, u.default.clock, n) else Named(s.ports, n)
    {
      NamedPut(t, i + 1, addresses[i].value, lookup(addresses[i].value), n);
      if 1 <= n <= i {
        NamedClock(t, n);
      }
    }
  }

  /** As soon as there is a port the clock identity is fixed. */
  lemma NamedClock(s: Instance, n: nat)
    requires Sound(s)
    ensures Named(s.ports, n).Some? ==> s.default.clock != 0 && Named(s.ports, n).value.identity.clock == s.default.clock
  {
  }

  /** The update has come as far as the port of address `i`, which cannot be added for this reason. */
  ghost predicate StopsAt(s: Instance, u: Instance, addresses: seq<Option<nat>>, lookup: nat -> Lookup, i: nat, error: string) {
    i < |addresses| && UpdatedTo(s, u, addresses, i) && addresses[i].Some? &&
    AddOrUpdatePort(u, i + 1, addresses[i].value, lookup(addresses[i].value)) == Err(error)
  }

  lemma {:induction false} PutPortsReaches(s: Instance, t: Instance, addresses: seq<Option<nat>>, lookup: nat -> Lookup, i: nat)
    requires UpdatedTo(s, t, addresses, i)
    ensures var (u, error) := PutPorts(t, addresses, lookup, i);
      Sound(u) && if error.None? then UpdatedTo(s, u, addresses, |addresses|) else exists k :: StopsAt(s, u, addresses, lookup, k, error.value)
    decreases |addresses| - i
  {
    hide AddOrUpdatePort, Sound, Named, Remove, Wanted;
    if i < |addresses| {
      if addresses[i].None? {
        RemoveOne(s, t, addresses, i);
        PutPortsReaches(s, Remove(t, i + 1), addresses, lookup, i + 1);
      } else {
        var r := AddOrUpdatePort(t, i + 1, addresses[i].value, lookup(addresses[i].value));
        if r.Ok? {
          UpdateOne(s, t, addresses, lookup, i);
          PutPortsReaches(s, r.value, addresses, lookup, i + 1);
        } else {
          assert StopsAt(s, t, addresses, lookup, i, r.error);
        }
      }
    }
  }

  lemma RemoveOne(s: Instance, t: Instance, addresses: seq<Option<nat>>, i: nat)
    requires UpdatedTo(s, t, addresses, i) && i < |addresses| && addresses[i].None?
    ensures UpdatedTo(s, Remove(t, i + 1), addresses, i + 1)
  {
    hide Sound, Named;
    RemoveKeepsSound(t, i + 1);
    forall n: nat
      ensures Named(Remove(t, i + 1).ports, n) == if n == i + 1 then None else Named(t.ports, n)
    {
      NamedRemove(t, i + 1, n);
    }
  }

  lemma {:induction false} SurplusIs(ports: seq<Port>, most: nat, n: nat)
    ensures n in Surplus(ports, most) <==> n > most && HasPort(ports, n)
  {
    if ports != [] {
      var last := |ports| - 1;
      SurplusIs(ports[..last], most, n);
      assert ports == ports[..last] + [ports[last]];
      PortAtSnoc(ports[..last], ports[last], n);
    }
  }

  lemma PortAtSnoc(ports: seq<Port>, p: Port, n: nat)
    ensures HasPort(ports + [p], n) <==> HasPort(ports, n) || p.identity.number == n
  {
    if HasPort(ports, n) || p.identity.number == n {
      PortAtIs(ports + [p], n, PortAt(ports, n));
    } else {
      PortAtIs(ports + [p], n, |ports| + 1);
    }
  }

  lemma {:induction false} NamedRemoveEach(s: Instance, numbers: seq<nat>, n: nat)
    requires Sound(s)
    ensures Sound(RemoveEach(s, numbers)) && RemoveEach(s, numbers).default == s.default
    ensures Named(RemoveEach(s, numbers).ports, n) == if n in numbers then None else Named(s.ports, n)
  {
    hide Sound, Named, Remove;
    if numbers != [] {
      var last := |numbers| - 1;
      NamedRemoveEach(s, numbers[..last], n);
      var t := RemoveEach(s, numbers[..last]);
      assert numbers == numbers[..last] + [numbers[last]];
      RemoveKeepsSound(t, numbers[last]);
      NamedRemove(t, numbers[last], n);
      RemoveKeepsDefault(t, numbers[last]);
    }
  }

  lemma RemoveKeepsDefault(s: Instance, number: nat)
    ensures Remove(s, number).default == s.default
  {
  }

  /** Distinct numbers from 1 to `most` are at most that many. */
  lemma {:induction false} Pigeonhole(ports: seq<Port>, own: ClockIdentity, most: nat)
    requires PortsOk(ports, own) && forall i :: 0 <= i < |ports| ==> 1 <= ports[i].identity.number <= most
    ensures |ports| <= most
    decreases most
  {
    if ports != [] {
      var rest := Without(ports, most);
      WithoutKeepsPorts(ports, most, own);
      WithoutKeeps(ports, most);
      WithoutOne(ports, most, own);
      forall i | 0 <= i < |rest|
        ensures 1 <= rest[i].identity.number <= most - 1
      {
        assert rest[i] in ports;
      }
      Pigeonhole(rest, own, most - 1);
    }
  }

  lemma {:induction false} WithoutOne(ports: seq<Port>, number: nat, own: ClockIdentity)
    requires PortsOk(ports, own)
    ensures |Without(ports, number)| >= |ports| - 1
  {
    hide PortOk;
    if ports != [] {
      WithoutOne(ports[1..], number, own);
      if ports[0].identity.number == number {
        NobodyLeft(ports, own);
        WithoutKeeps(ports[1..], number);
      }
    }
  }

  lemma NobodyLeft(ports: seq<Port>, own: ClockIdentity)
    requires PortsOk(ports, own) && ports != []
    ensures !HasPort(ports[1..], ports[0].identity.number)
  {
    hide PortOk;
    PortAtIs(ports[1..], ports[0].identity.number, |ports| - 1);
  }

  lemma {:induction false} PutPortsKeepsRest(s: Instance, addresses: seq<Option<nat>>, lookup: nat -> Lookup, i: nat)
    requires i <= |addresses|
    ensures SameButTable(s, PutPorts(s, addresses, lookup, i).0)
    decreases |addresses| - i
  {
    if i < |addresses| {
      if addresses[i].None? {
        PutPortsKeepsRest(Remove(s, i + 1), addresses, lookup, i + 1);
      } else {
        var r := AddOrUpdatePort(s, i + 1, addresses[i].value, lookup(addresses[i].value));
        if r.Ok? {
          PutPortsKeepsRest(r.value, addresses, lookup, i + 1);
        }
      }
    }
  }

  lemma {:induction false} RemoveEachKeepsRest(s: Instance, numbers: seq<nat>)
    ensures SameButTable(s, RemoveEach(s, numbers))
  {
    if numbers != [] {
      RemoveEachKeepsRest(s, numbers[..|numbers| - 1]);
    }
  }

  lemma UpdateKeepsRest(s: Instance, addresses: seq<Option<nat>>, lookup: nat -> Lookup)
    ensures SameButTable(s, UpdatePorts(s, addresses, lookup).0)
  {
    hide PutPorts, RemoveEach, Surplus;
    PutPortsKeepsRest(s, addresses, lookup, 0);
    var t := PutPorts(s, addresses, lookup, 0).0;
    RemoveEachKeepsRest(t, Surplus(t.ports, |addresses|));
  }

  ghost predicate Numbered(ports: seq<Port>) {
    forall i :: 0 <= i < |ports| ==> ports[i].identity.number >= 1
  }

  /** A successful update leaves exactly the ports whose addresses are specified, each at its address,
      the old ones with the state they had; the port count is the size of the table. Whether it
      succeeds or fails, the instance stays sound. */
  lemma UpdateLeavesWanted(s: Instance, addresses: seq<Option<nat>>, lookup: nat -> Lookup, n: nat)
    requires Sound(s) && Numbered(s.ports)
    ensures var (t, error) := UpdatePorts(s, addresses, lookup);
      && Sound(t) && SameButTable(s, t)
      && (|addresses| >= 65535 ==> t == s && error == Some("too many ports"))
      && (error.None? ==>
          && Named(t.ports, n) == (if 1 <= n <= |addresses| then Wanted(s, addresses, t.default.clock, n) else None)
          && t.numberPorts == |t.ports| <= |addresses|)
  {
    hide Sound, Named, PutPorts, Surplus, RemoveEach, Wanted, Remove;
    UpdateKeepsRest(s, addresses, lookup);
    if |addresses| < TOO_MANY {
      PutPortsReaches(s, s, addresses, lookup, 0);
      var (t, error) := PutPorts(s, addresses, lookup, 0);
      if error.None? {
        var u := RemoveEach(t, Surplus(t.ports, |addresses|));
        forall k: nat
          ensures Named(u.ports, k) == if k > |addresses| then None else Named(t.ports, k)
          ensures Sound(u) && u.default == t.default
        {
          NamedRemoveEach(t, Surplus(t.ports, |addresses|), k);
          SurplusIs(t.ports, |addresses|, k);
          NamedHas(t.ports, k);
        }
        NothingAtZero(s);
        AtMost(u, |addresses|);
      }
    }
  }

  /** An update that fails for want of a port leaves the ports of the addresses before it as wanted and all
      others as they were. */
  lemma FailedUpdateStops(s: Instance, addresses: seq<Option<nat>>, lookup: nat -> Lookup)
    requires Sound(s) && |addresses| < 65535
    ensures var (t, error) := UpdatePorts(s, addresses, lookup);
      error.Some? ==> exists i :: StopsAt(s, t, addresses, lookup, i, error.value)
  {
    hide Sound, Named, PutPorts, Surplus, RemoveEach, Wanted, StopsAt;
    PutPortsReaches(s, s, addresses, lookup, 0);
  }

  lemma NamedHas(ports: seq<Port>, n: nat)
    ensures Named(ports, n).Some? <==> HasPort(ports, n)
  {
  }

  lemma NothingAtZero(s: Instance)
    requires Numbered(s.ports)
    ensures Named(s.ports, 0).None?
  {
  }

  lemma AtMost(s: Instance, most: nat)
    requires Sound(s) && most < TOO_MANY && Named(s.ports, 0).None?
    requires forall k: nat :: k > most ==> Named(s.ports, k).None?
    ensures s.numberPorts == |s.ports| <= most
  {
    hide PortOk;
    forall i | 0 <= i < |s.ports|
      ensures 1 <= s.ports[i].identity.number <= most
    {
      NamedIs(s.ports, s.ports[i].identity.number, i, s.default.clock);
    }
    Pigeonhole(s.ports, s.default.clock, most);
  }

  /** Every new port from position `i` on has an interface. */
  predicate InterfacesFound(s: Instance, addresses: seq<Option<nat>>, lookup: nat -> Lookup, i: nat) {
    forall j :: i <= j < |addresses| && addresses[j].Some? && Named(s.ports, j + 1).None? ==> !lookup(addresses[j].value).NotFound?
  }

  /** No address before position `j` is specified, from `i` on, and that one is. */
  predicate IsFirst(addresses: seq<Option<nat>>, i: nat, j: nat) {
    i <= j < |addresses| && addresses[j].Some? && forall h :: i <= h < j ==> addresses[h].None?
  }

  /** The first address from `i` on that is specified, if any, has a hardware address to make a clock
      identity of. */
  predicate FirstIdentifies(addresses: seq<Option<nat>>, lookup: nat -> Lookup, i: nat) {
    forall j :: i <= j < |addresses| && IsFirst(addresses, i, j) ==> Identifies(lookup(addresses[j].value))
  }

  predicate Identifies(lookup: Lookup) {
    lookup.Hardware? && lookup.identity != 0
  }

  lemma FirstNext(addresses: seq<Option<nat>>, lookup: nat -> Lookup, i: nat)
    requires i < |addresses|
    ensures FirstIdentifies(addresses, lookup, i) <==>
      if addresses[i].None? then FirstIdentifies(addresses, lookup, i + 1) else Identifies(lookup(addresses[i].value))
  {
    if addresses[i].None? {
      forall j
        ensures i < j < |addresses| ==> (IsFirst(addresses, i, j) <==> IsFirst(addresses, i + 1, j))
      {
      }
    } else {
      assert IsFirst(addresses, i, i);
    }
  }

  lemma AddOrUpdateOkIff(t: Instance, number: nat, address: nat, lookup: Lookup)
    requires Sound(t)
    ensures var r := AddOrUpdatePort(t, number, address, lookup);
      && (r.Ok? <==> Named(t.ports, number).Some? || (!lookup.NotFound? && (t.default.clock == 0 ==> Identifies(lookup))))
      && (r.Ok? ==> r.value.default.clock != 0)
      && (t.default.clock == 0 ==> Named(t.ports, number).None?)
  {
    hide PortOk, IsClient;
  }

  /** From position `i` on. */
  predicate Succeeds(s: Instance, t: Instance, addresses: seq<Option<nat>>, lookup: nat -> Lookup, i: nat) {
    InterfacesFound(s, addresses, lookup, i) && (t.default.clock == 0 ==> FirstIdentifies(addresses, lookup, i))
  }

  lemma SucceedsNext(s: Instance, t: Instance, u: Instance, addresses: seq<Option<nat>>, lookup: nat -> Lookup, i: nat)
    requires i < |addresses|
    requires if addresses[i].None? then u.default == t.default
      else u.default.clock != 0 && (t.default.clock == 0 ==> Identifies(lookup(addresses[i].value))) &&
           (Named(s.ports, i + 1).None? ==> !lookup(addresses[i].value).NotFound?)
    ensures Succeeds(s, t, addresses, lookup, i) <==> Succeeds(s, u, addresses, lookup, i + 1)
  {
    hide Named, FirstIdentifies, Identifies;
    FirstNext(addresses, lookup, i);
  }

  lemma {:induction false} PutPortsOkIff(s: Instance, t: Instance, addresses: seq<Option<nat>>, lookup: nat -> Lookup, i: nat)
    requires UpdatedTo(s, t, addresses, i)
    ensures PutPorts(t, addresses, lookup, i).1.None? <==> Succeeds(s, t, addresses, lookup, i)
    decreases |addresses| - i
  {
    hide AddOrUpdatePort, Sound, Named, Remove, Wanted, Succeeds, Identifies;
    if i == |addresses| {
      NothingToPut(s, t, addresses, lookup);
    } else if addresses[i].None? {
      RemoveOne(s, t, addresses, i);
      RemoveKeepsDefault(t, i + 1);
      PutPortsOkIff(s, Remove(t, i + 1), addresses, lookup, i + 1);
      SucceedsNext(s, t, Remove(t, i + 1), addresses, lookup, i);
    } else {
      var r := AddOrUpdatePort(t, i + 1, addresses[i].value, lookup(addresses[i].value));
      AddOrUpdateOkIff(t, i + 1, addresses[i].value, lookup(addresses[i].value));
      assert Named(t.ports, i + 1) == Named(s.ports, i + 1);
      if r.Ok? {
        UpdateOne(s, t, addresses, lookup, i);
        PutPortsOkIff(s, r.value, addresses, lookup, i + 1);
        SucceedsNext(s, t, r.value, addresses, lookup, i);
      } else {
        FailsHere(s, t, addresses, lookup, i);
      }
    }
  }

  lemma NothingToPut(s: Instance, t: Instance, addresses: seq<Option<nat>>, lookup: nat -> Lookup)
    ensures Succeeds(s, t, addresses, lookup, |addresses|)
  {
  }

  lemma FailsHere(s: Instance, t: Instance, addresses: seq<Option<nat>>, lookup: nat -> Lookup, i: nat)
    requires i < |addresses| && addresses[i].Some? && Named(s.ports, i + 1).None?
    requires lookup(addresses[i].value).NotFound? || (t.default.clock == 0 && !Identifies(lookup(addresses[i].value)))
    ensures !Succeeds(s, t, addresses, lookup, i)
  {
    hide Named, FirstIdentifies, Identifies;
    FirstNext(addresses, lookup, i);
  }

  /** An update fails exactly for too many addresses, for a new port without an interface, or, while the
      instance has no clock identity, when the first port to be added has no hardware address. */
  lemma UpdateSucceedsIff(s: Instance, addresses: seq<Option<nat>>, lookup: nat -> Lookup)
    requires Sound(s)
    ensures UpdatePorts(s, addresses, lookup).1.None? <==>
      (&& |addresses| < 65535
       && InterfacesFound(s, addresses, lookup, 0)
       && (s.default.clock == 0 ==> FirstIdentifies(addresses, lookup, 0)))
  {
    hide Sound, Named, PutPorts, RemoveEach, Surplus;
    if |addresses| < TOO_MANY {
      PutPortsOkIff(s, s, addresses, lookup, 0);
    }
  }
}
