/** The instance as an object that owns its ports, each operation proved against the state machine. */
module PtpObjects {
  import opened Wrappers
  import opened BestMaster
  import opened PtpPort
  import opened PtpInstance
  import opened PtpPortTable
  import PtpRuns

  ghost function Views(ports: seq<PortObject>): (r: seq<Port>)
    reads ports
    ensures |r| == |ports|
    ensures forall i :: 0 <= i < |ports| ==> r[i] == ports[i].View()
  {
    seq(|ports|, i requires 0 <= i < |ports| reads ports => ports[i].View())
  }

  ghost function Members(ports: seq<PortObject>): set<PortObject> {
    set p | p in ports
  }

  class InstanceObject {
    var default: DefaultDs
    var numberPorts: nat
    var parent: ParentDs
    var stepsRemoved: nat
    var calibrated: bool
    var ports: seq<PortObject>

    ghost predicate Valid()
      reads this
    {
      forall i, j :: 0 <= i < j < |ports| ==> ports[i] != ports[j]
    }

    ghost function View(): Instance
      reads this, ports
    {
      Instance(default, numberPorts, parent, stepsRemoved, calibrated, Views(ports))
    }

    constructor ()
      ensures Valid() && View() == START
    {
      default := SLAVE_ONLY_DEFAULT;
      numberPorts, stepsRemoved, calibrated, ports := 0, 0, false, [];
      parent := ParentDs(PortIdentity(0, 0), 0, Quality(255, 0xFE, 0), 128, 128);
    }

    /** Answers false when a message is needed and missing. */
    method SetRecommendedState(code: Code, message: Option<Announce>) returns (ok: bool)
      requires Valid()
      modifies this`parent, this`stepsRemoved
      ensures View() == Recommended(old(View()), code, message)
      ensures ok <==> code != S1 || message.Some?
    {
      if code == M1 || code == M2 {
        stepsRemoved := 0;
        parent := ParentDs(PortIdentity(default.clock, 0), default.clock, default.quality, default.priority1, default.priority2);
        return true;
      }
      if code == S1 {
        if message.None? {
          return false;
        }
        var m := message.value;
        stepsRemoved := 1 + m.stepsRemoved;
        parent := ParentDs(m.source, m.grandmaster, m.quality, m.priority1, m.priority2);
        return true;
      }
      return true;
    }

    method DetermineEbest() returns (ebest: Option<Best>)
      requires Valid()
      modifies ports
      ensures ports == old(ports)
      ensures var (ps, b) := Scan(old(View()).ports, 0, None);
        View() == old(View()).(ports := ps) && ebest == Ebest(ps, b)
    {
      hide NextPort, Compare, Port.ErbestSet, Scan;
      var best: Option<nat> := None;
      var i := 0;
      while i < |ports|
        invariant 0 <= i <= |ports| && unchanged(this)
        invariant best.Some? ==> best.value < i && ports[best.value].erbest.Some?
        invariant Scan(Views(ports), i, best) == Scan(old(Views(ports)), 0, None)
      {
        var port := ports[i];
        ghost var before := Views(ports);
        ScanNext(before, i, best);
        port.CalculateErbest();
        assert Views(ports) == before[i := NextPort(before[i])];
        if port.erbest.Some? {
          if best.None? {
            best := Some(i);
          } else {
            var other := ports[best.value];
            var r := Compare(SetOf(port.erbest.value, port.identity), SetOf(other.erbest.value, other.identity));
            assert r == Compare(Views(ports)[i].ErbestSet(), Views(ports)[best.value].ErbestSet()) by {
              SetOfView(port);
              SetOfView(other);
            }
            if r.IsError() {
              return None;
            }
            if r.IsBetter() {
              best := Some(i);
            }
          }
        }
        i := i + 1;
      }
      ScanEnd(Views(ports), best);
      if best.None? {
        return None;
      }
      return Some(Best(ports[best.value].erbest.value, ports[best.value].identity));
    }

    static lemma SetOfView(p: PortObject)
      requires p.erbest.Some?
      ensures p.View().ErbestSet() == SetOf(p.erbest.value, p.identity)
    {
    }

    /** Not defined without an Ebest, unless the port listens. */
    method ApplyStateDecision(i: nat, ebest: Option<Best>)
      requires Valid() && i < |ports| && Decide(View(), i, ebest).Some?
      modifies this`parent, this`stepsRemoved, ports[i]
      ensures Some(View()) == Decide(old(View()), i, ebest)
    {
      hide PtpPort.Recommend, Best.Set, SetState, StateFor, Recommended;
      var port := ports[i];
      if ebest.None? && port.state == Listening {
        return;
      }
      var code := PtpPort.Recommend(default, port.View(), Some(ebest.value.Set()));
      if code.None? {
        return;
      }
      var recommended := code.value;
      var master := recommended == M1 || recommended == M2 || recommended == M3;
      if master && default.slaveOnly {
        recommended := S1;
      }
      var _ := SetRecommendedState(recommended, Some(ebest.value.message));
      ghost var before := Views(ports);
      port.SetStateTo(StateFor(recommended, default.slaveOnly, calibrated));
      assert Views(ports) == before[i := SetState(before[i], StateFor(recommended, default.slaveOnly, calibrated))];
    }

    method ApplyToAll(ebest: Option<Best>)
      requires Valid() && DecideFrom(View(), 0, ebest).Some?
      modifies this`parent, this`stepsRemoved, ports
      ensures Valid() && ports == old(ports) && Some(View()) == DecideFrom(old(View()), 0, ebest)
    {
      hide Decide;
      var i := 0;
      while i < |ports|
        invariant 0 <= i <= |ports| && ports == old(ports) && Valid()
        invariant DecideFrom(View(), i, ebest) == DecideFrom(old(View()), 0, ebest)
      {
        ApplyStateDecision(i, ebest);
        i := i + 1;
      }
    }

    method ExecuteStateDecisionEvent()
      requires Valid() && Execute(View()).Some?
      modifies this`parent, this`stepsRemoved, ports
      ensures Valid() && ports == old(ports) && Some(View()) == Execute(old(View()))
    {
      hide Scan, DecideFrom;
      if forall k :: 0 <= k < |ports| ==> ports[k].state == Initializing {
        assert forall k :: 0 <= k < |ports| ==> View().ports[k].state == Initializing;
        return;
      }
      assert exists k :: 0 <= k < |ports| && View().ports[k].state != Initializing;
      var ebest := DetermineEbest();
      ApplyToAll(ebest);
    }

    /** An announce message received by port `i`. */
    method HandleAnnounceMessage(i: nat, m: Announce)
      requires Valid() && i < |ports| && HearAnnounce(View(), i, m).Some?
      modifies this`parent, this`stepsRemoved, ports
      ensures Valid() && ports == old(ports) && Some(View()) == HearAnnounce(old(View()), i, m)
    {
      hide Execute, Hear, Recommended;
      var port := ports[i];
      if m.source.clock == port.identity.clock {
        return;
      }
      if m.stepsRemoved >= 255 {
        return;
      }
      TakeAnnounce(i, m);
      ExecuteStateDecisionEvent();
    }

    /** Its steps before the state decision. */
    method TakeAnnounce(i: nat, m: Announce)
      requires Valid() && i < |ports|
      modifies this`parent, this`stepsRemoved, ports[i]
      ensures var s := old(View());
        var p := s.ports[i];
        var t := if (p.state == Slave || p.state == Uncalibrated) && m.source == s.parent.port then Recommended(s, S1, Some(m)) else s;
        View() == t.(ports := t.ports[i := Hear(p, s.parent.port, m)])
    {
      hide Recommended, AddOrUpdate, IsNewer;
      var port := ports[i];
      ghost var s := View();
      ghost var heard := Hear(s.ports[i], s.parent.port, m);
      if port.state == Slave || port.state == Uncalibrated {
        if m.source == parent.port {
          RecommendedKeepsPorts(s, S1, Some(m));
          var _ := SetRecommendedState(S1, Some(m));
        } else {
          port.Record(m);
        }
      } else {
        port.Record(m);
      }
      port.UpdateErbest(m);
      assert port.View() == heard;
      assert Views(ports) == s.ports[i := heard];
    }

    static lemma RecommendedKeepsPorts(s: Instance, code: Code, message: Option<Announce>)
      ensures var t := Recommended(s, code, message);
        t == s.(parent := t.parent, stepsRemoved := t.stepsRemoved)
    {
    }

    method AnnounceReceiptTimeoutExpires(i: nat)
      requires Valid() && i < |ports|
      modifies ports[i]
      ensures Valid() && View() == ExpireAnnounce(old(View()), i)
    {
      var port := ports[i];
      ghost var before := Views(ports);
      port.DropErbest();
      if default.slaveOnly {
        port.SetStateTo(Listening);
      }
      assert Views(ports) == ExpireAnnounce(old(View()), i).ports;
    }

    /** What the state decision timer does. */
    method StateDecisionTimer()
      requires Valid() && Execute(View()).Some?
      modifies this`parent, this`stepsRemoved, ports
      ensures Valid() && ports == old(ports) && Some(View()) == Step(old(View()), Tick)
    {
      hide Execute, AgedList, HearAnnounce, ExpireAnnounce, Add, PtpInstance.Remove;
      ExecuteStateDecisionEvent();
      ghost var s := View();
      var i := 0;
      while i < |ports|
        invariant 0 <= i <= |ports| && ports == old(ports) && Valid()
        invariant parent == s.parent && stepsRemoved == s.stepsRemoved
        invariant forall k :: 0 <= k < i ==> ports[k].View() == Aged(s.ports)[k]
        invariant forall k :: i <= k < |ports| ==> ports[k].View() == s.ports[k]
      {
        ports[i].IncreaseAge();
        i := i + 1;
      }
      assert Views(ports) == Aged(s.ports);
    }

    method HasPortNumber(number: nat) returns (k: nat)
      requires Valid()
      ensures k == PortAt(Views(ports), number)
    {
      k := 0;
      while k < |ports|
        invariant 0 <= k <= |ports|
        invariant forall j :: 0 <= j < k ==> ports[j].identity.number != number
      {
        if ports[k].identity.number == number {
          PortAtIs(Views(ports), number, k);
          return;
        }
        k := k + 1;
      }
      PortAtIs(Views(ports), number, k);
    }

    method AppendPort(number: nat, address: nat)
      requires Valid()
      modifies this`ports, this`numberPorts
      ensures Valid() && |ports| == |old(ports)| + 1 && ports[..|old(ports)|] == old(ports) && fresh(ports[|old(ports)|])
      ensures Views(ports) == old(Views(ports)) + [Port(PortIdentity(default.clock, number), address, Listening, [], None)]
      ensures numberPorts == |ports| % UINT16
    {
      ghost var before := Views(ports);
      var port := new PortObject(address, PortIdentity(default.clock, number));
      assert Views(ports) == before;
      ports := ports + [port];
      numberPorts := |ports| % UINT16;
      assert Views(ports) == before + [port.View()];
    }

    /** Answers the error, if any. */
    method AddPort(number: nat, address: nat, lookup: Lookup) returns (error: Option<string>)
      requires Valid()
      modifies this
      ensures Valid()
      ensures var r := Add(old(View()), number, address, lookup);
        if r.Ok? then error == None && View() == r.value else error == Some(r.error) && View() == old(View())
      ensures if error.None? then |ports| == |old(ports)| + 1 && ports[..|old(ports)|] == old(ports) && fresh(ports[|old(ports)|])
        else ports == old(ports)
    {
      hide PortAt, Views;
      var k := HasPortNumber(number);
      if k < |ports| {
        return Some("port already exists");
      }
      if lookup.NotFound? {
        return Some("network interface not found");
      }
      if default.clock == 0 {
        if lookup.NoAddress? {
          return Some("no MAC address available");
        }
        if lookup.identity == 0 {
          return Some("invalid clock identity");
        }
        default := default.(clock := lookup.identity);
      }
      AppendPort(number, address);
      return None;
    }

    method RemovePort(number: nat) returns (removed: bool)
      requires Valid()
      modifies this`ports, this`numberPorts
      ensures Valid() && View() == Remove(old(View()), number) && removed == HasPort(old(View()).ports, number)
      ensures forall p :: p in ports ==> p in old(ports)
    {
      var left := WithoutNumber(ports, number);
      ghost var before := Views(ports);
      NamedWithoutLength(before, number);
      if |left| != |ports| {
        ports := left;
        numberPorts := |ports| % UINT16;
        return true;
      }
      return false;
    }

    /** Stands for std::remove_if and the erase after it. */
    static method WithoutNumber(ports: seq<PortObject>, number: nat) returns (left: seq<PortObject>)
      requires forall i, j :: 0 <= i < j < |ports| ==> ports[i] != ports[j]
      ensures Views(left) == Without(Views(ports), number)
      ensures forall i, j :: 0 <= i < j < |left| ==> left[i] != left[j]
      ensures forall p :: p in left ==> p in ports
    {
      left := [];
      var i := |ports|;
      assert Views(ports)[i..] == [];
      while i > 0
        invariant 0 <= i <= |ports|
        invariant Views(left) == Without(Views(ports)[i..], number)
        invariant forall p :: p in left ==> p in ports[i..]
        invariant forall i, j :: 0 <= i < j < |left| ==> left[i] != left[j]
      {
        i := i - 1;
        assert Views(ports)[i..][1..] == Views(ports)[i + 1..];
        assert ports[i..] == [ports[i]] + ports[i + 1..];
        assert ports[i] !in ports[i + 1..];
        if ports[i].identity.number != number {
          ghost var rest := Views(left);
          left := [ports[i]] + left;
          assert Views(left) == [ports[i].View()] + rest;
        }
      }
    }

    static lemma NamedWithoutLength(ports: seq<Port>, number: nat)
      ensures |Without(ports, number)| == |ports| <==> !HasPort(ports, number)
    {
      PtpRuns.WithoutKeeps(ports, number);
    }

    method AddOrUpdatePort(number: nat, address: nat, lookup: Lookup) returns (error: Option<string>)
      requires Valid()
      modifies this, ports
      ensures Valid() && forall p :: p in ports ==> p in old(ports) || fresh(p)
      ensures var r := PtpPortTable.AddOrUpdatePort(old(View()), number, address, lookup);
        if r.Ok? then error == None && View() == r.value else error == Some(r.error) && View() == old(View())
    {
      hide Add, PortAt;
      var k := HasPortNumber(number);
      if k < |ports| {
        ghost var before := Views(ports);
        ports[k].SetInterface(address);
        assert Views(ports) == before[k := before[k].(address := address)];
        return None;
      }
      ghost var before := ports;
      error := AddPort(number, address, lookup);
      if error.None? {
        assert ports == before + [ports[|before|]];
      }
    }

    /** Brings the port of one address up to date. */
    method PutOne(addresses: seq<Option<nat>>, lookup: nat -> Lookup, i: nat) returns (error: Option<string>)
      requires Valid() && i < |addresses|
      modifies this, ports
      ensures Valid() && fresh(Members(ports) - old(Members(ports)))
      ensures PutPorts(old(View()), addresses, lookup, i) ==
        if error.None? then PutPorts(View(), addresses, lookup, i + 1) else (View(), error)
    {
      hide PtpPortTable.AddOrUpdatePort, Remove, Views;
      error := None;
      if addresses[i].None? {
        var _ := RemovePort(i + 1);
      } else {
        error := AddOrUpdatePort(i + 1, addresses[i].value, lookup(addresses[i].value));
      }
    }

    /** Answers the error, if any. */
    method PutAll(addresses: seq<Option<nat>>, lookup: nat -> Lookup) returns (error: Option<string>)
      requires Valid()
      modifies this, ports
      ensures Valid() && (View(), error) == PutPorts(old(View()), addresses, lookup, 0)
    {
      hide View, Valid, PutPorts;
      error := None;
      var i := 0;
      while i < |addresses|
        invariant 0 <= i <= |addresses| && Valid()
        invariant fresh(Members(ports) - old(Members(ports)))
        invariant PutPorts(View(), addresses, lookup, i) == PutPorts(old(View()), addresses, lookup, 0)
      {
        error := PutOne(addresses, lookup, i);
        if error.Some? {
          return;
        }
        i := i + 1;
      }
      PutNothing(View(), addresses, lookup);
      return None;
    }

    method RemoveAll(numbers: seq<nat>)
      requires Valid()
      modifies this`ports, this`numberPorts
      ensures Valid() && View() == RemoveEach(old(View()), numbers)
    {
      hide Remove, Views;
      var i := 0;
      assert numbers[..0] == [];
      while i < |numbers|
        invariant 0 <= i <= |numbers| && Valid() && View() == RemoveEach(old(View()), numbers[..i])
      {
        assert numbers[..i + 1][..i] == numbers[..i];
        var _ := RemovePort(numbers[i]);
        i := i + 1;
      }
      assert numbers[..i] == numbers;
    }

    /** Answers the error, if any. */
    method UpdatePorts(addresses: seq<Option<nat>>, lookup: nat -> Lookup) returns (error: Option<string>)
      requires Valid()
      modifies this, ports
      ensures Valid() && (View(), error) == PtpPortTable.UpdatePorts(old(View()), addresses, lookup)
    {
      hide PutPorts, Surplus, RemoveEach;
      if |addresses| >= TOO_MANY {
        return Some("too many ports");
      }
      error := PutAll(addresses, lookup);
      if error.Some? {
        return;
      }
      var surplus := SurplusNumbers(|addresses|);
      RemoveAll(surplus);
    }

    method SurplusNumbers(most: nat) returns (numbers: seq<nat>)
      requires Valid()
      ensures numbers == Surplus(Views(ports), most)
    {
      numbers := [];
      var i := 0;
      while i < |ports|
        invariant 0 <= i <= |ports| && numbers == Surplus(Views(ports)[..i], most)
      {
        assert Views(ports)[..i + 1][..i] == Views(ports)[..i];
        if ports[i].identity.number > most {
          numbers := numbers + [ports[i].identity.number];
        }
        i := i + 1;
      }
      assert Views(ports)[..i] == Views(ports);
    }
  }
}
