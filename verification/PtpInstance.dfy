/** A slave-only PTP instance: its ports, its parent, and every run of announce messages, timeouts,
    decisions and port changes. */
module PtpInstance {
  import opened Wrappers
  import opened BestMaster
  import opened PtpPort

  datatype ParentDs = ParentDs(port: PortIdentity, grandmaster: ClockIdentity, quality: Quality, priority1: nat, priority2: nat)

  /** `calibrated` is whether the local clock is. */
  datatype Instance = Instance(
    default: DefaultDs,
    numberPorts: nat,
    parent: ParentDs,
    stepsRemoved: nat,
    calibrated: bool,
    ports: seq<Port>)

  const SLAVE_ONLY_DEFAULT := DefaultDs(0, Quality(255, 0xFE, 0), 128, 128, true)
  const START := Instance(SLAVE_ONLY_DEFAULT, 0, ParentDs(PortIdentity(0, 0), 0, Quality(255, 0xFE, 0), 128, 128), 0, false, [])

  // ----- the decision -----

  /** An announce message and the port that received it. */
  datatype Best = Best(message: Announce, receiver: PortIdentity) {
    function Set(): DataSet {
      SetOf(message, receiver)
    }
  }

  /** Calculates the Erbest of each port in turn and keeps the position of the best; gives up, with
      the rest of the ports untouched, when a comparison fails. */
  function Scan(ports: seq<Port>, i: nat, best: Option<nat>): (r: (seq<Port>, Option<nat>))
    requires i <= |ports| && (best.Some? ==> best.value < |ports| && ports[best.value].erbest.Some?)
    ensures |r.0| == |ports| && (r.1.Some? ==> r.1.value < |ports| && r.0[r.1.value].erbest.Some?)
    decreases |ports| - i
  {
    if i == |ports| then (ports, best)
    else
      var p := NextPort(ports[i]);
      var next := if best.Some? && best.value == i then None else best;
      var ps := ports[i := p];
      if p.erbest.None? then Scan(ps, i + 1, next)
      else if next.None? then Scan(ps, i + 1, Some(i))
      else
        var r := Compare(p.ErbestSet(), ps[next.value].ErbestSet());
        if r.IsError() then (ps, None)
        else Scan(ps, i + 1, if r.IsBetter() then Some(i) else next)
  }

  function Ebest(ports: seq<Port>, best: Option<nat>): Option<Best>
    requires best.Some? ==> best.value < |ports| && ports[best.value].erbest.Some?
  {
    if best.None? then None else Some(Best(ports[best.value].erbest.value, ports[best.value].identity))
  }

  function Recommended(s: Instance, code: Code, message: Option<Announce>): Instance {
    if code == M1 || code == M2 then
      s.(stepsRemoved := 0,
         parent := ParentDs(PortIdentity(s.default.clock, 0), s.default.clock, s.default.quality, s.default.priority1, s.default.priority2))
    else if code == S1 && message.Some? then
      var m := message.value;
      s.(stepsRemoved := 1 + m.stepsRemoved,
         parent := ParentDs(m.source, m.grandmaster, m.quality, m.priority1, m.priority2))
    else s
  }

  /** The state decision for one port. Without an Ebest, a port that is not listening asks for the
      value of an empty optional: that is undefined, written None. */
  function Decide(s: Instance, i: nat, ebest: Option<Best>): Option<Instance>
    requires i < |s.ports|
  {
    var p := s.ports[i];
    if ebest.None? then if p.state == Listening then Some(s) else None
    else
      var code := Recommend(s.default, p, Some(ebest.value.Set()));
      if code.None? then Some(s)
      else
        var followed := Followed(code.value, s.default.slaveOnly);
        var t := Recommended(s, followed, Some(ebest.value.message));
        Some(t.(ports := t.ports[i := SetState(p, StateFor(followed, t.default.slaveOnly, t.calibrated))]))
  }

  function DecideFrom(s: Instance, i: nat, ebest: Option<Best>): Option<Instance>
    requires i <= |s.ports|
    decreases |s.ports| - i
  {
    if i == |s.ports| then Some(s)
    else
      var r := Decide(s, i, ebest);
      if r.None? then None else DecideFrom(r.value, i + 1, ebest)
  }

  /** The state decision event. */
  function Execute(s: Instance): Option<Instance> {
    if forall i :: 0 <= i < |s.ports| ==> s.ports[i].state == Initializing then Some(s)
    else
      var (ports, best) := Scan(s.ports, 0, None);
      DecideFrom(s.(ports := ports), 0, Ebest(ports, best))
  }

  // ----- events -----

  /** What looking up an interface and its hardware address can yield. */
  datatype Lookup = NotFound | NoAddress | Hardware(identity: ClockIdentity)

  datatype Event =
    | Heard(number: nat, message: Announce)
    | Timeout(number: nat)
    | Tick
    | Calibrate(calibrated: bool)
    | AddPort(number: nat, address: nat, lookup: Lookup)
    | RemovePort(number: nat)

  /** The position of the port with this number, or the number of ports. */
  function PortAt(ports: seq<Port>, number: nat): (k: nat)
    ensures k <= |ports|
    ensures k < |ports| ==> ports[k].identity.number == number
    ensures forall j :: 0 <= j < k ==> ports[j].identity.number != number
  {
    if ports == [] || ports[0].identity.number == number then 0 else 1 + PortAt(ports[1..], number)
  }

  predicate HasPort(ports: seq<Port>, number: nat) {
    PortAt(ports, number) < |ports|
  }

  /** The port's own share of an announce message: the list unless the message comes from the parent
      of a following port, then Erbest if the message is a newer one of its source. */
  function Hear(p: Port, parent: PortIdentity, m: Announce): Port {
    var masters :=
      if (p.state == Slave || p.state == Uncalibrated) && m.source == parent then p.masters else AddOrUpdate(p.masters, m);
    var erbest :=
      if p.IsFollowing() && p.erbest.Some? && p.erbest.value.source == m.source && IsNewer(m.sequenceId, p.erbest.value.sequenceId)
      then Some(m) else p.erbest;
    p.(masters := masters, erbest := erbest)
  }

  function HearAnnounce(s: Instance, i: nat, m: Announce): Option<Instance>
    requires i < |s.ports|
  {
    var p := s.ports[i];
    if !Qualified(m, p.identity.clock) then Some(s)
    else
      var fromParent := (p.state == Slave || p.state == Uncalibrated) && m.source == s.parent.port;
      var t := if fromParent then Recommended(s, S1, Some(m)) else s;
      Execute(t.(ports := t.ports[i := Hear(p, s.parent.port, m)]))
  }

  function ExpireAnnounce(s: Instance, i: nat): Instance
    requires i < |s.ports|
  {
    var p := s.ports[i].(erbest := None);
    s.(ports := s.ports[i := if s.default.slaveOnly then SetState(p, Listening) else p])
  }

  function Aged(ports: seq<Port>): seq<Port> {
    seq(|ports|, i requires 0 <= i < |ports| => ports[i].(masters := AgedList(ports[i].masters)))
  }

  /** The first port brings the clock identity of the instance. */
  function Add(s: Instance, number: nat, address: nat, lookup: Lookup): Result<Instance> {
    if HasPort(s.ports, number) then Err("port already exists")
    else if lookup.NotFound? then Err("network interface not found")
    else if s.default.clock == 0 && lookup.NoAddress? then Err("no MAC address available")
    else if s.default.clock == 0 && lookup.identity == 0 then Err("invalid clock identity")
    else
      var clock := if s.default.clock == 0 then lookup.identity else s.default.clock;
      var ports := s.ports + [Port(PortIdentity(clock, number), address, Listening, [], None)];
      Ok(s.(default := s.default.(clock := clock), ports := ports, numberPorts := |ports| % UINT16))
  }

  function Without(ports: seq<Port>, number: nat): seq<Port> {
    if ports == [] then []
    else if ports[0].identity.number == number then Without(ports[1..], number)
    else [ports[0]] + Without(ports[1..], number)
  }

  function Remove(s: Instance, number: nat): Instance {
    var ports := Without(s.ports, number);
    if |ports| == |s.ports| then s else s.(ports := ports, numberPorts := |ports| % UINT16)
  }

  function Step(s: Instance, e: Event): Option<Instance> {
    match e
    case Heard(number, m) =>
      var i := PortAt(s.ports, number);
      if i == |s.ports| then Some(s) else HearAnnounce(s, i, m)
    case Timeout(number) =>
      var i := PortAt(s.ports, number);
      if i == |s.ports| then Some(s) else Some(ExpireAnnounce(s, i))
    case Tick =>
      var r := Execute(s);
      if r.None? then None else Some(r.value.(ports := Aged(r.value.ports)))
    case Calibrate(calibrated) => Some(s.(calibrated := calibrated))
    case AddPort(number, address, lookup) =>
      var r := Add(s, number, address, lookup);
      if r.Err? then Some(s) else Some(r.value)
    case RemovePort(number) => Some(Remove(s, number))
  }

  /** None once the undefined case is reached. */
  function Run(es: seq<Event>): Option<Instance> {
    if es == [] then Some(START)
    else
      var r := Run(es[..|es| - 1]);
      if r.None? then None else Step(r.value, es[|es| - 1])
  }

  // ----- what every run keeps -----

  ghost predicate PortsOk(ports: seq<Port>, own: ClockIdentity) {
    (forall i :: 0 <= i < |ports| ==> PortOk(ports[i], own)) &&
    forall i, j :: 0 <= i < j < |ports| ==> ports[i].identity.number != ports[j].identity.number
  }

  predicate IsClient(p: Port) {
    p.state == Listening || p.state == Uncalibrated || p.state == Slave
  }

  /** The ports have distinct numbers and one clock, keep proper lists, and are listening,
      uncalibrated or slave. */
  ghost predicate Sound(s: Instance) {
    PortsOk(s.ports, s.default.clock) && (s.ports != [] ==> s.default.clock != 0) &&
    s.default == SLAVE_ONLY_DEFAULT.(clock := s.default.clock) &&
    s.numberPorts == |s.ports| % UINT16 &&
    forall i :: 0 <= i < |s.ports| ==> IsClient(s.ports[i])
  }

  /** What the scan makes of the ports when no comparison fails. */
  function NextPorts(ports: seq<Port>): (r: seq<Port>)
    ensures |r| == |ports| && forall i :: 0 <= i < |ports| ==> r[i] == NextPort(ports[i])
  {
    seq(|ports|, i requires 0 <= i < |ports| => NextPort(ports[i]))
  }

  lemma NextPortsOk(ports: seq<Port>, own: ClockIdentity)
    requires PortsOk(ports, own)
    ensures PortsOk(NextPorts(ports), own)
  {
    hide PortOk;
    forall i | 0 <= i < |ports|
      ensures PortOk(NextPort(ports[i]), own)
    {
      CalculateKeepsPort(ports[i], own);
    }
  }

  /** Two ports of one instance never fail to compare: their numbers differ and the senders are other
      clocks. */
  lemma PortsCompare(p: Port, q: Port, own: ClockIdentity)
    requires PortOk(p, own) && PortOk(q, own) && p.identity.number != q.identity.number
    requires p.erbest.Some? && q.erbest.Some?
    ensures !Compare(p.ErbestSet(), q.ErbestSet()).IsError()
  {
    CompareFailsIff(p.ErbestSet(), q.ErbestSet());
  }

  /** `ports` is half way through the scan of `all`. */
  ghost predicate Scanned(all: seq<Port>, ports: seq<Port>, i: nat) {
    |ports| == |all| && i <= |all| &&
    (forall j :: 0 <= j < i ==> ports[j] == NextPort(all[j])) &&
    forall j :: i <= j < |all| ==> ports[j] == all[j]
  }

  /** The better of port `i` and the best so far. */
  function Winner(ports: seq<Port>, i: nat, best: Option<nat>): (r: Option<nat>)
    requires i < |ports| && (best.Some? ==> best.value < |ports| && ports[best.value].erbest.Some?)
    ensures r.Some? ==> r.value < |ports| && ports[r.value].erbest.Some? && (r == best || r.value == i)
    ensures r.None? ==> best.None? && ports[i].erbest.None?
  {
    if ports[i].erbest.None? then best
    else if best.None? || Compare(ports[i].ErbestSet(), ports[best.value].ErbestSet()).IsBetter() then Some(i)
    else best
  }

  lemma ScanNext(ports: seq<Port>, i: nat, best: Option<nat>)
    requires i < |ports| && (best.Some? ==> best.value < i && ports[best.value].erbest.Some?)
    ensures var ps := ports[i := NextPort(ports[i])];
      Scan(ports, i, best) ==
        if ps[i].erbest.Some? && best.Some? && Compare(ps[i].ErbestSet(), ps[best.value].ErbestSet()).IsError() then (ps, None)
        else Scan(ps, i + 1, Winner(ps, i, best))
  {
    hide NextErbest, Port.ErbestSet, Compare;
  }

  lemma ScanStep(ports: seq<Port>, own: ClockIdentity, i: nat, best: Option<nat>)
    requires i < |ports| && PortOk(NextPort(ports[i]), own)
    requires best.Some? ==> best.value < i && PortOk(ports[best.value], own) && ports[best.value].erbest.Some?
    requires best.Some? ==> ports[best.value].identity.number != ports[i].identity.number
    ensures var ps := ports[i := NextPort(ports[i])];
      Scan(ports, i, best) == Scan(ps, i + 1, Winner(ps, i, best))
  {
    hide NextErbest, PortOk, Port.ErbestSet, Compare, Scan, Winner;
    var ps := ports[i := NextPort(ports[i])];
    ScanNext(ports, i, best);
    if ps[i].erbest.Some? && best.Some? {
      PortsCompare(ps[i], ps[best.value], own);
    }
  }

  lemma {:induction false} ScanReaches(all: seq<Port>, own: ClockIdentity, ports: seq<Port>, i: nat, best: Option<nat>)
    requires PortsOk(NextPorts(all), own) && Scanned(all, ports, i)
    requires best.Some? ==> best.value < i && ports[best.value].erbest.Some?
    requires best.None? ==> forall j :: 0 <= j < i ==> ports[j].erbest.None?
    ensures var (ps, b) := Scan(ports, i, best);
      ps == NextPorts(all) && (b.None? ==> forall j :: 0 <= j < |all| ==> ps[j].erbest.None?)
    decreases |all| - i
  {
    hide NextErbest, Scan, PortOk, Winner;
    if i == |all| {
      assert ports == NextPorts(all);
      ScanEnd(ports, best);
    } else {
      var ps := ports[i := NextPort(ports[i])];
      assert NextPorts(all)[i] == ps[i] && (best.Some? ==> NextPorts(all)[best.value] == ports[best.value]);
      ScanStep(ports, own, i, best);
      ScanReaches(all, own, ps, i + 1, Winner(ps, i, best));
    }
  }

  lemma ScanEnd(ports: seq<Port>, best: Option<nat>)
    requires best.Some? ==> best.value < |ports| && ports[best.value].erbest.Some?
    ensures Scan(ports, |ports|, best) == (ports, best)
  {
  }

  /** The sets of the ports' Erbests describe each grandmaster alike. */
  ghost predicate ErbestsAgree(ports: seq<Port>) {
    forall i, j :: 0 <= i < |ports| && 0 <= j < |ports| && ports[i].erbest.Some? && ports[j].erbest.Some? ==>
      Agree(ports[i].ErbestSet(), ports[j].ErbestSet())
  }

  /** Up to `i` no Erbest is better than that of `best`. */
  ghost predicate BestUpTo(ports: seq<Port>, i: nat, best: Option<nat>) {
    i <= |ports| &&
    (best.Some? ==> best.value < |ports| && ports[best.value].erbest.Some?) &&
    forall j :: 0 <= j < i && ports[j].erbest.Some? ==>
      best.Some? && !Compare(ports[j].ErbestSet(), ports[best.value].ErbestSet()).IsBetter()
  }

  lemma WinnerIsBest(ports: seq<Port>, own: ClockIdentity, i: nat, best: Option<nat>)
    requires i < |ports| && BestUpTo(ports, i, best) && ErbestsAgree(ports)
    requires forall j :: 0 <= j <= i ==> PortOk(ports[j], own)
    requires best.Some? ==> best.value < i
    ensures BestUpTo(ports, i + 1, Winner(ports, i, best))
  {
    hide Compare, ListOk;
    var w := Winner(ports, i, best);
    forall j | 0 <= j < i + 1 && ports[j].erbest.Some?
      ensures w.Some? && !Compare(ports[j].ErbestSet(), ports[w.value].ErbestSet()).IsBetter()
    {
      CompareSelf(ports[j].ErbestSet());
      if best.Some? && w == Some(i) && Compare(ports[j].ErbestSet(), ports[i].ErbestSet()).IsBetter() {
        BetterTransitive(ports[j].ErbestSet(), ports[i].ErbestSet(), ports[best.value].ErbestSet(), own);
      }
    }
  }

  lemma {:induction false} ScanIsBest(all: seq<Port>, own: ClockIdentity, ports: seq<Port>, i: nat, best: Option<nat>)
    requires PortsOk(NextPorts(all), own) && Scanned(all, ports, i) && ErbestsAgree(NextPorts(all))
    requires BestUpTo(NextPorts(all), i, best) && (best.Some? ==> best.value < i)
    ensures BestUpTo(NextPorts(all), |all|, Scan(ports, i, best).1)
    decreases |all| - i
  {
    hide NextErbest, Scan, PortOk, Winner, Compare, Agree;
    var next := NextPorts(all);
    if i == |all| {
      ScanEnd(ports, best);
    } else {
      var ps := ports[i := NextPort(ports[i])];
      assert next[i] == ps[i] && (best.Some? ==> next[best.value] == ports[best.value]);
      ScanStep(ports, own, i, best);
      WinnerIsBest(next, own, i, best);
      SameWinner(ps, next, i, best);
      ScanIsBest(all, own, ps, i + 1, Winner(ps, i, best));
    }
  }

  lemma SameWinner(ps: seq<Port>, qs: seq<Port>, i: nat, best: Option<nat>)
    requires i < |ps| == |qs| && ps[i] == qs[i]
    requires best.Some? ==> best.value < |ps| && ps[best.value] == qs[best.value] && ps[best.value].erbest.Some?
    ensures Winner(ps, i, best) == Winner(qs, i, best)
  {
  }

  /** A scan visits every port, and finds an Ebest unless no port has an Erbest. */
  lemma ScanAll(s: Instance)
    requires Sound(s)
    ensures var (ps, b) := Scan(s.ports, 0, None);
      ps == NextPorts(s.ports) && PortsOk(ps, s.default.clock) &&
      (b.None? <==> forall j :: 0 <= j < |ps| ==> ps[j].erbest.None?)
  {
    hide PortOk, Scan;
    NextPortsOk(s.ports, s.default.clock);
    ScanReaches(s.ports, s.default.clock, s.ports, 0, None);
  }

  // ----- one decision -----

  predicate AllListening(ports: seq<Port>) {
    forall i :: 0 <= i < |ports| ==> ports[i].state == Listening
  }

  /** The port after a decision with an Ebest. */
  function Decided(d: DefaultDs, calibrated: bool, p: Port, ebest: Best): Port {
    var code := Recommend(d, p, Some(ebest.Set())).value;
    SetState(p, StateFor(Followed(code, d.slaveOnly), d.slaveOnly, calibrated))
  }

  /** Everything but parent and ports. */
  ghost predicate SameConfiguration(s: Instance, t: Instance) {
    t.default == s.default && t.numberPorts == s.numberPorts && t.calibrated == s.calibrated && |t.ports| == |s.ports|
  }

  lemma DecideOne(s: Instance, i: nat, ebest: Best)
    requires i < |s.ports|
    ensures Decide(s, i, Some(ebest)).Some?
    ensures var t := Decide(s, i, Some(ebest)).value;
      SameConfiguration(s, t) && t.ports == s.ports[i := Decided(s.default, s.calibrated, s.ports[i], ebest)]
  {
    hide Compare;
  }

  lemma {:induction false} DecideRest(s: Instance, i: nat, ebest: Best)
    requires i <= |s.ports|
    ensures DecideFrom(s, i, Some(ebest)).Some?
    ensures var t := DecideFrom(s, i, Some(ebest)).value;
      SameConfiguration(s, t) && t.ports[..i] == s.ports[..i] &&
      forall j :: i <= j < |s.ports| ==> t.ports[j] == Decided(s.default, s.calibrated, s.ports[j], ebest)
    decreases |s.ports| - i
  {
    hide Decide, Decided;
    if i < |s.ports| {
      DecideOne(s, i, ebest);
      var t := Decide(s, i, Some(ebest)).value;
      DecideRest(t, i + 1, ebest);
      var u := DecideFrom(t, i + 1, Some(ebest)).value;
      assert u.ports[i] == t.ports[i] by {
        assert u.ports[..i + 1][i] == t.ports[..i + 1][i];
      }
      assert u.ports[..i] == u.ports[..i + 1][..i] == t.ports[..i + 1][..i] == s.ports[..i];
    }
  }

  lemma {:induction false} DecideWithoutEbest(s: Instance, i: nat)
    requires i <= |s.ports|
    ensures DecideFrom(s, i, None) == if AllListening(s.ports[i..]) then Some(s) else None
    decreases |s.ports| - i
  {
    if i < |s.ports| {
      DecideWithoutEbest(s, i + 1);
      assert s.ports[i..][0] == s.ports[i] && s.ports[i..][1..] == s.ports[i + 1..];
      assert AllListening(s.ports[i..]) <==> s.ports[i].state == Listening && AllListening(s.ports[i + 1..]) by {
        AllListeningSplit(s.ports[i..]);
      }
    }
  }

  lemma AllListeningSplit(ports: seq<Port>)
    requires ports != []
    ensures AllListening(ports) <==> ports[0].state == Listening && AllListening(ports[1..])
  {
    if ports[0].state == Listening && AllListening(ports[1..]) {
      forall i | 0 <= i < |ports|
        ensures ports[i].state == Listening
      {
        assert i > 0 ==> ports[i] == ports[1..][i - 1];
      }
    }
    if AllListening(ports) {
      forall i | 0 <= i < |ports| - 1
        ensures ports[1..][i].state == Listening
      {
        assert ports[1..][i] == ports[i + 1];
      }
    }
  }

  /** The Ebest of the instance. */
  function EbestOf(s: Instance): Option<Best> {
    var (ps, b) := Scan(s.ports, 0, None);
    Ebest(ps, b)
  }

  /** What one decision does: each port takes its next Erbest and then, if there is an Ebest, the
      state decided for it; if there is none, nothing more happens as long as all ports listen. */
  lemma ExecuteIs(s: Instance)
    requires Sound(s)
    ensures EbestOf(s).None? ==>
      Execute(s) == if AllListening(s.ports) then Some(s.(ports := NextPorts(s.ports))) else None
    ensures EbestOf(s).Some? ==>
      (&& Execute(s).Some?
       && SameConfiguration(s, Execute(s).value)
       && forall j :: 0 <= j < |s.ports| ==>
          Execute(s).value.ports[j] == Decided(s.default, s.calibrated, NextPorts(s.ports)[j], EbestOf(s).value))
  {
    hide Decided, DecideFrom, Scan;
    if s.ports == [] {
      EmptyScan();
      assert NextPorts(s.ports) == [];
      assert s.(ports := NextPorts(s.ports)) == s;
    } else {
      assert IsClient(s.ports[0]);
      ScanAll(s);
      var (ps, b) := Scan(s.ports, 0, None);
      var t := s.(ports := ps);
      assert t.ports[0..] == ps;
      if b.None? {
        DecideWithoutEbest(t, 0);
        assert AllListening(ps) <==> AllListening(s.ports) by {
          SameStates(s.ports);
        }
      } else {
        DecideRest(t, 0, Ebest(ps, b).value);
      }
    }
  }

  lemma EmptyScan()
    ensures Scan([], 0, None) == ([], None)
  {
  }

  lemma SameStates(ports: seq<Port>)
    ensures AllListening(NextPorts(ports)) <==> AllListening(ports)
  {
    forall i | 0 <= i < |ports|
      ensures NextPorts(ports)[i].state == ports[i].state
    {
    }
  }

  predicate AnyErbest(ports: seq<Port>) {
    exists i :: 0 <= i < |ports| && ports[i].erbest.Some?
  }

  predicate AnyCandidate(ports: seq<Port>) {
    exists i :: 0 <= i < |ports| && HasCandidate(ports[i])
  }

  lemma CandidatesWin(ports: seq<Port>)
    ensures AnyErbest(NextPorts(ports)) <==> AnyCandidate(ports)
  {
    hide NextPort, HasCandidate;
    forall i | 0 <= i < |ports|
      ensures NextPorts(ports)[i].erbest.Some? <==> HasCandidate(ports[i])
    {
      NextErbestIff(ports[i]);
    }
    if AnyErbest(NextPorts(ports)) {
      var i :| 0 <= i < |ports| && NextPorts(ports)[i].erbest.Some?;
      assert HasCandidate(ports[i]);
    }
    if AnyCandidate(ports) {
      var i :| 0 <= i < |ports| && HasCandidate(ports[i]);
      assert NextPorts(ports)[i].erbest.Some?;
    }
  }

  /** The dereference in the state decision is defined exactly when some port has an Erbest or an entry
      with enough announce messages, or all ports listen. */
  lemma DecisionDefinedIff(s: Instance)
    requires Sound(s)
    ensures Execute(s).Some? <==> AnyCandidate(s.ports) || AllListening(s.ports)
  {
    hide Execute, Scan, Decided, NextPort, HasCandidate;
    ExecuteIs(s);
    ScanAll(s);
    CandidatesWin(s.ports);
  }

  lemma DecidedPort(d: DefaultDs, calibrated: bool, p: Port, ebest: Best)
    requires d == SLAVE_ONLY_DEFAULT.(clock := d.clock)
    ensures var q := Decided(d, calibrated, p, ebest);
      q == p.(state := q.state) &&
      q.state == (if !Compare(d.Set(), ebest.Set()).IsBetter() && ebest.receiver != p.identity &&
                     (p.erbest.None? || Compare(ebest.Set(), p.ErbestSet()) == BetterByTopology) then Listening
                  else if calibrated then Slave else Uncalibrated)
  {
    hide Compare;
  }

  lemma ExecuteKeepsSound(s: Instance)
    requires Sound(s) && Execute(s).Some?
    ensures Sound(Execute(s).value) && SameConfiguration(s, Execute(s).value)
    ensures forall j :: 0 <= j < |s.ports| ==>
      Execute(s).value.ports[j] == NextPort(s.ports[j]).(state := Execute(s).value.ports[j].state)
  {
    hide Execute, Scan, Decided, NextPort, PortOk;
    ExecuteIs(s);
    NextPortsOk(s.ports, s.default.clock);
    var t := Execute(s).value;
    forall j | 0 <= j < |s.ports|
      ensures t.ports[j] == NextPorts(s.ports)[j].(state := t.ports[j].state) && IsClient(t.ports[j])
      ensures PortOk(t.ports[j], s.default.clock)
    {
      ExecuteKeepsPort(s, j);
    }
  }

  lemma ExecuteKeepsPort(s: Instance, j: nat)
    requires Sound(s) && Execute(s).Some? && j < |s.ports| == |Execute(s).value.ports|
    ensures var q := Execute(s).value.ports[j];
      q == NextPorts(s.ports)[j].(state := q.state) && IsClient(q) && PortOk(q, s.default.clock)
  {
    hide Execute, Scan, Decided, NextErbest, ListOk;
    ExecuteIs(s);
    NextPortsOk(s.ports, s.default.clock);
    if EbestOf(s).Some? {
      DecidedPort(s.default, s.calibrated, NextPorts(s.ports)[j], EbestOf(s).value);
    } else {
      assert IsClient(s.ports[j]);
    }
  }

  /** No port's Erbest is better than Ebest, in whatever order the ports are, as long as the messages
      describe each grandmaster alike. */
  lemma EbestIsBest(s: Instance, j: nat)
    requires Sound(s) && ErbestsAgree(NextPorts(s.ports)) && j < |s.ports| && NextPorts(s.ports)[j].erbest.Some?
    ensures EbestOf(s).Some? && !Compare(NextPorts(s.ports)[j].ErbestSet(), EbestOf(s).value.Set()).IsBetter()
  {
    hide PortOk, Scan, NextErbest, Compare, Agree;
    ScanAll(s);
    ScanIsBest(s.ports, s.default.clock, s.ports, 0, None);
  }

  /** Adding a port fails with the first of these reasons, and the identity that counts is that of the first
      port. */
  lemma AddIs(s: Instance, number: nat, address: nat, lookup: Lookup)
    requires Sound(s)
    ensures var r := Add(s, number, address, lookup);
      if exists j :: 0 <= j < |s.ports| && s.ports[j].identity.number == number then r == Err("port already exists")
      else if lookup.NotFound? then r == Err("network interface not found")
      else if s.default.clock == 0 && lookup.NoAddress? then r == Err("no MAC address available")
      else if s.default.clock == 0 && lookup.identity == 0 then r == Err("invalid clock identity")
      else
        && r.Ok? && r.value.ports[..|s.ports|] == s.ports && |r.value.ports| == |s.ports| + 1
        && r.value.ports[|s.ports|] == Port(PortIdentity(r.value.default.clock, number), address, Listening, [], None)
        && r.value.default.clock == (if s.ports == [] && s.default.clock == 0 then lookup.identity else s.default.clock)
        && r.value.parent == s.parent && r.value.stepsRemoved == s.stepsRemoved && r.value.calibrated == s.calibrated
  {
    hide PortOk, IsClient;
  }

  // ----- the parent -----

  /** The decision for this port is to follow Ebest. */
  predicate Follows(d: DefaultDs, p: Port, ebest: Best) {
    var code := Recommend(d, p, Some(ebest.Set()));
    code.Some? && Followed(code.value, d.slaveOnly) == S1
  }

  predicate ParentIs(s: Instance, m: Announce) {
    s.parent == ParentDs(m.source, m.grandmaster, m.quality, m.priority1, m.priority2) && s.stepsRemoved == m.stepsRemoved + 1
  }

  /** A master takes itself as the parent, at no steps; a slave takes the source of the message, at one step
      more than it announced; no other code changes anything. */
  lemma RecommendedParent(s: Instance, code: Code, m: Announce)
    ensures var t := Recommended(s, code, Some(m));
      && t == s.(parent := t.parent, stepsRemoved := t.stepsRemoved)
      && (code == M1 || code == M2 ==>
          && t.stepsRemoved == 0 && t.parent.port == PortIdentity(s.default.clock, 0) && t.parent.grandmaster == s.default.clock
          && t.parent.quality == s.default.quality && t.parent.priority1 == s.default.priority1
          && t.parent.priority2 == s.default.priority2)
      && (code == S1 ==> ParentIs(t, m))
      && (code == M3 || code == P1 || code == P2 ==> t == s)
    ensures Recommended(s, S1, None) == s
  {
  }

  lemma DecideSetsParent(s: Instance, i: nat, ebest: Best)
    requires i < |s.ports| && s.default.slaveOnly
    ensures var t := Decide(s, i, Some(ebest)).value;
      if Follows(s.default, s.ports[i], ebest) then ParentIs(t, ebest.message)
      else t.parent == s.parent && t.stepsRemoved == s.stepsRemoved
  {
    hide Compare;
  }

  lemma {:induction false} DecideFromSetsParent(s: Instance, i: nat, ebest: Best, j: nat)
    requires i <= |s.ports| && j < |s.ports| && s.default.slaveOnly
    requires ParentIs(s, ebest.message) || (i <= j && Follows(s.default, s.ports[j], ebest))
    ensures DecideFrom(s, i, Some(ebest)).Some? && ParentIs(DecideFrom(s, i, Some(ebest)).value, ebest.message)
    decreases |s.ports| - i
  {
    hide Decide, Follows, ParentIs, Decided;
    if i < |s.ports| {
      DecideOne(s, i, ebest);
      DecideSetsParent(s, i, ebest);
      var t := Decide(s, i, Some(ebest)).value;
      if !Follows(s.default, s.ports[i], ebest) {
        SameParent(s, t, ebest.message);
      }
      DecideFromSetsParent(t, i + 1, ebest, j);
    }
  }

  lemma SameParent(s: Instance, t: Instance, m: Announce)
    requires t.parent == s.parent && t.stepsRemoved == s.stepsRemoved
    ensures ParentIs(s, m) <==> ParentIs(t, m)
  {
  }

  /** The port with this identity is slave, or uncalibrated while the clock is. */
  predicate ReceiverSlaves(t: Instance, receiver: PortIdentity) {
    exists j :: 0 <= j < |t.ports| && t.ports[j].identity == receiver &&
      (t.ports[j].state == if t.calibrated then Slave else Uncalibrated)
  }

  /** A decision with an Ebest makes its source the parent, at one step more than it announced, and the
      port that received it slave or uncalibrated. */
  lemma DecisionFollowsEbest(s: Instance)
    requires Sound(s) && EbestOf(s).Some?
    ensures Execute(s).Some? && ParentIs(Execute(s).value, EbestOf(s).value.message)
    ensures ReceiverSlaves(Execute(s).value, EbestOf(s).value.receiver)
  {
    hide Scan, DecideFrom, NextErbest, Compare, PortOk, ParentIs, Decided;
    ScanAll(s);
    ExecuteIs(s);
    var (ps, b) := Scan(s.ports, 0, None);
    var (j, ebest) := (b.value, EbestOf(s).value);
    assert IsClient(s.ports[0]);
    assert ps[j].identity == ebest.receiver;
    DecidedPort(s.default, s.calibrated, ps[j], ebest);
    ReceiverFollows(s.default, ps[j], ebest);
    DecideFromSetsParent(s.(ports := ps), 0, ebest, j);
  }

  lemma ReceiverFollows(d: DefaultDs, p: Port, ebest: Best)
    requires d.slaveOnly && d.quality.clockClass == 255 && ebest.receiver == p.identity
    ensures Follows(d, p, ebest)
  {
    hide Compare;
  }
}
