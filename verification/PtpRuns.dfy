/** What holds in every run of a PTP instance. */
module PtpRuns {
  import opened Wrappers
  import opened BestMaster
  import opened PtpPort
  import opened PtpInstance

  // ----- every step keeps the instance sound -----

  lemma HearKeepsPort(p: Port, parent: PortIdentity, m: Announce, own: ClockIdentity)
    requires PortOk(p, own) && Qualified(m, own)
    ensures PortOk(Hear(p, parent, m), own)
  {
    hide EntryOk;
    AddKeepsList(p.masters, m, own);
    if p.erbest.Some? {
      AddKeepsKnown(p.masters, m, p.erbest.value.source);
    }
  }

  lemma AddKeepsKnown(list: seq<Entry>, m: Announce, source: PortIdentity)
    requires Knows(list, source)
    ensures Knows(AddOrUpdate(list, m), source)
  {
    var k := Find(list, source);
    assert AddOrUpdate(list, m)[k].identity == source;
    KnowsIff(AddOrUpdate(list, m), source);
  }

  lemma ReplaceKeepsSound(s: Instance, i: nat, p: Port)
    requires Sound(s) && i < |s.ports|
    requires PortOk(p, s.default.clock) && IsClient(p) && p.identity == s.ports[i].identity
    ensures Sound(s.(ports := s.ports[i := p]))
  {
    hide PortOk, IsClient;
  }

  lemma HearKeepsSound(s: Instance, i: nat, m: Announce)
    requires Sound(s) && i < |s.ports| && HearAnnounce(s, i, m).Some?
    ensures Sound(HearAnnounce(s, i, m).value)
  {
    hide Execute, PortOk, Hear, Recommended, Qualified;
    var p := s.ports[i];
    OwnIdentity(s, i);
    if Qualified(m, s.default.clock) {
      HearKeepsPort(p, s.parent.port, m, s.default.clock);
      HearKeepsRest(p, s.parent.port, m);
      ReplaceKeepsSound(s, i, Hear(p, s.parent.port, m));
      RecommendedKeeps(s, m);
      var t := if (p.state == Slave || p.state == Uncalibrated) && m.source == s.parent.port
        then Recommended(s, S1, Some(m)) else s;
      ExecuteKeepsSound(t.(ports := t.ports[i := Hear(p, s.parent.port, m)]));
    }
  }

  lemma OwnIdentity(s: Instance, i: nat)
    requires Sound(s) && i < |s.ports|
    ensures s.ports[i].identity.clock == s.default.clock && IsClient(s.ports[i])
  {
  }

  lemma HearKeepsRest(p: Port, parent: PortIdentity, m: Announce)
    ensures var q := Hear(p, parent, m);
      q.identity == p.identity && q.state == p.state && (q.erbest.Some? <==> p.erbest.Some?)
  {
  }

  lemma RecommendedKeeps(s: Instance, m: Announce)
    ensures var t := Recommended(s, S1, Some(m));
      SameConfiguration(s, t) && t.ports == s.ports
  {
  }

  lemma AgedKeepsSound(s: Instance)
    requires Sound(s)
    ensures Sound(s.(ports := Aged(s.ports)))
  {
    hide ListOk, Qualified;
    forall i | 0 <= i < |s.ports|
      ensures PortOk(Aged(s.ports)[i], s.default.clock)
    {
      var p := s.ports[i];
      AgeKeepsList(p.masters, s.default.clock);
      if p.erbest.Some? {
        var k := Find(p.masters, p.erbest.value.source);
        assert AgedList(p.masters)[k].identity == p.erbest.value.source;
        KnowsIff(AgedList(p.masters), p.erbest.value.source);
      }
    }
  }

  lemma {:induction false} WithoutKeeps(ports: seq<Port>, number: nat)
    ensures |Without(ports, number)| <= |ports|
    ensures |Without(ports, number)| == |ports| <==> !HasPort(ports, number)
    ensures forall p :: p in Without(ports, number) <==> p in ports && p.identity.number != number
  {
    if ports != [] {
      WithoutKeeps(ports[1..], number);
      assert ports == [ports[0]] + ports[1..];
    }
  }

  lemma {:induction false} WithoutKeepsPorts(ports: seq<Port>, number: nat, own: ClockIdentity)
    requires PortsOk(ports, own)
    ensures PortsOk(Without(ports, number), own)
  {
    hide PortOk;
    if ports != [] {
      var rest := ports[1..];
      WithoutKeepsPorts(rest, number, own);
      WithoutKeeps(rest, number);
      forall j | 0 <= j < |Without(rest, number)|
        ensures Without(rest, number)[j].identity.number != ports[0].identity.number
      {
        assert Without(rest, number)[j] in rest;
      }
    }
  }

  lemma RemoveKeepsSound(s: Instance, number: nat)
    requires Sound(s)
    ensures Sound(Remove(s, number))
  {
    hide PortOk, IsClient;
    var ports := Without(s.ports, number);
    WithoutKeepsPorts(s.ports, number, s.default.clock);
    WithoutKeeps(s.ports, number);
    forall i | 0 <= i < |ports|
      ensures IsClient(ports[i])
    {
      assert ports[i] in s.ports;
    }
  }

  lemma AddKeepsSound(s: Instance, number: nat, address: nat, lookup: Lookup)
    requires Sound(s) && Add(s, number, address, lookup).Ok?
    ensures Sound(Add(s, number, address, lookup).value)
  {
  }

  lemma ExpireKeepsSound(s: Instance, i: nat)
    requires Sound(s) && i < |s.ports|
    ensures Sound(ExpireAnnounce(s, i))
  {
    hide ListOk;
    ReplaceKeepsSound(s, i, s.ports[i].(erbest := None, state := Listening));
  }

  lemma StepKeepsSound(s: Instance, e: Event)
    requires Sound(s) && Step(s, e).Some?
    ensures Sound(Step(s, e).value)
  {
    hide Sound, Execute, HearAnnounce, ExpireAnnounce, Add, Remove, Aged;
    match e
    case Heard(number, m) =>
      if HasPort(s.ports, number) {
        HearKeepsSound(s, PortAt(s.ports, number), m);
      }
    case Timeout(number) =>
      if HasPort(s.ports, number) {
        ExpireKeepsSound(s, PortAt(s.ports, number));
      }
    case Tick =>
      ExecuteKeepsSound(s);
      AgedKeepsSound(Execute(s).value);
    case Calibrate(calibrated) =>
      CalibrateKeepsSound(s, calibrated);
    case AddPort(number, address, lookup) =>
      if Add(s, number, address, lookup).Ok? {
        AddKeepsSound(s, number, address, lookup);
      }
    case RemovePort(number) =>
      RemoveKeepsSound(s, number);
  }

  lemma CalibrateKeepsSound(s: Instance, calibrated: bool)
    requires Sound(s)
    ensures Sound(s.(calibrated := calibrated))
  {
  }

  /** In every run no port is ever a master, pre-master or passive, every Erbest is qualified and its
      source is in the port's list, no count outlives its time window, and the port numbers are
      distinct. */
  lemma {:induction false} RunsAreSound(es: seq<Event>)
    requires Run(es).Some?
    ensures Sound(Run(es).value)
    ensures var d := Run(es).value.default; d == DefaultDs(d.clock, Quality(255, 0xFE, 0), 128, 128, true)
  {
    hide Sound, Step;
    if es == [] {
      StartIsSound();
    } else {
      RunsAreSound(es[..|es| - 1]);
      StepKeepsSound(Run(es[..|es| - 1]).value, es[|es| - 1]);
    }
    SoundDefault(Run(es).value);
  }

  lemma SoundDefault(s: Instance)
    requires Sound(s)
    ensures s.default == DefaultDs(s.default.clock, Quality(255, 0xFE, 0), 128, 128, true)
  {
  }

  lemma StartIsSound()
    ensures Sound(START)
  {
  }

  /** In every run the assertions on entry to the calculation of Erbest hold, whether a message
      precedes it or not. */
  lemma AssertsHold(es: seq<Event>, i: nat, m: Announce)
    requires Run(es).Some? && i < |Run(es).value.ports|
    ensures var s := Run(es).value;
      ErbestAsserted(s.ports[i]) &&
      (Qualified(m, s.default.clock) ==> ErbestAsserted(Hear(s.ports[i], s.parent.port, m)))
  {
    hide PortOk, ErbestAsserted, Run, Hear, Qualified;
    RunsAreSound(es);
    var s := Run(es).value;
    OkMeetsAsserts(s.ports[i], s.default.clock);
    if Qualified(m, s.default.clock) {
      HearKeepsPort(s.ports[i], s.parent.port, m, s.default.clock);
      OkMeetsAsserts(Hear(s.ports[i], s.parent.port, m), s.default.clock);
    }
  }

  // ----- when the dereference is defined -----

  /** Every port that does not listen has an Erbest. */
  predicate Anchored(ports: seq<Port>) {
    forall i :: 0 <= i < |ports| ==> ports[i].state == Listening || ports[i].erbest.Some?
  }

  predicate AllErbest(ports: seq<Port>) {
    forall i :: 0 <= i < |ports| ==> ports[i].erbest.Some?
  }

  /** The own data set does not beat Ebest, unless every port has an Erbest of its own. */
  predicate SafeDecision(s: Instance) {
    EbestOf(s).None? || !Compare(s.default.Set(), EbestOf(s).value.Set()).IsBetter() || AllErbest(NextPorts(s.ports))
  }

  lemma DecidedAnchored(d: DefaultDs, calibrated: bool, p: Port, ebest: Best)
    requires d == SLAVE_ONLY_DEFAULT.(clock := d.clock) && (ebest.receiver == p.identity ==> p.erbest.Some?)
    ensures var q := Decided(d, calibrated, p, ebest);
      (q.state == Listening || q.erbest.Some?) <==> !Compare(d.Set(), ebest.Set()).IsBetter() || p.erbest.Some?
  {
    hide Compare, Decided;
    DecidedPort(d, calibrated, p, ebest);
  }

  lemma EbestReceiver(s: Instance, j: nat)
    requires Sound(s) && EbestOf(s).Some? && j < |s.ports|
    requires EbestOf(s).value.receiver == NextPorts(s.ports)[j].identity
    ensures NextPorts(s.ports)[j].erbest.Some?
  {
    hide Scan, PortOk, NextPort;
    ScanAll(s);
    var (ps, b) := Scan(s.ports, 0, None);
    assert ps[b.value].identity.number == ps[j].identity.number;
  }

  /** From a state where every port that does not listen has an Erbest a decision is defined, and it
      leads to such a state exactly when it is safe. */
  lemma DecisionAnchors(s: Instance)
    requires Sound(s) && Anchored(s.ports)
    ensures Execute(s).Some? && (Anchored(Execute(s).value.ports) <==> SafeDecision(s))
  {
    hide Execute, Scan, Decided, NextPort, PortOk, Compare, EbestOf;
    ExecuteIs(s);
    var ps := NextPorts(s.ports);
    ErbestStays(s);
    if EbestOf(s).None? {
      NoEbestListens(s);
    } else {
      var beaten := Compare(s.default.Set(), EbestOf(s).value.Set()).IsBetter();
      forall j | 0 <= j < |s.ports|
        ensures var q := Execute(s).value.ports[j];
          (q.state == Listening || q.erbest.Some?) <==> !beaten || ps[j].erbest.Some?
      {
        if EbestOf(s).value.receiver == ps[j].identity {
          EbestReceiver(s, j);
        }
        DecidedAnchored(s.default, s.calibrated, ps[j], EbestOf(s).value);
      }
    }
  }

  lemma ErbestStays(s: Instance)
    requires Sound(s)
    ensures forall j :: 0 <= j < |s.ports| ==>
      NextPorts(s.ports)[j].state == s.ports[j].state &&
      (s.ports[j].erbest.Some? ==> NextPorts(s.ports)[j].erbest.Some?)
  {
    forall j | 0 <= j < |s.ports|
      ensures s.ports[j].erbest.Some? ==> NextPort(s.ports[j]).erbest.Some?
    {
      CalculateKeepsPort(s.ports[j], s.default.clock);
    }
  }

  lemma NoEbestListens(s: Instance)
    requires Sound(s) && Anchored(s.ports) && EbestOf(s).None?
    ensures AllListening(s.ports) && Anchored(NextPorts(s.ports))
  {
    hide Scan, NextPort, PortOk;
    ScanAll(s);
    ErbestStays(s);
  }

  /** The state in which an event makes the state decision, if it makes one. */
  function DecidingState(s: Instance, e: Event): Option<Instance> {
    match e
    case Heard(number, m) =>
      var i := PortAt(s.ports, number);
      if i == |s.ports| || !Qualified(m, s.ports[i].identity.clock) then None
      else
        var p := s.ports[i];
        var t := if (p.state == Slave || p.state == Uncalibrated) && m.source == s.parent.port
          then Recommended(s, S1, Some(m)) else s;
        Some(t.(ports := t.ports[i := Hear(p, s.parent.port, m)]))
    case Tick => Some(s)
    case _ => None
  }

  predicate SafeStep(s: Instance, e: Event) {
    DecidingState(s, e).Some? ==> SafeDecision(DecidingState(s, e).value)
  }

  /** Every decision of the run is safe. */
  predicate SafeRun(es: seq<Event>) {
    es == [] || (SafeRun(es[..|es| - 1]) && (Run(es[..|es| - 1]).Some? ==> SafeStep(Run(es[..|es| - 1]).value, es[|es| - 1])))
  }

  function Expired(p: Port, state: State): Port {
    p.(erbest := None, state := state)
  }

  /** A port as it is after an event without a state decision: unchanged, without its Erbest, or new. */
  ghost predicate LeftOver(s: Instance, q: Port) {
    q in s.ports ||
    (q.erbest.None? && (q.masters == [] || exists k :: 0 <= k < |s.ports| && q == Expired(s.ports[k], q.state)))
  }

  lemma OtherStepPorts(s: Instance, e: Event, j: nat)
    requires DecidingState(s, e).None? && Step(s, e).Some? && j < |Step(s, e).value.ports|
    ensures LeftOver(s, Step(s, e).value.ports[j])
  {
    hide Recommended, Qualified, Execute, Hear, PortAt;
    if e.RemovePort? {
      WithoutKeeps(s.ports, e.number);
      assert Without(s.ports, e.number)[j] in Without(s.ports, e.number);
    } else if e.Timeout? {
      var i := PortAt(s.ports, e.number);
      if j == i {
        assert Step(s, e).value.ports[j] == Expired(s.ports[i], Step(s, e).value.ports[j].state);
      }
    }
  }

  lemma OtherStepDefault(s: Instance, e: Event)
    requires Sound(s) && DecidingState(s, e).None? && Step(s, e).Some?
    ensures Step(s, e).value.default == s.default || s.ports == []
  {
    hide Recommended, Qualified, Execute, Hear, PortAt, PortOk, IsClient;
  }

  lemma DecidingStateSound(s: Instance, e: Event)
    requires Sound(s) && DecidingState(s, e).Some?
    ensures Sound(DecidingState(s, e).value)
    ensures Anchored(s.ports) ==> Anchored(DecidingState(s, e).value.ports)
  {
    hide Execute, PortOk, Hear, Recommended, Qualified;
    if e.Heard? {
      var (i, m) := (PortAt(s.ports, e.number), e.message);
      OwnIdentity(s, i);
      HearKeepsPort(s.ports[i], s.parent.port, m, s.default.clock);
      HearKeepsRest(s.ports[i], s.parent.port, m);
      ReplaceKeepsSound(s, i, Hear(s.ports[i], s.parent.port, m));
      RecommendedKeeps(s, m);
    }
  }

  lemma SafeStepDefined(s: Instance, e: Event)
    requires Sound(s) && Anchored(s.ports) && SafeStep(s, e)
    ensures Step(s, e).Some? && Anchored(Step(s, e).value.ports)
  {
    hide Sound, Execute, SafeDecision, Hear, Recommended, Qualified;
    if DecidingState(s, e).Some? {
      DecidingStateSound(s, e);
      DecisionAnchors(DecidingState(s, e).value);
    } else if e.RemovePort? {
      WithoutKeeps(s.ports, e.number);
      forall i | 0 <= i < |Without(s.ports, e.number)|
        ensures Without(s.ports, e.number)[i] in s.ports
      {
      }
    } else if e.Timeout? {
      assert HasPort(s.ports, e.number) ==> s.default.slaveOnly by {
        SoundSlaveOnly(s);
      }
    }
  }

  lemma SoundSlaveOnly(s: Instance)
    requires Sound(s)
    ensures s.default.slaveOnly
  {
  }

  /** A run whose decisions are safe never reaches the undefined dereference, and after each step every
      port that does not listen has an Erbest. */
  lemma {:induction false} SafeRunsDefined(es: seq<Event>)
    requires SafeRun(es)
    ensures Run(es).Some? && Anchored(Run(es).value.ports)
  {
    hide Sound, Step, SafeStep;
    if es != [] {
      SafeRunsDefined(es[..|es| - 1]);
      RunsAreSound(es[..|es| - 1]);
      SafeStepDefined(Run(es[..|es| - 1]).value, es[|es| - 1]);
    }
  }

  // ----- messages that the own data set does not beat -----

  /** The own data set does not compare better than the message. */
  predicate Yields(d: DefaultDs, m: Announce, receiver: PortIdentity) {
    !Compare(d.Set(), SetOf(m, receiver)).IsBetter()
  }

  ghost predicate PortYields(d: DefaultDs, p: Port) {
    (p.erbest.Some? ==> Yields(d, p.erbest.value, p.identity)) &&
    forall k :: 0 <= k < |p.masters| && p.masters[k].latest.Some? ==> Yields(d, p.masters[k].latest.value, p.identity)
  }

  ghost predicate AllYield(s: Instance) {
    forall i :: 0 <= i < |s.ports| ==> PortYields(s.default, s.ports[i])
  }

  /** A message that reaches a port is not beaten by the own data set. */
  predicate Tame(s: Instance, e: Event) {
    e.Heard? && HasPort(s.ports, e.number) ==> Yields(s.default, e.message, s.ports[PortAt(s.ports, e.number)].identity)
  }

  predicate TameRun(es: seq<Event>) {
    es == [] || (TameRun(es[..|es| - 1]) && (Run(es[..|es| - 1]).Some? ==> Tame(Run(es[..|es| - 1]).value, es[|es| - 1])))
  }

  lemma NextYields(d: DefaultDs, p: Port, own: ClockIdentity)
    requires PortYields(d, p) && PortOk(p, own)
    ensures PortYields(d, NextPort(p))
  {
    hide Yields, NextErbest, IsPurged, EntryOk;
    NextErbestSource(p);
    PurgeKeepsList(p.masters, NextErbest(p), own);
    forall k | 0 <= k < |NextPort(p).masters| && NextPort(p).masters[k].latest.Some?
      ensures Yields(d, NextPort(p).masters[k].latest.value, p.identity)
    {
      assert NextPort(p).masters[k] in p.masters;
    }
  }

  lemma HearYields(d: DefaultDs, p: Port, parent: PortIdentity, m: Announce)
    requires PortYields(d, p) && Yields(d, m, p.identity)
    ensures PortYields(d, Hear(p, parent, m))
  {
    hide Yields;
  }

  lemma EbestYields(s: Instance)
    requires Sound(s) && AllYield(s)
    ensures SafeDecision(s)
  {
    hide Compare, Scan, NextPort;
    ScanAll(s);
    var (ps, b) := Scan(s.ports, 0, None);
    if b.Some? {
      NextYields(s.default, s.ports[b.value], s.default.clock);
    }
  }

  lemma ExecuteYields(s: Instance)
    requires Sound(s) && AllYield(s) && Execute(s).Some?
    ensures AllYield(Execute(s).value)
  {
    hide Sound, Execute, NextPort, PortYields;
    ExecuteKeepsSound(s);
    forall j | 0 <= j < |s.ports|
      ensures PortYields(s.default, Execute(s).value.ports[j])
    {
      SoundPort(s, j);
      NextYields(s.default, s.ports[j], s.default.clock);
      StateDoesNotMatter(s.default, NextPort(s.ports[j]), Execute(s).value.ports[j].state);
    }
  }

  lemma SoundPort(s: Instance, j: nat)
    requires Sound(s) && j < |s.ports|
    ensures PortOk(s.ports[j], s.default.clock)
  {
  }

  lemma StateDoesNotMatter(d: DefaultDs, p: Port, state: State)
    requires PortYields(d, p)
    ensures PortYields(d, p.(state := state))
  {
  }

  lemma DecidingStateYields(s: Instance, e: Event)
    requires Sound(s) && AllYield(s) && Tame(s, e) && DecidingState(s, e).Some?
    ensures AllYield(DecidingState(s, e).value)
  {
    hide Sound, Yields, Hear, Recommended, Qualified, PortYields;
    if e.Heard? {
      var i := PortAt(s.ports, e.number);
      HearYields(s.default, s.ports[i], s.parent.port, e.message);
      RecommendedKeeps(s, e.message);
    }
  }

  lemma AgedYields(d: DefaultDs, p: Port)
    requires PortYields(d, p)
    ensures PortYields(d, p.(masters := AgedList(p.masters)))
  {
    hide Yields;
  }

  lemma OtherStepYields(s: Instance, e: Event)
    requires Sound(s) && AllYield(s) && DecidingState(s, e).None? && Step(s, e).Some?
    ensures AllYield(Step(s, e).value)
  {
    hide PortYields, Sound, Step, DecidingState, LeftOver;
    var t := Step(s, e).value;
    OtherStepDefault(s, e);
    forall j | 0 <= j < |t.ports|
      ensures PortYields(t.default, t.ports[j])
    {
      OtherStepPorts(s, e, j);
      LeftOverYields(s, t.default, t.ports[j]);
    }
  }

  lemma LeftOverYields(s: Instance, d: DefaultDs, q: Port)
    requires AllYield(s) && LeftOver(s, q) && (d == s.default || s.ports == [])
    ensures PortYields(d, q)
  {
    hide Yields;
    if q !in s.ports && q.masters != [] {
      var k :| 0 <= k < |s.ports| && q == Expired(s.ports[k], q.state);
      assert PortYields(d, s.ports[k]);
    }
  }

  lemma StepYields(s: Instance, e: Event)
    requires Sound(s) && AllYield(s) && Tame(s, e) && Step(s, e).Some?
    ensures AllYield(Step(s, e).value)
  {
    hide Sound, AllYield, Execute, Hear, Recommended, Qualified;
    if DecidingState(s, e).None? {
      OtherStepYields(s, e);
    } else {
      DecidingStateYields(s, e);
      DecidingStateSound(s, e);
      ExecuteYields(DecidingState(s, e).value);
      if e.Tick? {
        AllAgedYield(Execute(s).value);
      }
    }
  }

  lemma AllAgedYield(s: Instance)
    requires AllYield(s)
    ensures AllYield(s.(ports := Aged(s.ports)))
  {
    hide PortYields;
    forall i | 0 <= i < |s.ports|
      ensures PortYields(s.default, Aged(s.ports)[i])
    {
      AgedYields(s.default, s.ports[i]);
    }
  }

  /** When no message that reaches a port is beaten by the own data set, every decision is safe: the
      dereference is defined in the whole run, and every slave or uncalibrated port has an Erbest. */
  lemma {:induction false} TameRunsSafe(es: seq<Event>)
    requires TameRun(es)
    ensures SafeRun(es) && Run(es).Some? && Anchored(Run(es).value.ports) && AllYield(Run(es).value)
  {
    hide Sound, Step, SafeStep, AllYield, Tame;
    if es == [] {
      StartYields();
    } else {
      var s := es[..|es| - 1];
      TameRunsSafe(s);
      RunsAreSound(s);
      TameStepSafe(Run(s).value, es[|es| - 1]);
      SafeRunsDefined(es);
      StepYields(Run(s).value, es[|es| - 1]);
    }
  }

  lemma StartYields()
    ensures AllYield(START)
  {
  }

  lemma TameStepSafe(s: Instance, e: Event)
    requires Sound(s) && AllYield(s) && Tame(s, e)
    ensures SafeStep(s, e)
  {
    hide Sound, AllYield, Tame, SafeDecision, DecidingState;
    if DecidingState(s, e).Some? {
      DecidingStateYields(s, e);
      DecidingStateSound(s, e);
      EbestYields(DecidingState(s, e).value);
    }
  }

  // ----- instances of one port -----

  predicate OnePortRun(es: seq<Event>) {
    es == [] || (OnePortRun(es[..|es| - 1]) && (Run(es[..|es| - 1]).Some? ==> |Run(es[..|es| - 1]).value.ports| <= 1))
  }

  lemma OnePortSafe(s: Instance)
    requires Sound(s) && |s.ports| <= 1
    ensures SafeDecision(s)
  {
    hide PortOk, Scan, NextPort, Compare;
    ScanAll(s);
  }

  lemma OnePortStepSafe(s: Instance, e: Event)
    requires Sound(s) && |s.ports| <= 1
    ensures SafeStep(s, e)
  {
    hide Sound, SafeDecision, Hear, Recommended, Qualified;
    if DecidingState(s, e).Some? {
      DecidingStateSound(s, e);
      if e.Heard? {
        RecommendedKeeps(s, e.message);
      }
      OnePortSafe(DecidingState(s, e).value);
    }
  }

  /** With never more than one port the dereference is always defined, whatever is heard. */
  lemma {:induction false} OnePortRunsSafe(es: seq<Event>)
    requires OnePortRun(es)
    ensures SafeRun(es) && Run(es).Some?
  {
    hide Sound, Step, SafeStep;
    if es != [] {
      OnePortRunsSafe(es[..|es| - 1]);
      RunsAreSound(es[..|es| - 1]);
      OnePortStepSafe(Run(es[..|es| - 1]).value, es[|es| - 1]);
    }
    SafeRunsDefined(es);
  }

  // ----- how many messages it takes -----

  /** How many messages of `source` have been sent to the port with this number. */
  function HeardCount(es: seq<Event>, number: nat, source: PortIdentity): nat {
    if es == [] then 0
    else
      var e := es[|es| - 1];
      HeardCount(es[..|es| - 1], number, source) +
      if e.Heard? && e.number == number && e.message.source == source then 1 else 0
  }

  ghost predicate PortCounts(p: Port, es: seq<Event>) {
    (forall k :: 0 <= k < |p.masters| ==>
      p.masters[k].announces < HeardCount(es, p.identity.number, p.masters[k].identity)) &&
    (p.erbest.Some? ==> HeardCount(es, p.identity.number, p.erbest.value.source) > FOREIGN_MASTER_THRESHOLD)
  }

  ghost predicate AllCount(s: Instance, es: seq<Event>) {
    forall i :: 0 <= i < |s.ports| ==> PortCounts(s.ports[i], es)
  }

  lemma HeardCountSnoc(es: seq<Event>, e: Event, number: nat, source: PortIdentity)
    ensures HeardCount(es + [e], number, source) == HeardCount(es, number, source) +
      if e.Heard? && e.number == number && e.message.source == source then 1 else 0
  {
    assert (es + [e])[..|es|] == es;
  }

  lemma CountsStay(p: Port, es: seq<Event>, e: Event)
    requires PortCounts(p, es)
    ensures PortCounts(p, es + [e])
  {
    hide HeardCount;
    forall k | 0 <= k < |p.masters|
      ensures p.masters[k].announces < HeardCount(es + [e], p.identity.number, p.masters[k].identity)
    {
      HeardCountSnoc(es, e, p.identity.number, p.masters[k].identity);
    }
    if p.erbest.Some? {
      HeardCountSnoc(es, e, p.identity.number, p.erbest.value.source);
    }
  }

  lemma CountsHear(p: Port, parent: PortIdentity, m: Announce, es: seq<Event>)
    requires PortCounts(p, es)
    ensures PortCounts(Hear(p, parent, m), es + [Heard(p.identity.number, m)])
  {
    hide HeardCount, IsNewer;
    var e := Heard(p.identity.number, m);
    CountsStay(p, es, e);
    HeardCountSnoc(es, e, p.identity.number, m.source);
  }

  lemma CountsNext(p: Port, es: seq<Event>, own: ClockIdentity)
    requires PortCounts(p, es) && PortOk(p, own)
    ensures PortCounts(NextPort(p), es)
  {
    hide HeardCount, NextErbest, IsPurged;
    NextErbestSource(p);
    PurgeKeepsList(p.masters, NextErbest(p), own);
    forall k | 0 <= k < |NextPort(p).masters|
      ensures NextPort(p).masters[k] in p.masters
    {
    }
  }

  lemma CountsAged(p: Port, es: seq<Event>)
    requires PortCounts(p, es)
    ensures PortCounts(p.(masters := AgedList(p.masters)), es)
  {
    hide HeardCount;
  }

  lemma ExecuteCounts(s: Instance, es: seq<Event>)
    requires Sound(s) && AllCount(s, es) && Execute(s).Some?
    ensures AllCount(Execute(s).value, es)
  {
    hide Sound, Execute, NextPort, HeardCount;
    ExecuteKeepsSound(s);
    forall j | 0 <= j < |s.ports|
      ensures PortCounts(Execute(s).value.ports[j], es)
    {
      SoundPort(s, j);
      CountsNext(s.ports[j], es, s.default.clock);
    }
  }

  lemma AllCountsStay(s: Instance, es: seq<Event>, e: Event)
    requires AllCount(s, es)
    ensures AllCount(s, es + [e])
  {
    hide PortCounts;
    forall i | 0 <= i < |s.ports|
      ensures PortCounts(s.ports[i], es + [e])
    {
      CountsStay(s.ports[i], es, e);
    }
  }

  lemma DecidingStateCounts(s: Instance, es: seq<Event>, e: Event)
    requires AllCount(s, es) && DecidingState(s, e).Some?
    ensures AllCount(DecidingState(s, e).value, es + [e])
  {
    hide PortCounts, Hear, Recommended, Qualified;
    AllCountsStay(s, es, e);
    if e.Heard? {
      var i := PortAt(s.ports, e.number);
      CountsHear(s.ports[i], s.parent.port, e.message, es);
      RecommendedKeeps(s, e.message);
    }
  }

  lemma OtherStepCounts(s: Instance, es: seq<Event>, e: Event)
    requires AllCount(s, es) && DecidingState(s, e).None? && Step(s, e).Some?
    ensures AllCount(Step(s, e).value, es + [e])
  {
    hide PortCounts, Step, DecidingState, LeftOver;
    AllCountsStay(s, es, e);
    forall j | 0 <= j < |Step(s, e).value.ports|
      ensures PortCounts(Step(s, e).value.ports[j], es + [e])
    {
      OtherStepPorts(s, e, j);
      LeftOverCounts(s, Step(s, e).value.ports[j], es + [e]);
    }
  }

  lemma LeftOverCounts(s: Instance, q: Port, es: seq<Event>)
    requires AllCount(s, es) && LeftOver(s, q)
    ensures PortCounts(q, es)
  {
    hide HeardCount;
    if q !in s.ports && q.masters != [] {
      var k :| 0 <= k < |s.ports| && q == Expired(s.ports[k], q.state);
      assert PortCounts(s.ports[k], es);
    }
  }

  lemma StepCounts(s: Instance, es: seq<Event>, e: Event)
    requires Sound(s) && AllCount(s, es) && Step(s, e).Some?
    ensures AllCount(Step(s, e).value, es + [e])
  {
    hide Sound, AllCount, Execute, Hear, Recommended, Qualified;
    if DecidingState(s, e).None? {
      OtherStepCounts(s, es, e);
    } else {
      DecidingStateCounts(s, es, e);
      DecidingStateSound(s, e);
      ExecuteCounts(DecidingState(s, e).value, es + [e]);
      if e.Tick? {
        AllAgedCount(Execute(s).value, es + [e]);
      }
    }
  }

  lemma AllAgedCount(s: Instance, es: seq<Event>)
    requires AllCount(s, es)
    ensures AllCount(s.(ports := Aged(s.ports)), es)
  {
    hide PortCounts;
    forall i | 0 <= i < |s.ports|
      ensures PortCounts(Aged(s.ports)[i], es)
    {
      CountsAged(s.ports[i], es);
    }
  }

  /** In every run an Erbest comes from a source of which its port was sent at least three announce
      messages: one to open the record, and the threshold of two on top. */
  lemma {:induction false} ErbestHeardThrice(es: seq<Event>)
    requires Run(es).Some?
    ensures AllCount(Run(es).value, es)
  {
    hide Sound, Step, AllCount;
    if es == [] {
      StartCounts();
    } else {
      var (before, e) := (es[..|es| - 1], es[|es| - 1]);
      ErbestHeardThrice(before);
      RunsAreSound(before);
      StepCounts(Run(before).value, before, e);
      assert es == before + [e];
    }
  }

  lemma StartCounts()
    ensures AllCount(START, [])
  {
  }

  predicate IsRecent(e: Entry) {
    e.announces >= FOREIGN_MASTER_THRESHOLD && e.age <= 2
  }

  /** A new Erbest was heard at least twice within its time window, the last time at most two
      intervals ago. */
  lemma AdoptedIsRecent(p: Port, own: ClockIdentity)
    requires PortOk(p, own) && NextErbest(p) != p.erbest
    ensures exists k :: 0 <= k < |p.masters| && p.masters[k].latest == NextErbest(p) && IsRecent(p.masters[k])
  {
    NextErbestSource(p);
    var k :| 0 <= k < |p.masters| && p.masters[k].latest == NextErbest(p) && Competes(p.masters[k], PreviousSource(p));
    assert EntryOk(p.masters[k], own);
  }

  // ----- the sequence of one source -----

  /** From `a` to `b` the message of one source does not go back. */
  predicate Advances(a: Option<Announce>, b: Option<Announce>) {
    a.Some? && b.Some? && b.value.source == a.value.source ==>
      b == a || IsNewer(b.value.sequenceId, a.value.sequenceId)
  }

  lemma HearNextAdvances(p: Port, parent: PortIdentity, m: Announce)
    requires p.IsFollowing()
    ensures Advances(p.erbest, NextErbest(Hear(p, parent, m)))
  {
    hide IsNewer, AddOrUpdate, NextErbest;
    if p.erbest.Some? {
      FollowedErbestYields(Hear(p, parent, m));
    }
  }

  lemma NextAdvances(p: Port)
    requires p.IsFollowing()
    ensures Advances(p.erbest, NextErbest(p))
  {
    hide NextErbest;
    if p.erbest.Some? {
      FollowedErbestYields(p);
    }
  }

  /** While a port is slave or uncalibrated and the source stays, its Erbest only moves to newer
      sequence numbers. */
  lemma ErbestAdvances(s: Instance, e: Event, i: nat, j: nat)
    requires Sound(s) && Step(s, e).Some? && i < |s.ports| && j < |Step(s, e).value.ports|
    requires s.ports[i].IsFollowing() && Step(s, e).value.ports[j].identity == s.ports[i].identity
    ensures Advances(s.ports[i].erbest, Step(s, e).value.ports[j].erbest)
  {
    hide Step, DecidingState, Hear, PortOk, IsClient, NextErbest, Advances;
    if DecidingState(s, e).Some? {
      DecidingErbest(s, e, j);
      assert i == j;
      if e.Heard? && i == PortAt(s.ports, e.number) {
        HearNextAdvances(s.ports[i], s.parent.port, e.message);
      } else {
        NextAdvances(s.ports[i]);
      }
    } else {
      OtherStepErbest(s, e, i, j);
    }
  }

  /** A decision chooses every Erbest anew, for one port after the message it heard. */
  lemma DecidingErbest(s: Instance, e: Event, i: nat)
    requires Sound(s) && DecidingState(s, e).Some? && Step(s, e).Some?
    requires i < |Step(s, e).value.ports|
    ensures |Step(s, e).value.ports| == |s.ports| && Step(s, e).value.ports[i].identity == s.ports[i].identity
    ensures Step(s, e).value.ports[i].erbest ==
      NextErbest(if e.Heard? && i == PortAt(s.ports, e.number) then Hear(s.ports[i], s.parent.port, e.message) else s.ports[i])
  {
    hide Execute, Hear, Recommended, Qualified, PortOk, IsClient, NextErbest;
    DecidingStateSound(s, e);
    ExecuteKeepsSound(DecidingState(s, e).value);
    if e.Heard? {
      RecommendedKeeps(s, e.message);
      HearKeepsRest(s.ports[PortAt(s.ports, e.number)], s.parent.port, e.message);
    }
  }

  lemma OtherStepErbest(s: Instance, e: Event, i: nat, j: nat)
    requires Sound(s) && DecidingState(s, e).None? && Step(s, e).Some?
    requires i < |s.ports| && j < |Step(s, e).value.ports|
    requires Step(s, e).value.ports[j].identity == s.ports[i].identity
    ensures Advances(s.ports[i].erbest, Step(s, e).value.ports[j].erbest)
  {
    hide Step, DecidingState, PortOk, IsClient, IsNewer;
    OtherStepPorts(s, e, j);
  }

  // ----- what the events do -----

  /** After a timeout the port listens without an Erbest, and nothing else has changed. */
  lemma TimeoutExpires(s: Instance, number: nat, j: nat)
    requires Sound(s) && j < |s.ports|
    ensures Step(s, Timeout(number)).Some?
    ensures var t := Step(s, Timeout(number)).value;
      && t == s.(ports := t.ports) && |t.ports| == |s.ports|
      && t.ports[j] == if s.ports[j].identity.number == number then s.ports[j].(erbest := None, state := Listening) else s.ports[j]
  {
    hide PortOk, IsClient;
    SoundSlaveOnly(s);
    var i := PortAt(s.ports, number);
    if i < |s.ports| && j != i {
      assert s.ports[i].identity.number != s.ports[j].identity.number;
    }
  }

  /** A message of the own clock, or from too far away, or for a port that is not there changes nothing. */
  lemma UnqualifiedChangesNothing(s: Instance, number: nat, m: Announce)
    requires Sound(s) && (m.source.clock == s.default.clock || m.stepsRemoved >= 255 || !HasPort(s.ports, number))
    ensures Step(s, Heard(number, m)) == Some(s)
  {
    hide Execute, Hear, Recommended;
    if HasPort(s.ports, number) {
      OwnIdentity(s, PortAt(s.ports, number));
    }
  }

  /** Whether the clock is calibrated is only noted; removing a port leaves the others as they are. */
  lemma OtherEventsAre(s: Instance, calibrated: bool, number: nat, p: Port)
    ensures Step(s, Calibrate(calibrated)) == Some(Instance(s.default, s.numberPorts, s.parent, s.stepsRemoved, calibrated, s.ports))
    ensures Step(s, RemovePort(number)).Some? &&
      (p in Step(s, RemovePort(number)).value.ports <==> p in s.ports && p.identity.number != number)
  {
    WithoutKeeps(s.ports, number);
    if |Without(s.ports, number)| == |s.ports| {
      NobodyHas(s.ports, number);
    }
  }

  lemma NobodyHas(ports: seq<Port>, number: nat)
    requires !HasPort(ports, number)
    ensures forall p :: p in ports ==> p.identity.number != number
  {
  }

  /** A qualified message for port `i`. */
  ghost predicate Receives(s: Instance, i: nat, m: Announce) {
    i < |s.ports| && m.source.clock != s.default.clock && m.stepsRemoved < 255
  }

  lemma ReceivesIs(s: Instance, i: nat, m: Announce)
    requires Sound(s) && Receives(s, i, m)
    ensures var e := Heard(s.ports[i].identity.number, m);
      PortAt(s.ports, e.number) == i && DecidingState(s, e).Some?
  {
    hide PortOk, IsClient, Recommended, Hear;
    OwnIdentity(s, i);
    var k := PortAt(s.ports, s.ports[i].identity.number);
    if k != i {
      PortAtBefore(s.ports, i);
    }
  }

  lemma {:induction false} PortAtBefore(ports: seq<Port>, i: nat)
    requires i < |ports|
    ensures PortAt(ports, ports[i].identity.number) <= i
  {
    if i > 0 {
      PortAtBefore(ports[1..], i - 1);
    }
  }

  /** A newer message of the source that a port follows becomes its Erbest, unless one of another source
      that is better than it does. */
  lemma NewerMessageTaken(s: Instance, i: nat, m: Announce)
    requires Sound(s) && Receives(s, i, m) && Step(s, Heard(s.ports[i].identity.number, m)).Some?
    requires s.ports[i].IsFollowing() && s.ports[i].erbest.Some? && s.ports[i].erbest.value.source == m.source
    requires m.sequenceId < UINT16 && s.ports[i].erbest.value.sequenceId < UINT16
    requires 1 <= (m.sequenceId - s.ports[i].erbest.value.sequenceId) % UINT16 <= 0x8000
    ensures var t := Step(s, Heard(s.ports[i].identity.number, m)).value;
      |t.ports| == |s.ports| && t.ports[i].erbest.Some? &&
      var taken := t.ports[i].erbest.value;
      taken == m || (taken.source != m.source && Compare(SetOf(taken, s.ports[i].identity), SetOf(m, s.ports[i].identity)).IsBetter())
  {
    hide Step, DecidingState, PortOk, IsClient, NextErbest, Compare, AddOrUpdate, IsNewer;
    var e := Heard(s.ports[i].identity.number, m);
    ReceivesIs(s, i, m);
    StepKeepsCount(s, e);
    DecidingErbest(s, e, i);
    NewerIff(m.sequenceId, s.ports[i].erbest.value.sequenceId);
    var p := Hear(s.ports[i], s.parent.port, m);
    assert p.erbest == Some(m) && p.IsFollowing() && p.identity == s.ports[i].identity;
    FollowedErbestYields(p);
  }

  lemma StepKeepsCount(s: Instance, e: Event)
    requires Sound(s) && DecidingState(s, e).Some? && Step(s, e).Some?
    ensures |Step(s, e).value.ports| == |s.ports|
  {
    hide Execute, Hear, Qualified, Sound, Recommended;
    DecidingStateSound(s, e);
    ExecuteKeepsSound(DecidingState(s, e).value);
    if e.Heard? {
      RecommendedKeeps(s, e.message);
    }
  }

  /** The list that a message leaves, before the purge: a port that follows the parent does not record
      what the parent says. */
  function Recorded(p: Port, parent: PortIdentity, m: Announce): seq<Entry> {
    if (p.state == Slave || p.state == Uncalibrated) && m.source == parent then p.masters else AddOrUpdate(p.masters, m)
  }

  /** After a message the list of the port that received it holds exactly the recorded entries that are of
      the source of Erbest, or young and without enough messages to compete. */
  lemma HeardIsRecorded(s: Instance, i: nat, m: Announce, e: Entry)
    requires Sound(s) && Receives(s, i, m) && Step(s, Heard(s.ports[i].identity.number, m)).Some?
    ensures var t := Step(s, Heard(s.ports[i].identity.number, m)).value;
      |t.ports| == |s.ports| &&
      (e in t.ports[i].masters <==>
       e in Recorded(s.ports[i], s.parent.port, m) && Survives(e, t.ports[i].erbest))
  {
    hide Step, PortOk, IsClient, NextErbest, AddOrUpdate, IsNewer, Sound, Execute, Recommended, Qualified, Purge;
    var ev := Heard(s.ports[i].identity.number, m);
    ReceivesIs(s, i, m);
    StepKeepsCount(s, ev);
    DecidingStateSound(s, ev);
    var d := DecidingState(s, ev).value;
    RecommendedKeeps(s, m);
    assert d.ports[i] == Hear(s.ports[i], s.parent.port, m);
    HeardStepIs(s, ev);
    ExecuteKeepsSound(d);
    SoundList(d, i);
    PurgedIff(d.ports[i].masters, NextErbest(d.ports[i]), d.default.clock, e);
  }

  lemma HeardStepIs(s: Instance, e: Event)
    requires e.Heard? && DecidingState(s, e).Some?
    ensures Step(s, e) == Execute(DecidingState(s, e).value)
  {
    hide Execute, Hear, Recommended, Qualified;
  }

  lemma SoundList(s: Instance, i: nat)
    requires Sound(s) && i < |s.ports|
    ensures ListOk(s.ports[i].masters, s.default.clock)
  {
    assert PortOk(s.ports[i], s.default.clock);
  }

  /** What a purge with this Erbest leaves. */
  predicate Survives(e: Entry, erbest: Option<Announce>) {
    (erbest.Some? && e.identity == erbest.value.source) || (e.age <= 4 && e.announces < 2)
  }

  /** `f` is `e` one interval later: the count is cut to what is left of a window of four. */
  predicate OneOlder(e: Entry, f: Entry) {
    f.identity == e.identity && f.latest == e.latest && f.age == e.age + 1 &&
    f.announces == if e.age >= 4 then 0 else if e.announces > 3 - e.age then 3 - e.age else e.announces
  }

  /** A tick chooses every Erbest anew, drops the entries that do not survive, and makes the others one
      interval older. */
  lemma TickAges(s: Instance, j: nat)
    requires Sound(s) && Step(s, Tick).Some? && j < |s.ports|
    ensures |Step(s, Tick).value.ports| == |s.ports|
    ensures var (p, q) := (s.ports[j], Step(s, Tick).value.ports[j]);
      && q.identity == p.identity && q.erbest == NextErbest(p)
      && (forall e :: e in p.masters && Survives(e, q.erbest) ==> exists f :: f in q.masters && OneOlder(e, f))
      && (forall f :: f in q.masters ==> exists e :: e in p.masters && Survives(e, q.erbest) && OneOlder(e, f))
  {
    hide PortOk, IsClient, NextErbest, Sound, Execute, Purge, Survives, OneOlder;
    StepKeepsCount(s, Tick);
    ExecuteKeepsSound(s);
    SoundList(s, j);
    var (p, q) := (s.ports[j], Step(s, Tick).value.ports[j]);
    var left := Purge(p.masters, NextErbest(p));
    assert q.masters == AgedList(left);
    PurgeKeepsList(p.masters, NextErbest(p), s.default.clock);
    forall k | 0 <= k < |left|
      ensures left[k] in p.masters && Survives(left[k], q.erbest) && OneOlder(left[k], q.masters[k])
    {
      SurvivorIs(p.masters, NextErbest(p), s.default.clock, left[k]);
      OlderIs(left[k], s.default.clock);
    }
    forall e | e in p.masters && Survives(e, q.erbest)
      ensures exists f :: f in q.masters && OneOlder(e, f)
    {
      SurvivorIs(p.masters, NextErbest(p), s.default.clock, e);
      var k :| 0 <= k < |left| && left[k] == e;
      assert q.masters[k] in q.masters;
    }
  }

  lemma SurvivorIs(list: seq<Entry>, erbest: Option<Announce>, own: ClockIdentity, e: Entry)
    requires ListOk(list, own)
    ensures e in Purge(list, erbest) <==> e in list && Survives(e, erbest)
  {
    PurgedIff(list, erbest, own, e);
  }

  lemma OlderIs(e: Entry, own: ClockIdentity)
    requires EntryOk(e, own)
    ensures OneOlder(e, Older(e))
  {
    OlderOk(e, own);
  }
}
