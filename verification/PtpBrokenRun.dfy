/** A run of a PTP instance that asks for the value of an empty optional. */
module PtpBrokenRun {
  import opened Wrappers
  import opened BestMaster
  import opened PtpPort
  import opened PtpInstance

  lemma RunSnoc(es: seq<Event>, e: Event)
    requires Run(es).Some?
    ensures Run(es + [e]) == Step(Run(es).value, e)
  {
    assert (es + [e])[..|es|] == es;
  }

  /** An announce message worse than the own data set. */
  const POOR := Announce(PortIdentity(9, 1), 0, 255, 9, Quality(255, 0xFE, 0), 128, 0)

  const HERE := SLAVE_ONLY_DEFAULT.(clock := 5)

  function PortOne(state: State, masters: seq<Entry>, erbest: Option<Announce>): Port {
    Port(PortIdentity(5, 1), 10, state, masters, erbest)
  }

  function PortTwo(state: State): Port {
    Port(PortIdentity(5, 2), 20, state, [], None)
  }

  function Record(announces: nat): Entry {
    Entry(POOR.source, announces, if announces == 0 then None else Some(POOR), 0)
  }

  function Listens(masters: seq<Entry>): Instance {
    START.(default := HERE, numberPorts := 2, ports := [PortOne(Listening, masters, None), PortTwo(Listening)])
  }

  lemma TwoPortsAdded()
    ensures Run([AddPort(1, 10, Hardware(5)), AddPort(2, 20, Hardware(6))]) == Some(Listens([]))
  {
    hide Execute, HearAnnounce, Without;
    var (e, f) := (AddPort(1, 10, Hardware(5)), AddPort(2, 20, Hardware(6)));
    var p := PortOne(Listening, [], None);
    var s := START.(default := HERE, numberPorts := 1, ports := [p]);
    assert [] + [e] == [e] && [e] + [f] == [e, f];
    assert [] + [p] == [p] && [p] + [PortTwo(Listening)] == [p, PortTwo(Listening)];
    RunSnoc([], e);
    assert Add(START, 1, 10, Hardware(5)) == Ok(s);
    RunSnoc([e], f);
    SecondPort(s, p);
  }

  lemma SecondPort(s: Instance, p: Port)
    requires p == PortOne(Listening, [], None) && s == START.(default := HERE, numberPorts := 1, ports := [p])
    ensures Add(s, 2, 20, Hardware(6)) == Ok(Listens([]))
  {
    assert [p][1..] == [];
    assert PortAt([], 2) == 0;
    assert !HasPort([p], 2);
    assert [p] + [PortTwo(Listening)] == [p, PortTwo(Listening)];
  }

  lemma ScanTwo(p: Port, q: Port)
    requires NextPort(q).erbest.None?
    ensures Scan([p, q], 0, None) == ([NextPort(p), NextPort(q)], if NextPort(p).erbest.Some? then Some(0) else None)
  {
    hide NextErbest, Purge;
    var (ps, qs) := ([NextPort(p), q], [NextPort(p), NextPort(q)]);
    assert [p, q][0 := NextPort(p)] == ps && ps[1 := NextPort(q)] == qs;
    var b: Option<nat> := if NextPort(p).erbest.Some? then Some(0) else None;
    assert Scan(qs, 2, b) == (qs, b);
    assert Scan(ps, 1, b) == Scan(qs, 2, b);
  }

  lemma NextOfEmpty(p: Port)
    requires p.masters == [] && p.erbest.None?
    ensures NextPort(p) == p
  {
  }

  lemma NextOfRecord(n: nat)
    ensures var p := PortOne(Listening, [Record(n)], None);
      NextPort(p) == if n < 2 then p else p.(erbest := Some(POOR))
  {
    var p := PortOne(Listening, [Record(n)], None);
    assert p.masters[..0] == [] && p.masters[1..] == [];
    assert BestForeign([], None, p.identity) == None;
    var best: Option<Announce> := if n < 2 then None else Some(POOR);
    assert BestForeign(p.masters, None, p.identity) == best;
    assert NextErbest(p) == best;
    assert Purge([], best) == [];
    assert Purge(p.masters, best) == p.masters;
  }

  lemma Records()
    ensures AddOrUpdate([], POOR) == [Record(0)]
    ensures AddOrUpdate([Record(0)], POOR) == [Record(1)]
    ensures AddOrUpdate([Record(1)], POOR) == [Record(2)]
  {
    assert [Record(0)][0 := Record(1)] == [Record(1)];
    assert [Record(1)][0 := Record(2)] == [Record(2)];
  }

  lemma HearPoor(masters: seq<Entry>, n: nat)
    requires AddOrUpdate(masters, POOR) == [Record(n)]
    ensures Step(Listens(masters), Heard(1, POOR)) == Execute(Listens([Record(n)]))
  {
    hide NextErbest, AddOrUpdate, Execute;
    assert Listens(masters).ports[0 := PortOne(Listening, [Record(n)], None)] == Listens([Record(n)]).ports;
  }

  /** As long as the record is too short nothing is decided. */
  lemma TooShort(n: nat)
    requires n < 2
    ensures Execute(Listens([Record(n)])) == Some(Listens([Record(n)]))
  {
    hide NextPort, Scan;
    var t := Listens([Record(n)]);
    NextOfRecord(n);
    NextOfEmpty(t.ports[1]);
    ScanTwo(t.ports[0], t.ports[1]);
    DecideWithoutEbest(t, 0);
  }

  /** Then the own data set beats Ebest, and both ports stop listening, though only one has an Erbest. */
  lemma LongEnough()
    ensures Execute(Listens([Record(2)])).Some?
    ensures var ports := Execute(Listens([Record(2)])).value.ports;
      |ports| == 2 && ports[0].identity.number == 1 && ports[1] == PortTwo(Uncalibrated)
  {
    hide NextPort, Scan, Decided, DecideFrom;
    var t := Listens([Record(2)]);
    NextOfRecord(2);
    NextOfEmpty(t.ports[1]);
    ScanTwo(t.ports[0], t.ports[1]);
    var (u, ebest) := (t.(ports := [NextPort(t.ports[0]), t.ports[1]]), Best(POOR, PortIdentity(5, 1)));
    DecideRest(u, 0, ebest);
    DecidedPort(HERE, false, u.ports[0], ebest);
    DecidedPort(HERE, false, u.ports[1], ebest);
    assert Compare(HERE.Set(), ebest.Set()) == Better;
  }

  lemma OnlyPortTwo(s: Instance)
    requires |s.ports| == 2 && s.ports[0].identity.number == 1 && s.ports[1] == PortTwo(Uncalibrated)
    ensures Remove(s, 1).ports == [PortTwo(Uncalibrated)]
    ensures Step(Remove(s, 1), Tick).None?
  {
    var q := PortTwo(Uncalibrated);
    assert s.ports[1..] == [q] && [q][1..] == [];
    assert Without([q], 1) == [q] + Without([], 1) == [q];
    NextOfEmpty(q);
    assert [q][0 := q] == [q];
    var b: Option<nat> := None;
    assert Scan([q], 1, b) == ([q], None);
    assert Scan([q], 0, None) == ([q], None);
  }

  const ADDED := [AddPort(1, 10, Hardware(5)), AddPort(2, 20, Hardware(6))]
  const HEARD := ADDED + [Heard(1, POOR)] + [Heard(1, POOR)] + [Heard(1, POOR)]
  const BROKEN := HEARD + [RemovePort(1)] + [Tick]

  lemma BothStopListening()
    ensures Run(HEARD).Some?
    ensures var ports := Run(HEARD).value.ports;
      |ports| == 2 && ports[0].identity.number == 1 && ports[1] == PortTwo(Uncalibrated)
  {
    hide Run, Step, Execute, AddOrUpdate;
    var h := Heard(1, POOR);
    TwoPortsAdded();
    Records();
    RunSnoc(ADDED, h);
    HearPoor([], 0);
    TooShort(0);
    RunSnoc(ADDED + [h], h);
    HearPoor([Record(0)], 1);
    TooShort(1);
    RunSnoc(ADDED + [h] + [h], h);
    HearPoor([Record(1)], 2);
    LongEnough();
  }

  /** Without the condition on the messages the dereference can be undefined: a poor master makes two
      ports stop listening, the port that hears it is removed, and nobody is left with an Erbest. */
  lemma DereferenceCanBeUndefined()
    ensures Run(BROKEN).None?
  {
    hide Run, Step, Remove, HEARD;
    BothStopListening();
    var s := Run(HEARD).value;
    RunSnoc(HEARD, RemovePort(1));
    OnlyPortTwo(s);
    RemoveStep(s);
    RunSnoc(HEARD + [RemovePort(1)], Tick);
  }

  lemma RemoveStep(s: Instance)
    ensures Step(s, RemovePort(1)) == Some(Remove(s, 1))
  {
  }
}
