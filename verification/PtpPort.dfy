/** One PTP port: choosing Erbest among the announce messages it received, and the state it is
    recommended to take (IEEE 1588-2019, sections 9.3.2.3 and 9.3.3). */
module PtpPort {
  import opened Wrappers
  import opened BestMaster

  datatype State =
    Undefined | Initializing | Faulty | Disabled | Listening | PreMaster | Master | Passive | Uncalibrated | Slave

  datatype Code = M1 | M2 | M3 | S1 | P1 | P2

  datatype DefaultDs = DefaultDs(clock: ClockIdentity, quality: Quality, priority1: nat, priority2: nat, slaveOnly: bool) {
    function Set(): DataSet {
      DataSet(priority1, clock, quality, priority2, 0, clock, PortIdentity(clock, 0))
    }
  }

  datatype Port = Port(
    identity: PortIdentity,
    address: nat,
    state: State,
    masters: seq<Entry>,
    erbest: Option<Announce>) {

    /** The previous Erbest competes only in these states. */
    predicate IsFollowing() {
      Slave == state || Uncalibrated == state || Passive == state
    }

    function ErbestSet(): DataSet
      requires erbest.Some?
    {
      SetOf(erbest.value, identity)
    }
  }

  // ----- Erbest -----

  /** An entry that is not the previous Erbest and has enough announce messages. */
  predicate Competes(e: Entry, previous: Option<PortIdentity>) {
    e.latest.Some? && previous != Some(e.latest.value.source) && e.announces >= FOREIGN_MASTER_THRESHOLD
  }

  /** The best of the competing messages, going through the list in order. */
  function BestForeign(list: seq<Entry>, previous: Option<PortIdentity>, receiver: PortIdentity): Option<Announce> {
    if list == [] then None
    else
      var best := BestForeign(list[..|list| - 1], previous, receiver);
      var e := list[|list| - 1];
      if !Competes(e, previous) then best
      else if best.Some? && !Compare(SetOf(e.latest.value, receiver), SetOf(best.value, receiver)).IsBetter() then best
      else e.latest
  }

  function PreviousSource(p: Port): Option<PortIdentity> {
    if p.erbest.Some? && p.IsFollowing() then Some(p.erbest.value.source) else None
  }

  function NextErbest(p: Port): Option<Announce> {
    var best := BestForeign(p.masters, PreviousSource(p), p.identity);
    if best.None? then p.erbest
    else if PreviousSource(p).Some? && !Compare(SetOf(best.value, p.identity), p.ErbestSet()).IsBetter() then p.erbest
    else best
  }

  function NextPort(p: Port): Port {
    p.(erbest := NextErbest(p), masters := Purge(p.masters, NextErbest(p)))
  }

  /** What is checked on entry to the calculation. */
  predicate ErbestAsserted(p: Port) {
    p.erbest.Some? ==>
      |p.masters| > 0 && (|p.masters| == 1 ==> p.masters[0].identity == p.erbest.value.source)
  }

  /** `m` is the latest message of an entry that competes. */
  ghost predicate HeardIn(list: seq<Entry>, m: Announce, previous: Option<PortIdentity>) {
    exists k :: 0 <= k < |list| && list[k].latest == Some(m) && Competes(list[k], previous)
  }

  lemma {:induction false} BestIsHeard(list: seq<Entry>, previous: Option<PortIdentity>, receiver: PortIdentity)
    ensures var best := BestForeign(list, previous, receiver);
      best.Some? ==> HeardIn(list, best.value, previous)
  {
    if list != [] {
      var n := |list| - 1;
      BestIsHeard(list[..n], previous, receiver);
      var best := BestForeign(list[..n], previous, receiver);
      if best.Some? {
        var k :| 0 <= k < n && list[..n][k].latest == best && Competes(list[..n][k], previous);
        assert list[k].latest == best;
      }
    }
  }

  /** The messages that compete describe each grandmaster alike. */
  ghost predicate AllAgree(list: seq<Entry>, previous: Option<PortIdentity>, receiver: PortIdentity) {
    forall i, j :: 0 <= i < |list| && 0 <= j < |list| && Competes(list[i], previous) && Competes(list[j], previous) ==>
      Agree(SetOf(list[i].latest.value, receiver), SetOf(list[j].latest.value, receiver))
  }

  /** Then the choice does not depend on the order of the list: no competing message is better than
      the chosen one. */
  lemma {:induction false} BestForeignIsBest(
    list: seq<Entry>, previous: Option<PortIdentity>, receiver: PortIdentity, k: nat)
    requires ListOk(list, receiver.clock) && AllAgree(list, previous, receiver)
    requires k < |list| && Competes(list[k], previous)
    ensures var best := BestForeign(list, previous, receiver);
      best.Some? && !Compare(SetOf(list[k].latest.value, receiver), SetOf(best.value, receiver)).IsBetter()
  {
    hide Compare, Competes;
    var (n, own) := (|list| - 1, receiver.clock);
    BestIsHeard(list[..n], previous, receiver);
    var before := BestForeign(list[..n], previous, receiver);
    CompetitorHasMessage(list[k], previous);
    var x := SetOf(list[k].latest.value, receiver);
    CompareSelf(x);
    if k < n {
      BestForeignIsBest(list[..n], previous, receiver, k);
      if Competes(list[n], previous) {
        CompetitorHasMessage(list[n], previous);
        var j :| 0 <= j < n && list[..n][j].latest == before && Competes(list[..n][j], previous);
        assert list[j].latest == before;
        var (y, z) := (SetOf(before.value, receiver), SetOf(list[n].latest.value, receiver));
        if Compare(z, y).IsBetter() && Compare(x, z).IsBetter() {
          BetterTransitive(x, z, y, own);
        }
      }
    }
  }

  lemma CompetitorHasMessage(e: Entry, previous: Option<PortIdentity>)
    requires Competes(e, previous)
    ensures e.latest.Some?
  {
  }

  lemma CompareSelf(a: DataSet)
    ensures Compare(a, a) == Error2
  {
  }

  lemma NextErbestSource(p: Port)
    ensures NextErbest(p) == p.erbest ||
      (NextErbest(p).Some? && HeardIn(p.masters, NextErbest(p).value, PreviousSource(p)))
  {
    BestIsHeard(p.masters, PreviousSource(p), p.identity);
  }

  /** The list holds what it should, and a port with an Erbest has a qualified one whose source it
      knows. */
  ghost predicate PortOk(p: Port, own: ClockIdentity) {
    p.identity.clock == own && ListOk(p.masters, own) &&
    (p.erbest.Some? ==> Qualified(p.erbest.value, own) && Knows(p.masters, p.erbest.value.source))
  }

  lemma OkMeetsAsserts(p: Port, own: ClockIdentity)
    requires PortOk(p, own)
    ensures ErbestAsserted(p)
  {
  }

  lemma CalculateKeepsPort(p: Port, own: ClockIdentity)
    requires PortOk(p, own)
    ensures PortOk(NextPort(p), own)
    ensures p.erbest.Some? ==> NextPort(p).erbest.Some?
  {
    hide NextErbest, Purge, IsPurged, EntryOk;
    NextErbestSource(p);
    PurgeKeepsList(p.masters, NextErbest(p), own);
    if NextErbest(p) != p.erbest {
      HeardIsKnown(p.masters, NextErbest(p).value, PreviousSource(p), own);
    }
    if NextErbest(p).Some? {
      PurgeKeepsErbest(p.masters, NextErbest(p).value, own);
    }
  }

  lemma HeardIsKnown(list: seq<Entry>, m: Announce, previous: Option<PortIdentity>, own: ClockIdentity)
    requires ListOk(list, own) && HeardIn(list, m, previous)
    ensures Qualified(m, own) && Knows(list, m.source) && previous != Some(m.source)
  {
    KnowsIff(list, m.source);
  }

  /** The Erbest of a port that follows a source is replaced only by one of another source that
      compares better. */
  lemma FollowedErbestYields(p: Port)
    requires p.erbest.Some? && p.IsFollowing()
    ensures NextErbest(p).Some?
    ensures NextErbest(p) != p.erbest ==>
      NextErbest(p).value.source != p.erbest.value.source &&
      Compare(SetOf(NextErbest(p).value, p.identity), p.ErbestSet()).IsBetter()
  {
    NextErbestSource(p);
  }

  /** Two messages heard by one port: the same description of one path, or one is better. */
  predicate MatchesOrBeats(a: DataSet, b: DataSet) {
    a == b || Compare(a, b).IsBetter()
  }

  lemma NotBeaten(a: DataSet, b: DataSet, own: ClockIdentity)
    requires ReceivedBy(a, own) && ReceivedBy(b, own) && a.receiver == b.receiver && Agree(a, b)
    requires !Compare(b, a).IsBetter()
    ensures MatchesOrBeats(a, b)
  {
    CompareMirrored(a, b);
    CompareFailsIff(a, b);
  }

  lemma BeatsThrough(a: DataSet, b: DataSet, c: DataSet, own: ClockIdentity)
    requires ReceivedBy(a, own) && ReceivedBy(b, own) && ReceivedBy(c, own)
    requires Agree(a, b) && Agree(b, c) && Agree(a, c)
    requires MatchesOrBeats(a, b) && Compare(b, c).IsBetter()
    ensures Compare(a, c).IsBetter()
  {
    hide Compare, Agree;
    if a != b {
      BetterTransitive(a, b, c, own);
    }
  }

  /** The competing messages and the Erbest of a following port describe each grandmaster alike. */
  ghost predicate AllAgreeWithErbest(p: Port) {
    AllAgree(p.masters, PreviousSource(p), p.identity) &&
    (PreviousSource(p).Some? ==> forall k :: 0 <= k < |p.masters| && Competes(p.masters[k], PreviousSource(p)) ==>
      Agree(SetOf(p.masters[k].latest.value, p.identity), p.ErbestSet()))
  }

  /** What competes was received from another clock. */
  lemma CompetitorReceived(p: Port, own: ClockIdentity, k: nat)
    requires PortOk(p, own) && k < |p.masters| && Competes(p.masters[k], PreviousSource(p))
    ensures p.masters[k].latest.Some? && ReceivedBy(SetOf(p.masters[k].latest.value, p.identity), own)
    ensures p.erbest.Some? ==> ReceivedBy(p.ErbestSet(), own)
  {
    assert EntryOk(p.masters[k], own);
  }

  lemma BestForeignBeats(p: Port, own: ClockIdentity, k: nat)
    requires PortOk(p, own) && AllAgree(p.masters, PreviousSource(p), p.identity)
    requires k < |p.masters| && Competes(p.masters[k], PreviousSource(p))
    ensures p.masters[k].latest.Some?
    ensures var best := BestForeign(p.masters, PreviousSource(p), p.identity);
      best.Some? && MatchesOrBeats(SetOf(best.value, p.identity), SetOf(p.masters[k].latest.value, p.identity))
  {
    hide Compare, EntryOk, Agree, MatchesOrBeats;
    var best := BestForeign(p.masters, PreviousSource(p), p.identity);
    BestForeignIsBest(p.masters, PreviousSource(p), p.identity, k);
    BestIsHeard(p.masters, PreviousSource(p), p.identity);
    var j :| 0 <= j < |p.masters| && p.masters[j].latest == best && Competes(p.masters[j], PreviousSource(p));
    CompetitorReceived(p, own, j);
    CompetitorReceived(p, own, k);
    NotBeaten(SetOf(best.value, p.identity), SetOf(p.masters[k].latest.value, p.identity), own);
  }

  /** The port ends the calculation with an Erbest that matches or beats every competing message, whether
      it follows a source or not, as long as messages describe each grandmaster alike. */
  lemma NextErbestBeats(p: Port, own: ClockIdentity, k: nat)
    requires PortOk(p, own) && AllAgreeWithErbest(p)
    requires k < |p.masters| && Competes(p.masters[k], PreviousSource(p))
    ensures p.masters[k].latest.Some? && NextErbest(p).Some?
    ensures var (x, y) := (SetOf(p.masters[k].latest.value, p.identity), SetOf(NextErbest(p).value, p.identity));
      MatchesOrBeats(y, x) && !Compare(x, y).IsBetter()
  {
    hide Compare, EntryOk, Agree, MatchesOrBeats, BestForeign, ListOk;
    BestForeignBeats(p, own, k);
    CompetitorReceived(p, own, k);
    var best := BestForeign(p.masters, PreviousSource(p), p.identity).value;
    var (x, b) := (SetOf(p.masters[k].latest.value, p.identity), SetOf(best, p.identity));
    BeatsNotBeaten(b, x);
    if NextErbest(p) != Some(best) {
      var y := p.ErbestSet();
      BestIsHeard(p.masters, PreviousSource(p), p.identity);
      var j :| 0 <= j < |p.masters| && p.masters[j].latest == Some(best) && Competes(p.masters[j], PreviousSource(p));
      CompetitorReceived(p, own, j);
      assert Agree(b, x) && Agree(b, y) && Agree(x, y);
      if Compare(x, y).IsBetter() {
        BeatsThrough(b, x, y, own);
        assert false;
      }
      AgreeBothWays(x, y);
      NotBeaten(y, x, own);
    }
  }

  lemma AgreeBothWays(a: DataSet, b: DataSet)
    requires Agree(a, b)
    ensures Agree(b, a)
  {
  }

  lemma BeatsNotBeaten(a: DataSet, b: DataSet)
    requires MatchesOrBeats(a, b)
    ensures !Compare(b, a).IsBetter()
  {
    hide Compare;
    CompareSelf(a);
    CompareMirrored(a, b);
  }

  /** Some competing message compares better than the Erbest that the port follows. */
  ghost predicate Beaten(p: Port)
    requires p.erbest.Some?
  {
    exists k :: 0 <= k < |p.masters| && Competes(p.masters[k], PreviousSource(p)) &&
      Compare(SetOf(p.masters[k].latest.value, p.identity), p.ErbestSet()).IsBetter()
  }

  /** A port that follows a source changes its Erbest exactly when some competing message compares
      better; the new one is then of another source and better than the old one. */
  lemma FollowedErbestChangesIff(p: Port, own: ClockIdentity)
    requires PortOk(p, own) && AllAgreeWithErbest(p) && p.erbest.Some? && p.IsFollowing()
    ensures NextErbest(p) != p.erbest <==> Beaten(p)
    ensures NextErbest(p) != p.erbest ==>
      NextErbest(p).value.source != p.erbest.value.source &&
      Compare(SetOf(NextErbest(p).value, p.identity), p.ErbestSet()).IsBetter()
  {
    hide Compare, ListOk, AllAgreeWithErbest, NextErbest;
    NextErbestSource(p);
    FollowedErbestYields(p);
    if NextErbest(p) != p.erbest {
      var k :| 0 <= k < |p.masters| && p.masters[k].latest == NextErbest(p) && Competes(p.masters[k], PreviousSource(p));
    }
    if Beaten(p) {
      var k :| 0 <= k < |p.masters| && Competes(p.masters[k], PreviousSource(p)) &&
        Compare(SetOf(p.masters[k].latest.value, p.identity), p.ErbestSet()).IsBetter();
      NextErbestBeats(p, own, k);
    }
  }

  /** A port that does not follow takes an Erbest as soon as an entry competes. */
  lemma {:induction false} CompetingIsFound(list: seq<Entry>, previous: Option<PortIdentity>, receiver: PortIdentity, k: nat)
    requires k < |list| && Competes(list[k], previous)
    ensures BestForeign(list, previous, receiver).Some?
  {
    hide Compare;
    if k < |list| - 1 {
      CompetingIsFound(list[..|list| - 1], previous, receiver, k);
    }
  }

  /** The port has an Erbest or an entry that can become one. */
  predicate HasCandidate(p: Port) {
    p.erbest.Some? || exists k :: 0 <= k < |p.masters| && Competes(p.masters[k], None)
  }

  /** The calculation ends with an Erbest exactly when there is a candidate before. */
  lemma NextErbestIff(p: Port)
    ensures NextPort(p).erbest.Some? <==> HasCandidate(p)
  {
    hide Compare, BestForeign;
    NextErbestSource(p);
    if p.erbest.None? && HasCandidate(p) {
      var k :| 0 <= k < |p.masters| && Competes(p.masters[k], None);
      CompetingIsFound(p.masters, None, p.identity, k);
    }
  }

  /** Of a source that was not in the list the third message makes the entry compete, and not the
      second: the first only opens the record. */
  lemma ThirdMessageCompetes(list: seq<Entry>, m1: Announce, m2: Announce, m3: Announce)
    requires !Knows(list, m1.source) && m1.source == m2.source == m3.source && !IsOlder(m3.sequenceId, m2.sequenceId)
    ensures var (two, three) := (AddOrUpdate(AddOrUpdate(list, m1), m2), AddOrUpdate(AddOrUpdate(AddOrUpdate(list, m1), m2), m3));
      && |two| == |three| == |list| + 1 && two[..|list|] == three[..|list|] == list
      && !Competes(two[|list|], None)
      && Competes(three[|list|], None) && three[|list|].latest == Some(m3) && three[|list|].age == 0
  {
    hide IsOlder;
    var (n, one) := (|list|, list + [Entry(m1.source, 0, None, 0)]);
    var two := one[n := Entry(m1.source, 1, Some(m2), 0)];
    FoundAt(one, m1.source, n);
    FoundAt(two, m1.source, n);
    assert AddOrUpdate(list, m1) == one;
    assert AddOrUpdate(one, m2) == two;
    assert AddOrUpdate(two, m3) == two[n := Entry(m1.source, 2, Some(m3), 0)];
  }

  // ----- recommended states -----

  predicate Contains(lo: nat, x: nat, hi: nat) {
    lo <= x <= hi
  }

  function Recommend(d: DefaultDs, p: Port, ebest: Option<DataSet>): Option<Code> {
    if ebest.None? && p.state == Listening then None
    else if Contains(1, d.quality.clockClass, 127) then
      if p.erbest.None? || Compare(d.Set(), p.ErbestSet()).IsBetter() then Some(M1) else Some(P1)
    else if ebest.None? || Compare(d.Set(), ebest.value).IsBetter() then Some(M2)
    else if ebest.value.receiver == p.identity then Some(S1)
    else if p.erbest.None? || Compare(ebest.value, p.ErbestSet()) == BetterByTopology then Some(P2)
    else Some(M3)
  }

  /** The own data set beats another, or there is no other. */
  predicate Beats(d: DefaultDs, other: Option<DataSet>) {
    other.None? || Compare(d.Set(), other.value).IsBetter()
  }

  function ErbestSetOf(p: Port): Option<DataSet> {
    if p.erbest.Some? then Some(p.ErbestSet()) else None
  }

  predicate MayStayPassive(p: Port, ebest: DataSet) {
    p.erbest.None? || Compare(ebest, p.ErbestSet()) == BetterByTopology
  }

  /** The table of recommended states (IEEE 1588-2019, section 9.3.3), code by code: nothing for a port that
      listens while there is no Ebest; for a clock of class 1 to 127 M1 or P1, by whether it beats Erbest;
      for any other clock M2 if it beats Ebest, S1 where Ebest was received, and elsewhere P2 if Ebest is
      better than Erbest by topology alone or there is no Erbest, and else M3. */
  lemma RecommendedWhen(d: DefaultDs, p: Port, ebest: Option<DataSet>)
    ensures var (r, first) := (Recommend(d, p, ebest), 1 <= d.quality.clockClass <= 127);
      && (r == None <==> ebest.None? && p.state == Listening)
      && (r == Some(M1) <==> r != None && first && Beats(d, ErbestSetOf(p)))
      && (r == Some(P1) <==> r != None && first && !Beats(d, ErbestSetOf(p)))
      && (r == Some(M2) <==> r != None && !first && Beats(d, ebest))
      && (r == Some(S1) <==> !first && !Beats(d, ebest) && ebest.value.receiver == p.identity)
      && (r == Some(P2) <==> !first && !Beats(d, ebest) && ebest.value.receiver != p.identity && MayStayPassive(p, ebest.value))
  {
    hide Compare;
  }

  /** Becoming a master is not implemented: such a change is only logged. */
  function SetState(p: Port, state: State): Port {
    if state == Master || state == PreMaster then p else p.(state := state)
  }

  function StateFor(code: Code, slaveOnly: bool, calibrated: bool): State {
    match code
    case M1 => if slaveOnly then Listening else Master
    case M2 => if slaveOnly then Listening else Master
    case M3 => if slaveOnly then Listening else Master
    case S1 => if calibrated then Slave else Uncalibrated
    case P1 => if slaveOnly then Listening else Passive
    case P2 => if slaveOnly then Listening else Passive
  }

  /** A slave-only instance is never recommended to be a master: such a port follows instead. */
  function Followed(code: Code, slaveOnly: bool): Code {
    if slaveOnly && (code == M1 || code == M2 || code == M3) then S1 else code
  }

  // ----- the object -----

  class PortObject {
    const identity: PortIdentity
    var address: nat
    var state: State
    var foreignMasters: seq<Entry>
    var erbest: Option<Announce>

    function View(): Port
      reads this
    {
      Port(identity, address, state, foreignMasters, erbest)
    }

    constructor (interfaceAddress: nat, portIdentity: PortIdentity)
      ensures View() == Port(portIdentity, interfaceAddress, Listening, [], None)
    {
      identity := portIdentity;
      address := interfaceAddress;
      foreignMasters := [];
      erbest := None;
      state := Listening;
    }

    method SetStateTo(newState: State)
      modifies this`state
      ensures View() == SetState(old(View()), newState)
      ensures state == if newState == Master || newState == PreMaster then old(state) else newState
    {
      if newState == state {
        return;
      }
      if newState == Master || newState == PreMaster {
        return;
      }
      state := newState;
    }

    method CalculateErbest()
      modifies this`foreignMasters, this`erbest
      ensures View() == NextPort(old(View()))
    {
      var best: Option<Announce> := None;
      var includePrevious := erbest.Some? && (state == Slave || state == Uncalibrated || state == Passive);
      var i := 0;
      while i < |foreignMasters|
        invariant 0 <= i <= |foreignMasters| && View() == old(View())
        invariant best == BestForeign(foreignMasters[..i], PreviousSource(View()), identity)
      {
        assert foreignMasters[..i + 1][..i] == foreignMasters[..i];
        var entry := foreignMasters[i];
        i := i + 1;
        if entry.latest.Some? {
          var announce := entry.latest.value;
          if includePrevious && announce.source == erbest.value.source {
            continue;
          }
          if entry.announces < FOREIGN_MASTER_THRESHOLD {
            continue;
          }
          if best.Some? {
            if Compare(SetOf(announce, identity), SetOf(best.value, identity)).IsBetter() {
              best := Some(announce);
            }
          } else {
            best := Some(announce);
          }
        }
      }
      assert foreignMasters[..i] == foreignMasters;
      if best.Some? {
        if includePrevious {
          if Compare(SetOf(best.value, identity), SetOf(erbest.value, identity)).IsBetter() {
            erbest := best;
          }
        } else {
          erbest := best;
        }
      }
      foreignMasters := Purge(foreignMasters, erbest);
    }

    /** The position of the entry of a source, or the length of the list. */
    method FindEntry(source: PortIdentity) returns (k: nat)
      ensures k == Find(foreignMasters, source)
    {
      k := 0;
      while k < |foreignMasters|
        invariant 0 <= k <= |foreignMasters|
        invariant forall j :: 0 <= j < k ==> foreignMasters[j].identity != source
      {
        if foreignMasters[k].identity == source {
          return;
        }
        k := k + 1;
      }
    }

    /** Adds or updates the entry of the sender. */
    method Record(m: Announce)
      modifies this`foreignMasters
      ensures View() == old(View()).(masters := AddOrUpdate(old(foreignMasters), m))
    {
      var k := FindEntry(m.source);
      if k < |foreignMasters| {
        var e := foreignMasters[k];
        if e.latest.Some? && IsOlder(m.sequenceId, e.latest.value.sequenceId) {
          return;
        }
        foreignMasters := foreignMasters[k := Entry(e.identity, e.announces + 1, Some(m), 0)];
      } else {
        foreignMasters := foreignMasters + [Entry(m.source, 0, None, 0)];
      }
    }

    /** A newer message of the source that a following port has as its Erbest replaces it. */
    method UpdateErbest(m: Announce)
      modifies this`erbest
      ensures View() == old(View()).(erbest :=
        if old(View().IsFollowing()) && old(erbest).Some? && old(erbest).value.source == m.source &&
           IsNewer(m.sequenceId, old(erbest).value.sequenceId) then Some(m) else old(erbest))
    {
      if state == Slave || state == Uncalibrated || state == Passive {
        if erbest.Some? && erbest.value.source == m.source {
          if IsNewer(m.sequenceId, erbest.value.sequenceId) {
            erbest := Some(m);
          }
        }
      }
    }

    method DropErbest()
      modifies this`erbest
      ensures View() == old(View()).(erbest := None)
    {
      erbest := None;
    }

    method IncreaseAge()
      modifies this`foreignMasters
      ensures View() == old(View()).(masters := AgedList(old(foreignMasters)))
    {
      var i := 0;
      while i < |foreignMasters|
        invariant 0 <= i <= |foreignMasters| == |old(foreignMasters)| && View() == old(View()).(masters := foreignMasters)
        invariant forall j :: 0 <= j < i ==> foreignMasters[j] == Older(old(foreignMasters)[j])
        invariant forall j :: i <= j < |foreignMasters| ==> foreignMasters[j] == old(foreignMasters)[j]
      {
        var e := foreignMasters[i];
        e := e.(age := e.age + 1);
        var most := (FOREIGN_MASTER_TIME_WINDOW - e.age) % SIZE_T;
        if e.announces > most {
          e := e.(announces := most);
        }
        foreignMasters := foreignMasters[i := e];
        i := i + 1;
      }
      assert foreignMasters == AgedList(old(foreignMasters));
    }

    method SetInterface(interfaceAddress: nat)
      modifies this`address
      ensures View() == old(View()).(address := interfaceAddress)
    {
      if interfaceAddress == address {
        return;
      }
      address := interfaceAddress;
    }
  }
}
