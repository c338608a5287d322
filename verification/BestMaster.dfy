/** What a PTP port knows about the clocks it hears: comparing announce messages (IEEE 1588-2019,
    section 9.3.4) and the list of foreign masters (section 9.3.2.4). */
module BestMaster {
  import opened Wrappers

  const FOREIGN_MASTER_TIME_WINDOW := 4
  const FOREIGN_MASTER_THRESHOLD := 2
  const UINT16 := 0x1_0000
  const SIZE_T := 0x1_0000_0000_0000_0000

  /** Eight bytes read as one big-endian number, so that comparing numbers compares bytes in order. */
  type ClockIdentity = nat

  datatype PortIdentity = PortIdentity(clock: ClockIdentity, number: nat)

  datatype Quality = Quality(clockClass: nat, accuracy: nat, variance: nat)

  datatype Announce = Announce(
    source: PortIdentity,
    sequenceId: nat,
    priority1: nat,
    grandmaster: ClockIdentity,
    quality: Quality,
    priority2: nat,
    stepsRemoved: nat)

  /** Sequence numbers wrap around: `a` is newer unless it is at most half a turn behind `b`. */
  predicate IsNewer(a: nat, b: nat) {
    a != b && !IsOlder(a, b)
  }

  predicate IsOlder(a: nat, b: nat) {
    a != b && (b - a) % UINT16 < UINT16 / 2
  }

  /** Newer means ahead by at most half a turn; so exactly half a turn apart each of two is newer. */
  lemma NewerIff(a: nat, b: nat)
    requires a < UINT16 && b < UINT16
    ensures IsNewer(a, b) <==> 1 <= (a - b) % UINT16 <= UINT16 / 2
    ensures IsNewer(a, b) && IsNewer(b, a) <==> (a - b) % UINT16 == UINT16 / 2
  {
    if a != b {
      WrapSum(a, b);
    }
  }

  lemma WrapSum(a: nat, b: nat)
    requires a < UINT16 && b < UINT16 && a != b
    ensures (a - b) % UINT16 + (b - a) % UINT16 == UINT16
  {
    if a < b {
      assert a - b == (a - b + UINT16) - UINT16;
    } else {
      assert b - a == (b - a + UINT16) - UINT16;
    }
  }

  // ----- comparing data sets -----

  datatype DataSet = DataSet(
    priority1: nat,
    grandmaster: ClockIdentity,
    quality: Quality,
    priority2: nat,
    stepsRemoved: nat,
    sender: ClockIdentity,
    receiver: PortIdentity)

  function SetOf(m: Announce, receiver: PortIdentity): DataSet {
    DataSet(m.priority1, m.grandmaster, m.quality, m.priority2, m.stepsRemoved, m.source.clock, receiver)
  }

  datatype Comparison = Worse | WorseByTopology | Error1 | Error2 | BetterByTopology | Better {
    predicate IsError() {
      Error1? || Error2?
    }

    predicate IsBetter() {
      BetterByTopology? || Better?
    }

    function Mirrored(): Comparison {
      match this
      case Worse => Better
      case WorseByTopology => BetterByTopology
      case Error1 => Error1
      case Error2 => Error2
      case BetterByTopology => WorseByTopology
      case Better => Worse
    }
  }

  function CompareTopology(a: DataSet, b: DataSet): Comparison {
    if a.stepsRemoved > b.stepsRemoved + 1 then Worse
    else if a.stepsRemoved + 1 < b.stepsRemoved then Better
    else if a.stepsRemoved > b.stepsRemoved then
      if a.receiver.clock < a.sender then Worse
      else if a.receiver.clock > a.sender then WorseByTopology
      else Error1
    else if a.stepsRemoved < b.stepsRemoved then
      if b.receiver.clock < b.sender then Better
      else if b.receiver.clock > b.sender then BetterByTopology
      else Error1
    else if a.sender > b.sender then WorseByTopology
    else if a.sender < b.sender then BetterByTopology
    else if a.receiver.number > b.receiver.number then WorseByTopology
    else if a.receiver.number < b.receiver.number then BetterByTopology
    else Error2
  }

  function Compare(a: DataSet, b: DataSet): Comparison {
    if a.grandmaster == b.grandmaster then CompareTopology(a, b)
    else if a.priority1 != b.priority1 then if a.priority1 < b.priority1 then Better else Worse
    else if a.quality.clockClass != b.quality.clockClass then
      if a.quality.clockClass < b.quality.clockClass then Better else Worse
    else if a.quality.accuracy != b.quality.accuracy then
      if a.quality.accuracy < b.quality.accuracy then Better else Worse
    else if a.quality.variance != b.quality.variance then
      if a.quality.variance < b.quality.variance then Better else Worse
    else if a.priority2 != b.priority2 then if a.priority2 < b.priority2 then Better else Worse
    else if a.grandmaster > b.grandmaster then Better
    else Worse
  }

  /** Comparing the other way round gives the mirror image, so no two sets are each better than the
      other and the last branch of the comparison is never missed. */
  lemma CompareMirrored(a: DataSet, b: DataSet)
    ensures Compare(b, a) == Compare(a, b).Mirrored()
  {
  }

  /** A comparison fails exactly for one grandmaster heard over paths that cannot be told apart: one
      step apart where the longer path was received by its sender, or the same path twice. */
  lemma CompareFailsIff(a: DataSet, b: DataSet)
    ensures Compare(a, b).IsError() <==>
      a.grandmaster == b.grandmaster &&
      (|| (a.stepsRemoved == b.stepsRemoved + 1 && a.receiver.clock == a.sender)
       || (b.stepsRemoved == a.stepsRemoved + 1 && b.receiver.clock == b.sender)
       || (a.stepsRemoved == b.stepsRemoved && a.sender == b.sender && a.receiver.number == b.receiver.number))
  {
  }

  /** The attributes of a grandmaster in the order in which they count, the smaller the better; of the
      identities the original prefers the larger. */
  function Rank(a: DataSet): seq<int> {
    var identity: int := a.grandmaster;
    [a.priority1, a.quality.clockClass, a.quality.accuracy, a.quality.variance, a.priority2, -identity]
  }

  /** The steps, the sender and the port of a path, in the order in which they count. */
  function PathRank(a: DataSet): seq<int> {
    [a.stepsRemoved, a.sender, a.receiver.number]
  }

  /** At the first place where the two differ, `r` is the smaller. */
  ghost predicate Precedes(r: seq<int>, s: seq<int>) {
    exists i :: DiffersAt(r, s, i) && r[i] < s[i]
  }

  predicate DiffersAt(r: seq<int>, s: seq<int>, i: int) {
    0 <= i < |r| && i < |s| && r[..i] == s[..i] && r[i] != s[i]
  }

  lemma DiffersOnce(r: seq<int>, s: seq<int>, i: int)
    requires DiffersAt(r, s, i)
    ensures Precedes(r, s) <==> r[i] < s[i]
  {
    forall j | DiffersAt(r, s, j)
      ensures i <= j && j <= i
    {
      SameBefore(r, s, i);
      SameBefore(r, s, j);
    }
  }

  lemma SameBefore(r: seq<int>, s: seq<int>, n: nat)
    requires n <= |r| && n <= |s| && r[..n] == s[..n]
    ensures forall k :: 0 <= k < n ==> r[k] == s[k]
  {
    forall k | 0 <= k < n
      ensures r[k] == s[k]
    {
      assert r[..n][k] == s[..n][k];
    }
  }

  /** Different grandmasters compare by the first attribute in which they differ. */
  lemma CompareIsLexicographic(a: DataSet, b: DataSet)
    requires a.grandmaster != b.grandmaster
    ensures Compare(a, b) == if Precedes(Rank(a), Rank(b)) then Better else Worse
  {
    var (r, s) := (Rank(a), Rank(b));
    var i := if r[0] != s[0] then 0 else if r[1] != s[1] then 1 else if r[2] != s[2] then 2
      else if r[3] != s[3] then 3 else if r[4] != s[4] then 4 else 5;
    DiffersOnce(r, s, i);
  }

  /** Two paths from one grandmaster, both received by one clock from others, compare by the steps, then
      by the sender, then by the port; only more than a step of difference is more than topology. */
  lemma PathsAreLexicographic(a: DataSet, b: DataSet, own: ClockIdentity)
    requires a.grandmaster == b.grandmaster && ReceivedBy(a, own) && ReceivedBy(b, own)
    ensures Compare(a, b).IsBetter() <==> Precedes(PathRank(a), PathRank(b))
    ensures Compare(a, b) == Error2 <==> PathRank(a) == PathRank(b)
    ensures Compare(a, b) != Error1
    ensures Compare(a, b) == BetterByTopology <==>
      Precedes(PathRank(a), PathRank(b)) &&
      (a.stepsRemoved == b.stepsRemoved || (a.stepsRemoved + 1 == b.stepsRemoved && b.receiver.clock > b.sender))
  {
    var (r, s) := (PathRank(a), PathRank(b));
    if r != s {
      var i := if r[0] != s[0] then 0 else if r[1] != s[1] then 1 else 2;
      DiffersOnce(r, s, i);
    }
  }

  /** One grandmaster is described alike by both. */
  predicate Agree(a: DataSet, b: DataSet) {
    a.grandmaster == b.grandmaster ==>
      a.priority1 == b.priority1 && a.quality == b.quality && a.priority2 == b.priority2
  }

  /** Received by the clock `own` from another clock. */
  predicate ReceivedBy(a: DataSet, own: ClockIdentity) {
    a.receiver.clock == own && a.sender != own
  }

  /** Among sets of one receiving clock that describe each grandmaster alike, better is transitive,
      ... */
  lemma BetterTransitive(a: DataSet, b: DataSet, c: DataSet, own: ClockIdentity)
    requires ReceivedBy(a, own) && ReceivedBy(b, own) && ReceivedBy(c, own)
    requires Agree(a, b) && Agree(b, c) && Agree(a, c)
    requires Compare(a, b).IsBetter() && Compare(b, c).IsBetter()
    ensures Compare(a, c).IsBetter()
  {
  }

  /** ... but when two messages describe one grandmaster differently, better can go round in a
      circle. */
  lemma BetterCanCycle()
    ensures var q := Quality(6, 0x21, 0);
      var to := PortIdentity(9, 1);
      var (a, b, c) := (DataSet(1, 7, q, 128, 5, 3, to), DataSet(2, 8, q, 128, 0, 4, to), DataSet(3, 7, q, 128, 0, 5, to));
      Compare(a, b).IsBetter() && Compare(b, c).IsBetter() && Compare(c, a).IsBetter()
  {
  }

  // ----- the foreign master list -----

  datatype Entry = Entry(identity: PortIdentity, announces: nat, latest: Option<Announce>, age: nat)

  /** The position of the entry of `source`, or the length of the list. */
  function Find(list: seq<Entry>, source: PortIdentity): (k: nat)
    ensures k <= |list|
    ensures k < |list| ==> list[k].identity == source
    ensures forall j :: 0 <= j < k ==> list[j].identity != source
  {
    if list == [] || list[0].identity == source then 0 else 1 + Find(list[1..], source)
  }

  function AddOrUpdate(list: seq<Entry>, m: Announce): seq<Entry> {
    var k := Find(list, m.source);
    if k == |list| then list + [Entry(m.source, 0, None, 0)]
    else
      var e := list[k];
      if e.latest.Some? && IsOlder(m.sequenceId, e.latest.value.sequenceId) then list
      else list[k := e.(announces := e.announces + 1, latest := Some(m), age := 0)]
  }

  /** The entry of a source, if the list has one. */
  function EntryOf(list: seq<Entry>, source: PortIdentity): Option<Entry> {
    var k := Find(list, source);
    if k < |list| then Some(list[k]) else None
  }

  /** A message changes the entry of its source alone: it opens one without messages, or is counted and
      kept as the latest unless it is older than the latest. */
  lemma AddChangesOne(list: seq<Entry>, m: Announce, source: PortIdentity)
    ensures EntryOf(AddOrUpdate(list, m), source) ==
      match EntryOf(list, source)
      case None => if source == m.source then Some(Entry(source, 0, None, 0)) else None
      case Some(e) =>
        if source != m.source || (e.latest.Some? && m.sequenceId != e.latest.value.sequenceId &&
                                  (e.latest.value.sequenceId - m.sequenceId) % 0x1_0000 < 0x8000)
        then Some(e)
        else Some(Entry(source, e.announces + 1, Some(m), 0))
  {
    var (k, j, added) := (Find(list, m.source), Find(list, source), AddOrUpdate(list, m));
    if j < |list| {
      FoundAt(added, source, j);
    } else if source == m.source {
      FoundAt(added, source, j);
    } else {
      FoundNowhere(added, source);
    }
  }

  lemma FoundAt(list: seq<Entry>, source: PortIdentity, k: nat)
    requires k < |list| && list[k].identity == source && forall j :: 0 <= j < k ==> list[j].identity != source
    ensures Find(list, source) == k
  {
  }

  lemma FoundNowhere(list: seq<Entry>, source: PortIdentity)
    requires forall j :: 0 <= j < |list| ==> list[j].identity != source
    ensures Find(list, source) == |list|
  {
  }

  predicate IsPurged(e: Entry, erbest: Option<Announce>) {
    if erbest.Some? && erbest.value.source == e.identity then false
    else if e.age > FOREIGN_MASTER_TIME_WINDOW then true
    else e.announces >= FOREIGN_MASTER_THRESHOLD
  }

  function Purge(list: seq<Entry>, erbest: Option<Announce>): seq<Entry> {
    if list == [] then []
    else if IsPurged(list[0], erbest) then Purge(list[1..], erbest)
    else [list[0]] + Purge(list[1..], erbest)
  }

  /** The subtraction is one of unsigned words: past the window it wraps around. */
  function Older(e: Entry): Entry {
    var age := e.age + 1;
    var most := (FOREIGN_MASTER_TIME_WINDOW - age) % SIZE_T;
    e.(age := age, announces := if e.announces > most then most else e.announces)
  }

  function AgedList(list: seq<Entry>): seq<Entry> {
    seq(|list|, i requires 0 <= i < |list| => Older(list[i]))
  }

  // ----- what the list guarantees -----

  /** IEEE 1588-2019, section 9.3.2.5 (a) and (d). */
  predicate Qualified(m: Announce, own: ClockIdentity) {
    m.source.clock != own && m.stepsRemoved < 255
  }

  /** An entry records qualified messages of its own source, and past the first interval its count
      is held below what is left of the time window; so the unsigned wrap-around never shows. */
  predicate EntryOk(e: Entry, own: ClockIdentity) {
    e.identity.clock != own &&
    (e.latest.Some? ==> Qualified(e.latest.value, own) && e.latest.value.source == e.identity) &&
    (e.announces > 0 ==> e.latest.Some? && (e.age > 0 ==> e.announces + e.age <= FOREIGN_MASTER_TIME_WINDOW))
  }

  ghost predicate ListOk(list: seq<Entry>, own: ClockIdentity) {
    (forall i :: 0 <= i < |list| ==> EntryOk(list[i], own)) &&
    forall i, j :: 0 <= i < j < |list| ==> list[i].identity != list[j].identity
  }

  /** One interval later the count is cut to what is left of the time window, or to nothing. */
  lemma OlderOk(e: Entry, own: ClockIdentity)
    requires EntryOk(e, own)
    ensures EntryOk(Older(e), own)
    ensures var left := FOREIGN_MASTER_TIME_WINDOW - Older(e).age;
      Older(e).announces == if left < 0 then 0 else if e.announces > left then left else e.announces
  {
    var age := e.age + 1;
    if age > FOREIGN_MASTER_TIME_WINDOW {
      assert e.announces == 0;
    }
  }

  lemma AgeKeepsList(list: seq<Entry>, own: ClockIdentity)
    requires ListOk(list, own)
    ensures ListOk(AgedList(list), own)
  {
    forall i | 0 <= i < |list|
      ensures EntryOk(AgedList(list)[i], own)
    {
      OlderOk(list[i], own);
    }
  }

  lemma AddKeepsList(list: seq<Entry>, m: Announce, own: ClockIdentity)
    requires ListOk(list, own) && Qualified(m, own)
    ensures ListOk(AddOrUpdate(list, m), own)
  {
  }

  /** What a purge leaves are entries of the list, none of them twice, none of them purged. */
  lemma {:induction false} PurgeKeepsList(list: seq<Entry>, erbest: Option<Announce>, own: ClockIdentity)
    requires ListOk(list, own)
    ensures ListOk(Purge(list, erbest), own)
    ensures forall e :: e in Purge(list, erbest) <==> e in list && !IsPurged(e, erbest)
  {
    if list != [] {
      var rest := list[1..];
      PurgeKeepsList(rest, erbest, own);
      assert list == [list[0]] + rest;
      forall j | 0 <= j < |Purge(rest, erbest)|
        ensures Purge(rest, erbest)[j].identity != list[0].identity
      {
        assert Purge(rest, erbest)[j] in rest;
      }
    }
  }

  /** The entries that survive a purge: that of Erbest, and those within the time window with too few
      messages to compete. */
  lemma PurgedIff(list: seq<Entry>, erbest: Option<Announce>, own: ClockIdentity, e: Entry)
    requires ListOk(list, own)
    ensures e in Purge(list, erbest) <==>
      e in list && ((erbest.Some? && e.identity == erbest.value.source) || (e.age <= 4 && e.announces < 2))
  {
    PurgeKeepsList(list, erbest, own);
  }

  predicate Knows(list: seq<Entry>, source: PortIdentity) {
    Find(list, source) < |list|
  }

  lemma KnowsIff(list: seq<Entry>, source: PortIdentity)
    ensures Knows(list, source) <==> exists k :: 0 <= k < |list| && list[k].identity == source
  {
  }

  /** The entry of the source of Erbest is never purged. */
  lemma PurgeKeepsErbest(list: seq<Entry>, erbest: Announce, own: ClockIdentity)
    requires ListOk(list, own) && Knows(list, erbest.source)
    ensures Knows(Purge(list, Some(erbest)), erbest.source)
  {
    var e := list[Find(list, erbest.source)];
    PurgeKeepsList(list, Some(erbest), own);
    assert e in Purge(list, Some(erbest));
  }
}
