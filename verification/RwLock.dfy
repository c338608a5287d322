/** The reader/writer lock held in one 32-bit word, as a protocol over any number of threads.

    Every atomic operation of the lock is one indivisible step. An agent is one call of a lock
    function together with the guard that the call may return: it starts with `Begin`, makes one
    atomic operation per `Move`, and is done when the call has returned an empty guard or its guard
    has been destroyed. A thread that holds several guards is several agents.
 */
module RwLock {
  import opened Wrappers

  const WORD_SIZE := 0x1_0000_0000
  const WAITING_BIT := 0x8000_0000
  const EXCLUSIVE_BIT := 0x4000_0000
  const READERS_MASK := 0xFF_FFFF
  const LOOP_UPPER_BOUND := 1_000_000

  /** The number of calls that may be in progress at once: one per thread. With more threads than
      this the increments of rejected readers could carry into the exclusive bit. */
  const MAX_CALLS := EXCLUSIVE_BIT - READERS_MASK - 1

  type Word = w: int | 0 <= w < WORD_SIZE

  // ----- the word -----

  predicate Waiting(w: Word) {
    w >= WAITING_BIT
  }

  predicate ExclusiveBitSet(w: Word) {
    ClearWaitingBit(w) >= EXCLUSIVE_BIT
  }

  function SetWaitingBit(w: Word): Word {
    if Waiting(w) then w else w + WAITING_BIT
  }

  function ClearWaitingBit(w: Word): Word {
    if Waiting(w) then w - WAITING_BIT else w
  }

  function ClearExclusiveBit(w: Word): Word {
    if ExclusiveBitSet(w) then w - EXCLUSIVE_BIT else w
  }

  function Increment(w: Word): Word {
    if w + 1 == WORD_SIZE then 0 else w + 1
  }

  function Decrement(w: Word): Word {
    if w == 0 then WORD_SIZE - 1 else w - 1
  }

  // ----- one agent -----

  datatype Call = LockExclusive | TryLockExclusive | LockShared | TryLockShared

  /** Where an agent stands: before which atomic operation, holding a guard, or done. `i` counts the
      finished iterations of the spin loop of `lock_exclusive`; `tries` the attempts left to a reader. */
  datatype Phase =
    | TryExclusive(spins: bool)
    | SetWaiting(i: nat)
    | CasWaiting(i: nat)
    | GiveUp
    | LoadShared(tries: nat)
    | AddShared(tries: nat)
    | UndoShared(tries: nat)
    | HoldsExclusive
    | HoldsShared
    | Done

  function First(call: Call): Phase {
    match call
    case LockExclusive => TryExclusive(true)
    case TryLockExclusive => TryExclusive(false)
    case LockShared => LoadShared(LOOP_UPPER_BOUND)
    case TryLockShared => LoadShared(1)
  }

  function Retry(tries: nat): Phase {
    if tries > 1 then LoadShared(tries - 1) else Done
  }

  /** The atomic operation an agent makes next: the new word, and where the agent stands afterwards. */
  function Advance(w: Word, p: Phase): (Word, Phase) {
    match p
    case TryExclusive(spins) =>
      if w == 0 then (EXCLUSIVE_BIT, HoldsExclusive) else (w, if spins then SetWaiting(0) else Done)
    case SetWaiting(i) => (SetWaitingBit(w), CasWaiting(i))
    case CasWaiting(i) =>
      if w == WAITING_BIT then (EXCLUSIVE_BIT, HoldsExclusive)
      else (w, if i + 1 < LOOP_UPPER_BOUND then SetWaiting(i + 1) else GiveUp)
    case GiveUp => (ClearWaitingBit(w), Done)
    case LoadShared(tries) => (w, if w >= READERS_MASK then Retry(tries) else AddShared(tries))
    case AddShared(tries) => (Increment(w), if w >= READERS_MASK then UndoShared(tries) else HoldsShared)
    case UndoShared(tries) => (Decrement(w), Retry(tries))
    case HoldsExclusive => (ClearExclusiveBit(w), Done)
    case HoldsShared => (Decrement(w), Done)
    case Done => (w, Done)
  }

  // ----- the protocol -----

  datatype LockState = LockState(word: Word, agents: seq<Phase>)

  datatype Event = Begin(id: nat, call: Call) | Move(id: nat)

  datatype Kind = Spinning | Pending | Rejected | Reading | Writing | Finished

  function KindOf(p: Phase): Kind {
    match p
    case TryExclusive(_) => Pending
    case SetWaiting(_) | CasWaiting(_) | GiveUp => Spinning
    case LoadShared(_) | AddShared(_) => Pending
    case UndoShared(_) => Rejected
    case HoldsExclusive => Writing
    case HoldsShared => Reading
    case Done => Finished
  }

  /** How many agents are of kind `k`. */
  function Tally(ps: seq<Phase>, k: Kind): nat {
    if ps == [] then 0 else Tally(ps[..|ps| - 1], k) + Indicator(KindOf(ps[|ps| - 1]) == k)
  }

  function Number(s: LockState, k: Kind): nat {
    Tally(s.agents, k)
  }

  /** How many agents there are of each kind. */
  datatype Census = Census(spinning: nat, pending: nat, rejected: nat, reading: nat, writing: nat) {
    /** The calls in progress, each made by a thread of its own. */
    function Calls(): nat {
      spinning + pending + rejected
    }

    /** The census after an agent of kind `k` has become one of kind `l`. */
    predicate Becomes(k: Kind, l: Kind, d: Census) {
      && (k == Spinning ==> spinning > 0)
      && (k == Pending ==> pending > 0)
      && (k == Rejected ==> rejected > 0)
      && (k == Reading ==> reading > 0)
      && (k == Writing ==> writing > 0)
      && d.spinning == spinning + Indicator(l == Spinning) - Indicator(k == Spinning)
      && d.pending == pending + Indicator(l == Pending) - Indicator(k == Pending)
      && d.rejected == rejected + Indicator(l == Rejected) - Indicator(k == Rejected)
      && d.reading == reading + Indicator(l == Reading) - Indicator(k == Reading)
      && d.writing == writing + Indicator(l == Writing) - Indicator(k == Writing)
    }
  }

  function Indicator(b: bool): nat {
    if b then 1 else 0
  }

  function Count(s: LockState): Census {
    Census(Number(s, Spinning), Number(s, Pending), Number(s, Rejected), Number(s, Reading), Number(s, Writing))
  }

  function PhaseOf(s: LockState, id: nat): Phase {
    if id < |s.agents| then s.agents[id] else Done
  }

  predicate Enabled(s: LockState, e: Event) {
    && e.id < |s.agents|
    && match e
       case Begin(id, _) => s.agents[id] == Done && Count(s).Calls() < MAX_CALLS
       case Move(id) => s.agents[id] != Done
  }

  function Put(s: LockState, id: nat, w: Word, p: Phase): LockState
    requires id < |s.agents|
  {
    LockState(w, s.agents[id := p])
  }

  function Apply(s: LockState, e: Event): LockState
    requires Enabled(s, e)
  {
    match e
    case Begin(id, call) => Put(s, id, s.word, First(call))
    case Move(id) => Put(s, id, Advance(s.word, s.agents[id]).0, Advance(s.word, s.agents[id]).1)
  }

  /** One event after a run that may already have failed. */
  function Then(s: Option<LockState>, e: Event): Option<LockState> {
    if s.Some? && Enabled(s.value, e) then Some(Apply(s.value, e)) else None
  }

  /** The state that a sequence of events leads to, or `None` when some event is not enabled. */
  function Run(s: LockState, es: seq<Event>): Option<LockState> {
    if es == [] then Some(s) else Then(Run(s, es[..|es| - 1]), es[|es| - 1])
  }

  /** How many atomic operations an agent has made. */
  function Moves(es: seq<Event>, id: nat): nat {
    if es == [] then 0 else Moves(es[..|es| - 1], id) + Indicator(es[|es| - 1] == Move(id))
  }

  lemma MovesSnoc(es: seq<Event>, e: Event, id: nat)
    ensures Moves(es + [e], id) == Moves(es, id) + Indicator(e == Move(id))
  {
    assert (es + [e])[..|es|] == es;
  }

  /** The agent stands before the test of a reader, and the test will turn it away. */
  predicate TurnsAway(w: Word, p: Phase) {
    (p.LoadShared? || p.AddShared?) && w >= READERS_MASK
  }

  /** How many loads an agent has made in a run, and how many times a test has turned it away. */
  function Attempts(s: LockState, es: seq<Event>, id: nat): (nat, nat) {
    if es == [] then (0, 0)
    else
      var n := |es| - 1;
      var (loads, rejections) := Attempts(s, es[..n], id);
      var before := Run(s, es[..n]);
      if es[n] != Move(id) || before.None? then (loads, rejections)
      else Counted(loads, rejections, before.value.word, PhaseOf(before.value, id))
  }

  function Counted(loads: nat, rejections: nat, w: Word, p: Phase): (nat, nat) {
    (loads + Indicator(p.LoadShared?), rejections + Indicator(TurnsAway(w, p)))
  }

  lemma AttemptsSnoc(s: LockState, es: seq<Event>, e: Event, id: nat)
    requires Run(s, es).Some?
    ensures var (a, before) := (Attempts(s, es, id), Run(s, es).value);
      Attempts(s, es + [e], id) == if e == Move(id) then Counted(a.0, a.1, before.word, PhaseOf(before, id)) else a
  {
    assert (es + [e])[..|es|] == es;
  }

  lemma RunSnoc(s: LockState, es: seq<Event>, e: Event)
    ensures Run(s, es + [e]) == Then(Run(s, es), e)
  {
    assert (es + [e])[..|es|] == es;
  }

  lemma {:induction false} RunAppend(s: LockState, es: seq<Event>, fs: seq<Event>)
    requires Run(s, es).Some?
    ensures Run(s, es + fs) == Run(Run(s, es).value, fs)
  {
    if fs == [] {
      assert es + fs == es;
    } else {
      RunAppend(s, es, fs[..|fs| - 1]);
      assert (es + fs)[..|es + fs| - 1] == es + fs[..|fs| - 1];
    }
  }

  // ----- the invariant -----

  /** What the word means, and which guards may coexist. */
  predicate Consistent(w: Word, c: Census) {
    && w == (if Waiting(w) then WAITING_BIT else 0) + (if c.writing == 1 then EXCLUSIVE_BIT else 0)
            + c.reading + c.rejected
    && c.writing <= 1
    && (c.writing == 1 ==> c.reading == 0)
    && c.reading <= READERS_MASK
    && c.Calls() <= MAX_CALLS
    && (Waiting(w) ==> c.spinning > 0)
  }

  ghost predicate Inv(s: LockState) {
    Consistent(s.word, Count(s))
  }

  /** How the number of agents of one kind changes when one agent changes phase. */
  lemma {:induction false} TallyPut(ps: seq<Phase>, id: nat, p: Phase, k: Kind)
    requires id < |ps|
    ensures Tally(ps[id := p], k) == Tally(ps, k) + Indicator(KindOf(p) == k) - Indicator(KindOf(ps[id]) == k)
  {
    var (last, qs) := (|ps| - 1, ps[id := p]);
    if id == last {
      assert qs[..last] == ps[..last];
    } else {
      TallyPut(ps[..last], id, p, k);
      assert qs[..last] == ps[..last][id := p];
    }
  }

  lemma {:induction false} TallyPositive(ps: seq<Phase>, id: nat)
    requires id < |ps|
    ensures Tally(ps, KindOf(ps[id])) > 0
  {
    if id < |ps| - 1 {
      TallyPositive(ps[..|ps| - 1], id);
    }
  }

  lemma {:induction false} TallyWitness(ps: seq<Phase>, k: Kind) returns (id: nat)
    requires Tally(ps, k) > 0
    ensures id < |ps| && KindOf(ps[id]) == k
  {
    if KindOf(ps[|ps| - 1]) == k {
      id := |ps| - 1;
    } else {
      id := TallyWitness(ps[..|ps| - 1], k);
    }
  }

  lemma TallyUnique(ps: seq<Phase>, a: nat, b: nat)
    requires a < |ps| && b < |ps| && KindOf(ps[a]) == KindOf(ps[b]) != Finished
    requires Tally(ps, KindOf(ps[a])) <= 1
    ensures a == b
  {
    if a != b {
      TallyPut(ps, a, Done, KindOf(ps[a]));
      TallyPositive(ps[a := Done], b);
      assert false;
    }
  }

  lemma CountPut(s: LockState, id: nat, w: Word, p: Phase)
    requires id < |s.agents|
    ensures Count(s).Becomes(KindOf(s.agents[id]), KindOf(p), Count(Put(s, id, w, p)))
  {
    TallyPut(s.agents, id, p, Spinning);
    TallyPut(s.agents, id, p, Pending);
    TallyPut(s.agents, id, p, Rejected);
    TallyPut(s.agents, id, p, Reading);
    TallyPut(s.agents, id, p, Writing);
    TallyPositive(s.agents, id);
  }

  /** The heart of the protocol: an atomic operation keeps the meaning of the word. */
  lemma AdvanceKeepsMeaning(w: Word, p: Phase, c: Census, d: Census)
    requires Consistent(w, c) && c.Becomes(KindOf(p), KindOf(Advance(w, p).1), d)
    ensures Consistent(Advance(w, p).0, d)
  {
    if p.LoadShared? || p.AddShared? || p.UndoShared? || p.HoldsShared? {
      ReaderKeepsMeaning(w, p, c, d);
    }
  }

  lemma ReaderKeepsMeaning(w: Word, p: Phase, c: Census, d: Census)
    requires p.LoadShared? || p.AddShared? || p.UndoShared? || p.HoldsShared?
    requires Consistent(w, c) && c.Becomes(KindOf(p), KindOf(Advance(w, p).1), d)
    ensures Consistent(Advance(w, p).0, d)
  {
  }

  lemma InvMove(s: LockState, id: nat, w: Word, q: Phase)
    requires id < |s.agents|
    requires Inv(s) && (w, q) == Advance(s.word, s.agents[id])
    ensures Inv(Put(s, id, w, q))
  {
    CountPut(s, id, w, q);
    AdvanceKeepsMeaning(s.word, s.agents[id], Count(s), Count(Put(s, id, w, q)));
  }

  lemma InvBegin(s: LockState, id: nat, call: Call)
    requires id < |s.agents|
    requires Inv(s) && s.agents[id] == Done && Count(s).Calls() < MAX_CALLS
    ensures Inv(Put(s, id, s.word, First(call)))
  {
    CountPut(s, id, s.word, First(call));
  }

  lemma InvApply(s: LockState, e: Event)
    requires Inv(s) && Enabled(s, e)
    ensures Inv(Apply(s, e))
  {
    match e
    case Begin(id, call) => InvBegin(s, id, call);
    case Move(id) => InvMove(s, id, Advance(s.word, s.agents[id]).0, Advance(s.word, s.agents[id]).1);
  }

  lemma {:induction false} InvAlways(s: LockState, es: seq<Event>)
    requires Inv(s) && Run(s, es).Some?
    ensures Inv(Run(s, es).value)
  {
    if es != [] {
      InvAlways(s, es[..|es| - 1]);
      InvApply(Run(s, es[..|es| - 1]).value, es[|es| - 1]);
    }
  }

  predicate Idle(ps: seq<Phase>) {
    forall i :: 0 <= i < |ps| ==> ps[i] == Done
  }

  lemma {:induction false} IdleTally(ps: seq<Phase>, k: Kind)
    requires Idle(ps) && k != Finished
    ensures Tally(ps, k) == 0
  {
    if ps != [] {
      IdleTally(ps[..|ps| - 1], k);
    }
  }

  lemma IdleCount(s: LockState)
    requires Idle(s.agents)
    ensures Count(s) == Census(0, 0, 0, 0, 0)
  {
    IdleTally(s.agents, Spinning);
    IdleTally(s.agents, Pending);
    IdleTally(s.agents, Rejected);
    IdleTally(s.agents, Reading);
    IdleTally(s.agents, Writing);
  }

  /** A new lock, with room for any number of agents at a time. */
  predicate Start(s: LockState) {
    s.word == 0 && Idle(s.agents)
  }

  lemma {:induction false} InvReachable(s: LockState, es: seq<Event>)
    requires Start(s) && Run(s, es).Some?
    ensures Inv(Run(s, es).value)
  {
    IdleCount(s);
    InvAlways(s, es);
  }

  // ----- what holds in every interleaving -----

  /** At most one exclusive guard, never together with a shared one, and the word counts the shared
      guards plus the increments of rejected readers, without a carry into the two flag bits. */
  ghost predicate GuardsExclude(s: LockState) {
    && (forall a, b :: PhaseOf(s, a) == HoldsExclusive && PhaseOf(s, b) == HoldsExclusive ==> a == b)
    && (forall a, b :: PhaseOf(s, a) == HoldsExclusive ==> PhaseOf(s, b) != HoldsShared)
    && (ExclusiveBitSet(s.word) <==> exists a :: PhaseOf(s, a) == HoldsExclusive)
    && Number(s, Reading) + Number(s, Rejected) < 0x4000_0000
    && s.word == (if Waiting(s.word) then 0x8000_0000 else 0) + (if ExclusiveBitSet(s.word) then 0x4000_0000 else 0)
                 + Number(s, Reading) + Number(s, Rejected)
  }

  lemma MutualExclusion(s: LockState, es: seq<Event>)
    requires Start(s) && Run(s, es).Some?
    ensures GuardsExclude(Run(s, es).value)
  {
    InvReachable(s, es);
    InvExcludes(Run(s, es).value);
  }

  lemma InvExcludes(s: LockState)
    requires Inv(s)
    ensures GuardsExclude(s)
  {
    ConsistentExcludes(s.word, Count(s));
    forall a, b | PhaseOf(s, a) == HoldsExclusive && PhaseOf(s, b) == HoldsExclusive
      ensures a == b
    {
      TallyUnique(s.agents, a, b);
    }
    forall a, b | PhaseOf(s, a) == HoldsExclusive
      ensures PhaseOf(s, b) != HoldsShared && ExclusiveBitSet(s.word)
    {
      TallyPositive(s.agents, a);
      if PhaseOf(s, b) == HoldsShared {
        TallyPositive(s.agents, b);
      }
    }
    if ExclusiveBitSet(s.word) {
      var a := TallyWitness(s.agents, Writing);
      assert PhaseOf(s, a) == HoldsExclusive;
    }
  }

  lemma ConsistentExcludes(w: Word, c: Census)
    requires Consistent(w, c)
    ensures ExclusiveBitSet(w) <==> c.writing > 0
    ensures c.reading + c.rejected < EXCLUSIVE_BIT
  {
  }

  /** A set waiting bit has an owner still in the spin loop, and an idle lock is zero. */
  ghost predicate BitOwned(s: LockState) {
    && (Waiting(s.word) ==> exists id :: KindOf(PhaseOf(s, id)) == Spinning)
    && (Idle(s.agents) ==> s.word == 0)
  }

  /** Although a writer that succeeds or gives up clears the waiting bit for everybody, the bit never
      outlives the last writer in the spin loop; and the lock always returns to zero. */
  lemma NoStaleWaitingBit(s: LockState, es: seq<Event>)
    requires Start(s) && Run(s, es).Some?
    ensures BitOwned(Run(s, es).value)
  {
    InvReachable(s, es);
    InvOwnsBit(Run(s, es).value);
  }

  lemma InvOwnsBit(s: LockState)
    requires Inv(s)
    ensures BitOwned(s)
  {
    if Waiting(s.word) {
      var id := TallyWitness(s.agents, Spinning);
      assert KindOf(PhaseOf(s, id)) == Spinning;
    }
    if Idle(s.agents) {
      IdleCount(s);
    }
  }

  // ----- who gets in -----

  /** A reader about to add is granted its guard exactly when no writer holds or waits and the count
      is below the limit. */
  lemma SharedGrantedIff(s: LockState, tries: nat)
    requires Inv(s)
    ensures Advance(s.word, AddShared(tries)).1 == HoldsShared <==>
            (&& !Waiting(s.word) && Number(s, Writing) == 0
             && Number(s, Reading) + Number(s, Rejected) < READERS_MASK)
  {
  }

  /** A test turns a reader away exactly when a writer holds or waits, or the count is at the limit. */
  lemma TurnedAwayIff(s: LockState, id: nat)
    requires Inv(s) && (PhaseOf(s, id).LoadShared? || PhaseOf(s, id).AddShared?)
    ensures TurnsAway(s.word, PhaseOf(s, id)) <==>
            Waiting(s.word) || Number(s, Writing) == 1 || Number(s, Reading) + Number(s, Rejected) >= READERS_MASK
    ensures PhaseOf(s, id).LoadShared? ==>
            (Advance(s.word, PhaseOf(s, id)).1 == AddShared(PhaseOf(s, id).tries) <==> !TurnsAway(s.word, PhaseOf(s, id)))
  {
  }

  /** A reader that was turned away starts again as long as it has another attempt. */
  lemma TriesAgain(s: LockState, id: nat)
    requires id < |s.agents| && Enabled(s, Move(id))
    requires (s.agents[id].LoadShared? && TurnsAway(s.word, s.agents[id])) || s.agents[id].UndoShared?
    ensures PhaseOf(Apply(s, Move(id)), id) ==
            if s.agents[id].tries > 1 then LoadShared(s.agents[id].tries - 1) else Done
  {
  }

  /** A writer of `lock_exclusive` whose first attempt fails goes on to the loop, sets the bit and tries again
      after each failing swap, until its 10^6 iterations are over; then it gives up. */
  lemma WriterTriesAgain(s: LockState, id: nat, w: Word, q: Phase)
    requires id < |s.agents| && Enabled(s, Move(id)) && (w, q) == Advance(s.word, s.agents[id]) && q != HoldsExclusive
    ensures s.agents[id] == First(LockExclusive) ==> (w, q) == (s.word, SetWaiting(0))
    ensures s.agents[id].SetWaiting? ==> Waiting(w) && q == CasWaiting(s.agents[id].i)
    ensures s.agents[id].CasWaiting? ==>
              w == s.word && q == if s.agents[id].i + 1 < 1_000_000 then SetWaiting(s.agents[id].i + 1) else GiveUp
    ensures s.agents[id] == GiveUp ==> !Waiting(w) && q == Done
  {
  }

  /** A waiting writer gets the lock exactly when the bit is still set, nobody holds a guard, and no
      rejected reader has still to undo its increment. */
  lemma WaitingGrantedIff(s: LockState, i: nat)
    requires Inv(s)
    ensures Advance(s.word, CasWaiting(i)).1 == HoldsExclusive <==> Waiting(s.word) && Blockers(s) == 0
  {
  }

  /** A first attempt at the exclusive lock succeeds exactly when nobody holds a guard, no rejected
      reader has still to undo its increment, and no writer waits. */
  lemma ExclusiveGrantedIff(s: LockState, spins: bool)
    requires Inv(s)
    ensures Advance(s.word, TryExclusive(spins)).1 == HoldsExclusive <==>
            (&& !Waiting(s.word)
             && Number(s, Writing) == 0 && Number(s, Reading) == 0 && Number(s, Rejected) == 0)
  {
  }

  lemma NoReaderEnters(s: LockState, e: Event, id: nat)
    requires Enabled(s, e) && Waiting(s.word)
    ensures PhaseOf(Apply(s, e), id) == HoldsShared ==> PhaseOf(s, id) == HoldsShared
  {
    if e.Move? {
      assert Advance(s.word, PhaseOf(s, e.id)).1 != HoldsShared;
    }
  }

  /** While the waiting bit stays set, no new shared guard is granted, not even to a reader that had
      loaded the word before the bit was set. */
  lemma {:induction false} WriterPreference(s: LockState, es: seq<Event>, id: nat)
    requires Run(s, es).Some?
    requires forall n :: 0 <= n < |es| ==> Run(s, es[..n]).Some? && Waiting(Run(s, es[..n]).value.word)
    ensures PhaseOf(Run(s, es).value, id) == HoldsShared ==> PhaseOf(s, id) == HoldsShared
  {
    if es != [] {
      var front := es[..|es| - 1];
      forall n | 0 <= n < |front|
        ensures Run(s, front[..n]).Some? && Waiting(Run(s, front[..n]).value.word)
      {
        assert front[..n] == es[..n];
      }
      WriterPreference(s, front, id);
      NoReaderEnters(Run(s, front).value, es[|es| - 1], id);
    }
  }

  lemma RunNone(s: LockState)
    ensures Run(s, []) == Some(s)
  {
  }

  lemma RunOne(s: LockState, e: Event)
    requires Enabled(s, e)
    ensures Run(s, [e]) == Some(Apply(s, e))
  {
    assert [e][..0] == [];
  }

  /** An agent that keeps a waiting writer out. */
  predicate Blocks(s: LockState, id: nat) {
    var k := KindOf(PhaseOf(s, id));
    k == Reading || k == Writing || k == Rejected
  }

  function Blockers(s: LockState): nat {
    Number(s, Reading) + Number(s, Writing) + Number(s, Rejected)
  }

  /** Once nobody holds a guard and every rejected reader has undone its increment, the two atomic
      operations of one iteration of a waiting writer, back to back, take the lock. */
  lemma LastStretch(s: LockState, id: nat)
    requires Inv(s) && PhaseOf(s, id).SetWaiting? && Blockers(s) == 0
    ensures Run(s, [Move(id), Move(id)]) == Some(Put(s, id, EXCLUSIVE_BIT, HoldsExclusive))
  {
    var t := Put(s, id, WAITING_BIT, CasWaiting(s.agents[id].i));
    RunOne(s, Move(id));
    RunSnoc(s, [Move(id)], Move(id));
    assert [Move(id), Move(id)] == [Move(id)] + [Move(id)];
    assert Apply(s, Move(id)) == t;
    assert Apply(t, Move(id)) == Put(t, id, EXCLUSIVE_BIT, HoldsExclusive);
    assert t.agents[id := HoldsExclusive] == s.agents[id := HoldsExclusive];
  }

  lemma BlockerLeaves(s: LockState, b: nat, w: Word, p: Phase)
    requires Blocks(s, b) && (p.LoadShared? || p.Done?)
    ensures Blockers(Put(s, b, w, p)) == Blockers(s) - 1
    ensures forall i :: Blocks(Put(s, b, w, p), i) ==> Blocks(s, i)
  {
    CountPut(s, b, w, p);
  }

  lemma FindBlocker(s: LockState) returns (b: nat)
    requires Blockers(s) > 0
    ensures Blocks(s, b)
  {
    if Number(s, Reading) > 0 {
      b := TallyWitness(s.agents, Reading);
    } else if Number(s, Writing) > 0 {
      b := TallyWitness(s.agents, Writing);
    } else {
      b := TallyWitness(s.agents, Rejected);
    }
  }

  lemma BlockerNext(w: Word, p: Phase)
    requires KindOf(p) == Reading || KindOf(p) == Writing || KindOf(p) == Rejected
    ensures Advance(w, p).1.LoadShared? || Advance(w, p).1.Done?
  {
  }

  /** No deadlock: from every consistent state a writer in the spin loop gets the lock after each
      blocker has made one step and the writer two, and nobody else has to move. */
  lemma {:induction false} WriterCanAcquire(s: LockState, id: nat) returns (es: seq<Event>)
    requires Inv(s) && PhaseOf(s, id).SetWaiting?
    ensures Run(s, es).Some? && PhaseOf(Run(s, es).value, id) == HoldsExclusive
    ensures |es| == Blockers(s) + 2
    ensures forall e :: e in es ==> e.Move? && (e.id == id || Blocks(s, e.id))
    decreases Blockers(s), 1
  {
    if Blockers(s) == 0 {
      LastStretch(s, id);
      es := [Move(id), Move(id)];
    } else {
      var b := FindBlocker(s);
      es := AfterBlocker(s, id, b, Advance(s.word, PhaseOf(s, b)).0, Advance(s.word, PhaseOf(s, b)).1);
    }
  }

  lemma {:induction false} AfterBlocker(s: LockState, id: nat, b: nat, w: Word, p: Phase) returns (es: seq<Event>)
    requires Inv(s) && PhaseOf(s, id).SetWaiting?
    requires Blocks(s, b) && (w, p) == Advance(s.word, PhaseOf(s, b))
    ensures Run(s, es).Some? && PhaseOf(Run(s, es).value, id) == HoldsExclusive
    ensures |es| == Blockers(s) + 2
    ensures forall e :: e in es ==> e.Move? && (e.id == id || Blocks(s, e.id))
    decreases Blockers(s), 0
  {
    hide Run, Inv, Blockers, Enabled, Apply, Advance;
    BlockerNext(s.word, PhaseOf(s, b));
    InvMove(s, b, w, p);
    BlockerLeaves(s, b, w, p);
    MoveTo(s, b, w, p);
    RunOne(s, Move(b));
    var rest := WriterCanAcquire(Put(s, b, w, p), id);
    RunAppend(s, [Move(b)], rest);
    es := [Move(b)] + rest;
  }

  /** A reader that can still get in: before one of its tests, or rejected with another attempt left. */
  predicate MayEnter(p: Phase) {
    p.LoadShared? || p.AddShared? || (p.UndoShared? && p.tries > 1)
  }

  /** The operations that a reader itself needs once nobody is in its way. */
  function OwnSteps(p: Phase): nat {
    if p.AddShared? then 1 else 2
  }

  /** Once nobody holds a guard and every rejected reader has undone its increment, the load and the
      increment of a reader take a shared guard. */
  lemma LastSteps(s: LockState, id: nat) returns (es: seq<Event>)
    requires Inv(s) && !Waiting(s.word) && Blockers(s) == 0 && MayEnter(PhaseOf(s, id))
    ensures Run(s, es).Some? && PhaseOf(Run(s, es).value, id) == HoldsShared
    ensures |es| == OwnSteps(PhaseOf(s, id)) && forall e :: e in es ==> e == Move(id)
  {
    hide Run, Enabled, Apply;
    var p := s.agents[id];
    if p.UndoShared? {
      TallyPositive(s.agents, id);
      assert false;
    } else if p.LoadShared? {
      var t := Put(s, id, 0, AddShared(p.tries));
      MoveTo(s, id, 0, AddShared(p.tries));
      MoveTo(t, id, 1, HoldsShared);
      RunTwo(s, t, Put(t, id, 1, HoldsShared), Move(id), Move(id));
      es := [Move(id)] + [Move(id)];
    } else {
      MoveTo(s, id, 1, HoldsShared);
      RunOne(s, Move(id));
      es := [Move(id)];
    }
  }

  /** No reader is shut out for good: from every consistent state without a waiting writer a reader with
      an attempt left gets its guard after each blocker, itself included when it was rejected, has made
      one step and the reader at most two more, and nobody else has to move. */
  lemma {:induction false} ReaderCanAcquire(s: LockState, id: nat) returns (es: seq<Event>)
    requires Inv(s) && !Waiting(s.word) && MayEnter(PhaseOf(s, id))
    ensures Run(s, es).Some? && PhaseOf(Run(s, es).value, id) == HoldsShared
    ensures |es| == Blockers(s) + OwnSteps(PhaseOf(s, id))
    ensures forall e :: e in es ==> e.Move? && (e.id == id || Blocks(s, e.id))
    decreases Blockers(s), 1
  {
    if Blockers(s) == 0 {
      es := LastSteps(s, id);
    } else {
      var b := FindBlocker(s);
      es := ReaderAfterBlocker(s, id, b, Advance(s.word, PhaseOf(s, b)).0, Advance(s.word, PhaseOf(s, b)).1);
    }
  }

  /** What a blocker leaves behind for a reader. */
  lemma BlockerMakesRoom(s: LockState, id: nat, b: nat, w: Word, p: Phase)
    requires Inv(s) && !Waiting(s.word) && MayEnter(PhaseOf(s, id))
    requires Blocks(s, b) && (w, p) == Advance(s.word, PhaseOf(s, b))
    ensures Inv(Put(s, b, w, p)) && !Waiting(w) && Blockers(Put(s, b, w, p)) == Blockers(s) - 1
    ensures MayEnter(PhaseOf(Put(s, b, w, p), id)) && OwnSteps(PhaseOf(Put(s, b, w, p), id)) == OwnSteps(PhaseOf(s, id))
    ensures forall i :: Blocks(Put(s, b, w, p), i) ==> Blocks(s, i)
  {
    hide Inv, Blockers;
    BlockerNext(s.word, PhaseOf(s, b));
    InvMove(s, b, w, p);
    BlockerLeaves(s, b, w, p);
    NoBitSet(s, b);
    if b == id {
      assert p == LoadShared(s.agents[id].tries - 1);
    }
  }

  lemma NoBitSet(s: LockState, b: nat)
    requires Inv(s) && !Waiting(s.word) && Blocks(s, b)
    ensures !Waiting(Advance(s.word, PhaseOf(s, b)).0)
  {
    TallyPositive(s.agents, b);
  }

  lemma {:induction false} ReaderAfterBlocker(s: LockState, id: nat, b: nat, w: Word, p: Phase) returns (es: seq<Event>)
    requires Inv(s) && !Waiting(s.word) && MayEnter(PhaseOf(s, id))
    requires Blocks(s, b) && (w, p) == Advance(s.word, PhaseOf(s, b))
    ensures Run(s, es).Some? && PhaseOf(Run(s, es).value, id) == HoldsShared
    ensures |es| == Blockers(s) + OwnSteps(PhaseOf(s, id))
    ensures forall e :: e in es ==> e.Move? && (e.id == id || Blocks(s, e.id))
    decreases Blockers(s), 0
  {
    hide Run, Inv, Blockers, Enabled, Apply, Advance, MayEnter, OwnSteps;
    BlockerMakesRoom(s, id, b, w, p);
    MoveTo(s, b, w, p);
    RunOne(s, Move(b));
    var rest := ReaderCanAcquire(Put(s, b, w, p), id);
    RunAppend(s, [Move(b)], rest);
    es := [Move(b)] + rest;
  }

  // ----- calls end -----

  /** The most atomic operations a call still makes before it returns. */
  function Remaining(p: Phase): nat {
    match p
    case TryExclusive(spins) => if spins then 2 * LOOP_UPPER_BOUND + 2 else 1
    case SetWaiting(i) => (if i < LOOP_UPPER_BOUND then 2 * (LOOP_UPPER_BOUND - i) else 2) + 1
    case CasWaiting(i) => (if i < LOOP_UPPER_BOUND then 2 * (LOOP_UPPER_BOUND - i) else 2)
    case GiveUp => 1
    case LoadShared(tries) => if tries == 0 then 3 else 3 * tries
    case AddShared(tries) => if tries == 0 then 2 else 3 * tries - 1
    case UndoShared(tries) => if tries == 0 then 1 else 3 * tries - 2
    case HoldsExclusive | HoldsShared | Done => 0
  }

  /** Whatever the other threads do to the word, a call returns after a bounded number of its own
      operations: 1 for `try_lock_exclusive` and 3 for `try_lock_shared`. */
  lemma CallsEnd(w: Word, p: Phase)
    requires !p.HoldsExclusive? && !p.HoldsShared? && !p.Done?
    ensures Remaining(Advance(w, p).1) < Remaining(p)
    ensures Remaining(First(TryLockExclusive)) == 1 && Remaining(First(TryLockShared)) == 3
    ensures Remaining(First(LockExclusive)) == 2 * 1_000_000 + 2
    ensures Remaining(First(LockShared)) == 3 * 1_000_000
  {
  }

  // ----- the debug assertions of the unlock functions -----

  function LowBits(w: Word): nat {
    w % 0x100_0000
  }

  /** The debug assertions hold in every reachable state, except that `unlock_shared` finds the low
      bits zero exactly when guards and undone increments add up to a multiple of 2^24. */
  lemma UnlockAssertions(s: LockState, id: nat)
    requires Inv(s)
    ensures PhaseOf(s, id) == HoldsExclusive ==> ExclusiveBitSet(s.word)
    ensures PhaseOf(s, id) == HoldsShared ==> !ExclusiveBitSet(s.word)
    ensures PhaseOf(s, id) == HoldsShared ==>
              (LowBits(s.word) > 0 <==> (Number(s, Reading) + Number(s, Rejected)) % 0x100_0000 != 0)
    ensures PhaseOf(s, id) == HoldsShared && Number(s, Reading) + Number(s, Rejected) <= READERS_MASK ==>
              LowBits(s.word) > 0
  {
    if PhaseOf(s, id) != Done {
      TallyPositive(s.agents, id);
    }
    ConsistentExcludes(s.word, Count(s));
  }

  /** The three events of one `try_lock_shared` that succeeds. */
  function Entry(id: nat): seq<Event> {
    [Begin(id, TryLockShared)] + [Move(id)] + [Move(id)]
  }

  lemma RunThree(s: LockState, t: LockState, u: LockState, v: LockState, e: Event, f: Event, g: Event)
    requires Enabled(s, e) && Apply(s, e) == t
    requires Enabled(t, f) && Apply(t, f) == u
    requires Enabled(u, g) && Apply(u, g) == v
    ensures Run(s, [e] + [f] + [g]) == Some(v)
  {
    RunOne(s, e);
    RunSnoc(s, [e], f);
    RunSnoc(s, [e] + [f], g);
  }

  lemma MoveTo(s: LockState, id: nat, w: Word, q: Phase)
    requires id < |s.agents| && s.agents[id] != Done && Advance(s.word, s.agents[id]) == (w, q)
    ensures Enabled(s, Move(id)) && Apply(s, Move(id)) == Put(s, id, w, q)
  {
  }

  lemma BeginTo(s: LockState, id: nat, call: Call)
    requires id < |s.agents| && s.agents[id] == Done && Count(s).Calls() < MAX_CALLS
    ensures Enabled(s, Begin(id, call)) && Apply(s, Begin(id, call)) == Put(s, id, s.word, First(call))
  {
  }

  lemma PutTwice(s: LockState, id: nat, w: Word, p: Phase, x: Word, q: Phase)
    requires id < |s.agents|
    ensures |Put(s, id, w, p).agents| == |s.agents| && Put(s, id, w, p).agents[id] == p && Put(s, id, w, p).word == w
    ensures Put(Put(s, id, w, p), id, x, q) == Put(s, id, x, q)
  {
    assert s.agents[id := p][id := q] == s.agents[id := q];
  }

  /** The two tests that a reader passes below the limit. */
  lemma PassesBelow(w: Word)
    requires w < READERS_MASK
    ensures First(TryLockShared) == LoadShared(1) && Advance(w, LoadShared(1)) == (w, AddShared(1))
    ensures Advance(w, AddShared(1)) == (w + 1, HoldsShared)
  {
  }

  lemma OneMore(s: LockState, id: nat)
    requires id < |s.agents| && s.agents[id] == Done && Count(s).Calls() < MAX_CALLS && s.word < READERS_MASK
    ensures Run(s, Entry(id)) == Some(Put(s, id, s.word + 1, HoldsShared))
  {
    hide Run, Put, Count, Enabled, Apply, Advance;
    var w := s.word;
    var t, u := Put(s, id, w, LoadShared(1)), Put(s, id, w, AddShared(1));
    PassesBelow(w);
    BeginTo(s, id, TryLockShared);
    PutTwice(s, id, w, LoadShared(1), w, AddShared(1));
    MoveTo(t, id, w, AddShared(1));
    PutTwice(s, id, w, AddShared(1), w + 1, HoldsShared);
    MoveTo(u, id, w + 1, HoldsShared);
    RunThree(s, t, u, Put(s, id, w + 1, HoldsShared), Begin(id, TryLockShared), Move(id), Move(id));
  }

  /** With room for 2^24 agents, the first `n` hold shared guards and nobody else is at work. */
  ghost predicate Crowded(s: LockState, n: nat) {
    && |s.agents| == READERS_MASK + 1
    && n <= READERS_MASK
    && s.word == n
    && Count(s).Calls() == 0
    && forall i :: 0 <= i < |s.agents| ==> s.agents[i] == if i < n then HoldsShared else Done
  }

  lemma CrowdGrows(s: LockState, n: nat)
    requires Crowded(s, n) && n < READERS_MASK
    ensures Crowded(Put(s, n, n + 1, HoldsShared), n + 1)
  {
    CountPut(s, n, n + 1, HoldsShared);
  }

  lemma {:induction false} Crowd(start: LockState, n: nat) returns (es: seq<Event>, s: LockState)
    requires n <= READERS_MASK && Crowded(start, 0)
    ensures Run(start, es) == Some(s) && Crowded(s, n)
  {
    if n == 0 {
      es, s := [], start;
    } else {
      var front, t := Crowd(start, n - 1);
      es, s := NextOfCrowd(start, front, t, n - 1);
    }
  }

  lemma NextOfCrowd(start: LockState, front: seq<Event>, t: LockState, n: nat) returns (es: seq<Event>, s: LockState)
    requires Run(start, front) == Some(t) && Crowded(t, n) && n < READERS_MASK
    ensures Run(start, es) == Some(s) && Crowded(s, n + 1)
  {
    s := Put(t, n, n + 1, HoldsShared);
    CrowdGrows(t, n);
    es := front + Entry(n);
    OneMore(t, n);
    RunAppend(start, front, Entry(n));
  }

  lemma RunTwo(s: LockState, t: LockState, u: LockState, e: Event, f: Event)
    requires Enabled(s, e) && Apply(s, e) == t
    requires Enabled(t, f) && Apply(t, f) == u
    ensures Run(s, [e] + [f]) == Some(u)
  {
    RunOne(s, e);
    RunSnoc(s, [e], f);
  }

  lemma CrowdedIs(s: LockState, n: nat)
    requires Crowded(s, n) && 0 < n <= READERS_MASK
    ensures |s.agents| == READERS_MASK + 1 && s.word == n && Count(s).Calls() == 0
    ensures s.agents[0] == HoldsShared && s.agents[READERS_MASK] == Done && (n < READERS_MASK ==> s.agents[n] == Done)
  {
  }

  /** The last reader enters while the late one stands between its two tests, which then adds one
      too many. */
  lemma Overcrowd(s: LockState, last: nat, late: nat) returns (es: seq<Event>, t: LockState)
    requires last == READERS_MASK - 1 && late == READERS_MASK && Crowded(s, last)
    ensures Run(s, es) == Some(t) && t.word == READERS_MASK + 1 && PhaseOf(t, 0) == HoldsShared
  {
    hide Run, Crowded;
    CrowdedIs(s, last);
    var s1 := Put(s, late, last, LoadShared(1));
    var s2 := Put(s1, late, last, AddShared(1));
    var s3 := Put(s2, last, last + 1, HoldsShared);
    t := Put(s3, late, READERS_MASK + 1, UndoShared(1));
    CountPut(s, late, last, LoadShared(1));
    CountPut(s1, late, last, AddShared(1));
    MoveTo(s1, late, last, AddShared(1));
    RunTwo(s, s1, s2, Begin(late, TryLockShared), Move(late));
    var before := [Begin(late, TryLockShared)] + [Move(late)];
    OneMore(s2, last);
    RunAppend(s, before, Entry(last));
    MoveTo(s3, late, READERS_MASK + 1, UndoShared(1));
    RunSnoc(s, before + Entry(last), Move(late));
    es := before + Entry(last) + [Move(late)];
  }

  /** A run after which a reader that releases its guard fails the second debug assertion of
      `unlock_shared`: 2^24 - 1 guards are held and one rejected reader has not yet undone its
      increment. */
  lemma UnlockAssertionCanFail() returns (start: LockState, es: seq<Event>, s: LockState, id: nat)
    ensures Start(start) && Run(start, es) == Some(s)
    ensures PhaseOf(s, id) == HoldsShared && LowBits(s.word) == 0
  {
    hide Run, Crowded;
    start := EmptyRoom();
    id := 0;
    var front, t := Crowd(start, READERS_MASK - 1);
    var back;
    back, s := Overcrowd(t, READERS_MASK - 1, READERS_MASK);
    RunAppend(start, front, back);
    es := front + back;
  }

  lemma EmptyRoom() returns (start: LockState)
    ensures Start(start) && Crowded(start, 0)
  {
    start := LockState(0, seq(READERS_MASK + 1, _ => Done));
    IdleCount(start);
  }

  // ----- without writers -----

  predicate OnlyReaders(es: seq<Event>) {
    forall e :: e in es && e.Begin? ==> e.call == LockShared || e.call == TryLockShared
  }

  function Live(s: LockState): nat {
    Number(s, Pending) + Number(s, Reading) + Number(s, Rejected)
  }

  predicate Reads(p: Phase) {
    p.LoadShared? || p.AddShared? || p.HoldsShared? || p.Done?
  }

  ghost predicate Peaceful(s: LockState) {
    && Inv(s)
    && Number(s, Rejected) == 0
    && Number(s, Spinning) == 0
    && Number(s, Writing) == 0
    && forall i :: 0 <= i < |s.agents| ==> Reads(s.agents[i])
  }

  /** An attempt passes the test it stands before. */
  predicate Passes(w: Word, p: Phase) {
    && (p.LoadShared? ==> Advance(w, p).1.AddShared?)
    && (p.AddShared? ==> Advance(w, p).1 == HoldsShared)
  }

  /** Without writers, and with at most 2^24 - 1 reader calls and guards at a time, no reader is ever
      turned away: each attempt passes both of its tests. */
  lemma {:induction false} ReadersAlwaysEnter(s: LockState, es: seq<Event>)
    requires Start(s) && Run(s, es).Some? && OnlyReaders(es)
    requires forall k :: 0 <= k <= |es| ==>
               Run(s, es[..k]).Some? && Live(Run(s, es[..k]).value) <= READERS_MASK
    ensures Peaceful(Run(s, es).value)
    ensures forall id :: Passes(Run(s, es).value.word, PhaseOf(Run(s, es).value, id))
  {
    hide Run, Live, Peaceful, Passes, Enabled, Apply;
    assert es[..|es|] == es;
    if es == [] {
      RunNone(s);
      PeacefulStart(s);
    } else {
      var front, last := es[..|es| - 1], es[|es| - 1];
      assert es == front + [last];
      forall k | 0 <= k <= |front|
        ensures Run(s, front[..k]).Some? && Live(Run(s, front[..k]).value) <= READERS_MASK
      {
        assert front[..k] == es[..k];
      }
      assert front[..|front|] == front;
      ReadersAlwaysEnter(s, front);
      RunSnoc(s, front, last);
      PeacefulStep(Run(s, front).value, last);
    }
    PeacefulEnter(Run(s, es).value);
  }

  lemma PeacefulStart(s: LockState)
    requires Start(s)
    ensures Peaceful(s)
  {
    hide Tally, Number;
    IdleCount(s);
  }

  lemma PeacefulEnter(s: LockState)
    requires Peaceful(s) && Live(s) <= READERS_MASK
    ensures forall id :: Passes(s.word, PhaseOf(s, id))
  {
    forall id
      ensures Passes(s.word, PhaseOf(s, id))
    {
      if PhaseOf(s, id).LoadShared? || PhaseOf(s, id).AddShared? {
        TallyPositive(s.agents, id);
      }
    }
  }

  lemma PeacefulPut(s: LockState, id: nat, w: Word, p: Phase)
    requires id < |s.agents| && Peaceful(s) && Inv(Put(s, id, w, p)) && Reads(p)
    ensures Peaceful(Put(s, id, w, p))
  {
    CountPut(s, id, w, p);
  }

  lemma PeacefulStep(s: LockState, e: Event)
    requires Peaceful(s) && Live(s) <= READERS_MASK && Enabled(s, e)
    requires e.Begin? ==> e.call == LockShared || e.call == TryLockShared
    ensures Peaceful(Apply(s, e))
  {
    InvApply(s, e);
    match e
    case Begin(id, call) =>
      PeacefulPut(s, id, s.word, First(call));
    case Move(id) =>
      PeacefulEnter(s);
      assert Passes(s.word, PhaseOf(s, id));
      ReadsOn(s.word, s.agents[id]);
      PeacefulPut(s, id, Advance(s.word, s.agents[id]).0, Advance(s.word, s.agents[id]).1);
  }

  lemma ReadsOn(w: Word, p: Phase)
    requires Reads(p) && Passes(w, p)
    ensures Reads(Advance(w, p).1)
  {
  }

  // ----- the functions of the lock, with the other threads running in between -----

  /** The word, shared by all threads. `agents` and `history` are bookkeeping: where everybody stands,
      and every atomic operation since the lock was made. */
  class AtomicRwLock {
    var readers: Word
    var agents: seq<Phase>
    ghost const start: LockState
    ghost var history: seq<Event>

    ghost function State(): LockState
      reads this
    {
      LockState(readers, agents)
    }

    /** The present state is the end of a run of the protocol. */
    ghost predicate Valid()
      reads this
    {
      Start(start) && Run(start, history) == Some(State())
    }

    constructor (room: nat)
      ensures Valid() && history == [] && readers == 0 && |agents| == room
    {
      readers := 0;
      agents := seq(room, _ => Done);
      history := [];
      start := LockState(0, seq(room, _ => Done));
    }

    /** The other threads make any number of operations. */
    method Interference(me: nat)
      requires Valid()
      modifies this
      ensures Valid() && |agents| == old(|agents|) && PhaseOf(State(), me) == old(PhaseOf(State(), me))
      ensures old(history) <= history && Moves(history, me) == old(Moves(history, me))
      ensures Attempts(start, history, me) == old(Attempts(start, history, me))
      ensures forall i :: old(|history|) <= i < |history| ==> history[i].id != me
    {
      hide Run, Moves, Attempts, Count, Advance, Apply;
      var n: nat := *;
      while n > 0
        invariant Valid() && |agents| == old(|agents|) && PhaseOf(State(), me) == old(PhaseOf(State(), me))
        invariant old(history) <= history && Moves(history, me) == old(Moves(history, me))
        invariant Attempts(start, history, me) == old(Attempts(start, history, me))
        invariant forall i :: old(|history|) <= i < |history| ==> history[i].id != me
      {
        var e: Event := *;
        if e.id != me && Enabled(LockState(readers, agents), e) {
          var s := Apply(LockState(readers, agents), e);
          RunSnoc(start, history, e);
          MovesSnoc(history, e, me);
          AttemptsSnoc(start, history, e, me);
          ApplyElsewhere(LockState(readers, agents), e, me);
          readers, agents, history := s.word, s.agents, history + [e];
        }
        n := n - 1;
      }
    }

    /** Notes that `me` has just made its next atomic operation on the word. */
    method Commit(ghost before: LockState, me: nat, next: Phase)
      requires Start(start) && Run(start, history) == Some(before)
      requires before.agents == agents && me < |agents| && agents[me] != Done
      requires Advance(before.word, agents[me]) == (readers, next)
      modifies `agents, `history
      ensures Valid() && agents == old(agents)[me := next] && history == old(history) + [Move(me)]
      ensures Moves(history, me) == old(Moves(history, me)) + 1
      ensures var a := old(Attempts(start, history, me));
              Attempts(start, history, me) == Counted(a.0, a.1, before.word, old(agents[me]))
    {
      hide Run, Moves, Attempts, Count, Advance;
      MoveTo(before, me, readers, next);
      RunSnoc(start, history, Move(me));
      MovesSnoc(history, Move(me), me);
      AttemptsSnoc(start, history, Move(me), me);
      agents, history := agents[me := next], history + [Move(me)];
    }

    /** A thread enters one of the functions. */
    method Enter(me: nat, call: Call)
      requires Valid() && me < |agents| && agents[me] == Done && Count(State()).Calls() < MAX_CALLS
      modifies `agents, `history
      ensures Valid() && agents == old(agents)[me := First(call)] && history == old(history) + [Begin(me, call)]
      ensures Moves(history, me) == old(Moves(history, me))
      ensures Attempts(start, history, me) == old(Attempts(start, history, me))
    {
      hide Run, Moves, Attempts, Count, First;
      RunSnoc(start, history, Begin(me, call));
      MovesSnoc(history, Begin(me, call), me);
      AttemptsSnoc(start, history, Begin(me, call), me);
      agents, history := agents[me := First(call)], history + [Begin(me, call)];
    }

    /** The compare-and-swap of `try_lock_exclusive`. */
    method TryExclusiveOnce(me: nat, spins: bool) returns (guard: bool)
      requires Valid() && me < |agents| && agents[me] == TryExclusive(spins)
      modifies this
      ensures Valid() && |agents| == old(|agents|) && old(history) <= history
      ensures Moves(history, me) == old(Moves(history, me)) + 1
      ensures agents[me] == if guard then HoldsExclusive else if spins then SetWaiting(0) else Done
    {
      hide Run, Moves;
      Interference(me);
      ghost var before := State();
      guard := readers == 0;
      if guard {
        readers := EXCLUSIVE_BIT;
      }
      Commit(before, me, if guard then HoldsExclusive else if spins then SetWaiting(0) else Done);
    }

    method TryLockExclusive(me: nat) returns (guard: bool)
      requires Valid() && me < |agents| && agents[me] == Done && Count(State()).Calls() < MAX_CALLS
      modifies this
      ensures Valid() && old(history) <= history
      ensures PhaseOf(State(), me) == if guard then HoldsExclusive else Done
      ensures guard ==> forall other :: other != me ==> !Holds(PhaseOf(State(), other))
    {
      hide Run, Count, Inv, Moves;
      Enter(me, Call.TryLockExclusive);
      guard := TryExclusiveOnce(me, false);
      if guard {
        InvReachable(start, history);
        HolderIsAlone(State(), me);
      }
    }

    /** The compare-and-swap of the spin loop. */
    method SwapWaiting(me: nat, i: nat) returns (guard: bool)
      requires Valid() && me < |agents| && agents[me] == CasWaiting(i)
      modifies this
      ensures Valid() && |agents| == old(|agents|) && old(history) <= history
      ensures Moves(history, me) == old(Moves(history, me)) + 1
      ensures agents[me] == if guard then HoldsExclusive else if i + 1 < LOOP_UPPER_BOUND then SetWaiting(i + 1) else GiveUp
    {
      hide Run, Moves;
      Interference(me);
      ghost var before := State();
      guard := readers == WAITING_BIT;
      if guard {
        readers := EXCLUSIVE_BIT;
      }
      Commit(before, me, if guard then HoldsExclusive else if i + 1 < LOOP_UPPER_BOUND then SetWaiting(i + 1) else GiveUp);
    }

    /** One iteration of the spin loop of `lock_exclusive`. */
    method SpinOnce(me: nat, i: nat) returns (guard: bool)
      requires Valid() && me < |agents| && agents[me] == SetWaiting(i)
      modifies this
      ensures Valid() && |agents| == old(|agents|) && old(history) <= history
      ensures Moves(history, me) == old(Moves(history, me)) + 2
      ensures agents[me] == if guard then HoldsExclusive else if i + 1 < LOOP_UPPER_BOUND then SetWaiting(i + 1) else GiveUp
    {
      hide Run, Moves;
      Interference(me);
      ghost var before := State();
      readers := SetWaitingBit(readers);
      Commit(before, me, CasWaiting(i));
      guard := SwapWaiting(me, i);
    }

    /** The last atomic operation was that of a writer giving up, and has cleared the waiting bit. */
    ghost predicate GaveUp(me: nat)
      reads this
    {
      && history != [] && history[|history| - 1] == Move(me)
      && Run(start, history[..|history| - 1]).Some?
      && PhaseOf(Run(start, history[..|history| - 1]).value, me) == GiveUp
      && !Waiting(readers)
    }

    /** A call that returns no guard has made its first attempt, all iterations of the spin loop, and has
        then given up; one that returns a guard has made less. */
    method LockExclusive(me: nat) returns (guard: bool)
      requires Valid() && me < |agents| && agents[me] == Done && Count(State()).Calls() < MAX_CALLS
      modifies this
      ensures Valid() && old(history) <= history
      ensures PhaseOf(State(), me) == if guard then HoldsExclusive else Done
      ensures guard ==> forall other :: other != me ==> !Holds(PhaseOf(State(), other))
      ensures guard ==> Moves(history, me) <= old(Moves(history, me)) + 1 + 2 * LOOP_UPPER_BOUND
      ensures !guard ==> GaveUp(me) && Moves(history, me) == old(Moves(history, me)) + 1 + 2 * LOOP_UPPER_BOUND + 1
    {
      hide Run, Moves, Count, Inv;
      Enter(me, Call.LockExclusive);
      guard := TryExclusiveOnce(me, true);
      var i := 0;
      while !guard && i < LOOP_UPPER_BOUND
        invariant Valid() && |agents| == old(|agents|) && old(history) <= history
        invariant 0 <= i <= LOOP_UPPER_BOUND
        invariant agents[me] == if guard then HoldsExclusive else if i < LOOP_UPPER_BOUND then SetWaiting(i) else GiveUp
        invariant Moves(history, me) == old(Moves(history, me)) + 1 + 2 * i
      {
        guard := SpinOnce(me, i);
        i := i + 1;
      }
      if guard {
        InvReachable(start, history);
        HolderIsAlone(State(), me);
      } else {
        Interference(me);
        ghost var before := State();
        ghost var events := history;
        readers := ClearWaitingBit(readers);
        Commit(before, me, Done);
        assert history[..|history| - 1] == events;
      }
    }

    /** The increment of a reader, and its undoing when it is rejected. */
    method AddOnce(me: nat, tries: nat) returns (guard: bool)
      requires Valid() && me < |agents| && agents[me] == AddShared(tries)
      modifies this
      ensures Valid() && |agents| == old(|agents|) && old(history) <= history
      ensures agents[me] == if guard then HoldsShared else Retry(tries)
      ensures var a := old(Attempts(start, history, me));
              Attempts(start, history, me) == (a.0, a.1 + Indicator(!guard))
    {
      hide Run, Moves, Attempts;
      Interference(me);
      ghost var before := State();
      var prevReaders := readers;
      readers := Increment(readers);
      Commit(before, me, if prevReaders >= READERS_MASK then UndoShared(tries) else HoldsShared);
      if prevReaders >= READERS_MASK {
        Undo(me, tries);
        return false;
      }
      return true;
    }

    method Undo(me: nat, tries: nat)
      requires Valid() && me < |agents| && agents[me] == UndoShared(tries)
      modifies this
      ensures Valid() && |agents| == old(|agents|) && old(history) <= history
      ensures agents[me] == Retry(tries) && Attempts(start, history, me) == old(Attempts(start, history, me))
    {
      hide Run, Moves, Attempts;
      Interference(me);
      ghost var before := State();
      readers := Decrement(readers);
      Commit(before, me, Retry(tries));
    }

    /** One attempt of a reader that has `tries` attempts left. */
    method TrySharedOnce(me: nat, tries: nat) returns (guard: bool)
      requires Valid() && me < |agents| && agents[me] == LoadShared(tries)
      modifies this
      ensures Valid() && |agents| == old(|agents|) && old(history) <= history
      ensures agents[me] == if guard then HoldsShared else Retry(tries)
      ensures var a := old(Attempts(start, history, me));
              Attempts(start, history, me) == (a.0 + 1, a.1 + Indicator(!guard))
    {
      hide Run, Moves, Attempts;
      Interference(me);
      var prevReaders := readers;
      Commit(State(), me, if prevReaders >= READERS_MASK then Retry(tries) else AddShared(tries));
      if prevReaders >= READERS_MASK {
        return false;
      }
      guard := AddOnce(me, tries);
    }

    /** Returns no guard exactly when one of its two tests turned it away. */
    method TryLockShared(me: nat) returns (guard: bool)
      requires Valid() && me < |agents| && agents[me] == Done && Count(State()).Calls() < MAX_CALLS
      modifies this
      ensures Valid() && old(history) <= history
      ensures PhaseOf(State(), me) == if guard then HoldsShared else Done
      ensures guard ==> forall other :: PhaseOf(State(), other) != HoldsExclusive
      ensures var a := old(Attempts(start, history, me));
              Attempts(start, history, me) == (a.0 + 1, a.1 + Indicator(!guard))
    {
      hide Run, Count, Inv, Moves, Attempts;
      Enter(me, Call.TryLockShared);
      guard := TrySharedOnce(me, 1);
      if guard {
        InvReachable(start, history);
        InvExcludes(State());
      }
    }

    /** A call that returns no guard has made all its loads, and each was turned away there or at the
        increment that followed; one that returns a guard was turned away at every load but the last. */
    method LockShared(me: nat) returns (guard: bool)
      requires Valid() && me < |agents| && agents[me] == Done && Count(State()).Calls() < MAX_CALLS
      modifies this
      ensures Valid() && old(history) <= history
      ensures PhaseOf(State(), me) == if guard then HoldsShared else Done
      ensures guard ==> forall other :: PhaseOf(State(), other) != HoldsExclusive
      ensures var (a, b) := (old(Attempts(start, history, me)), Attempts(start, history, me));
              if guard then a.0 < b.0 <= a.0 + LOOP_UPPER_BOUND && b.1 - a.1 == b.0 - a.0 - 1
              else b == (a.0 + LOOP_UPPER_BOUND, a.1 + LOOP_UPPER_BOUND)
    {
      hide Run, Count, Inv, Moves, Attempts;
      Enter(me, Call.LockShared);
      guard := false;
      var i := 0;
      while !guard && i < LOOP_UPPER_BOUND
        invariant Valid() && |agents| == old(|agents|) && old(history) <= history
        invariant 0 <= i <= LOOP_UPPER_BOUND
        invariant agents[me] == if guard then HoldsShared else if i < LOOP_UPPER_BOUND then LoadShared(LOOP_UPPER_BOUND - i) else Done
        invariant var a := old(Attempts(start, history, me));
                  Attempts(start, history, me) == (a.0 + i, a.1 + if guard then i - 1 else i) && (guard ==> i > 0)
      {
        guard := TrySharedOnce(me, LOOP_UPPER_BOUND - i);
        i := i + 1;
      }
      if guard {
        InvReachable(start, history);
        InvExcludes(State());
      }
    }

    /** Destroys an exclusive guard; `locked` is the debug assertion. */
    method UnlockExclusive(me: nat) returns (locked: bool)
      requires Valid() && me < |agents| && agents[me] == HoldsExclusive
      modifies this
      ensures Valid() && old(history) <= history && PhaseOf(State(), me) == Done
      ensures locked
    {
      hide Run, Moves, Inv;
      Interference(me);
      InvReachable(start, history);
      UnlockAssertions(State(), me);
      ghost var before := State();
      locked := ExclusiveBitSet(readers);
      readers := ClearExclusiveBit(readers);
      Commit(before, me, Done);
    }

    /** Destroys a shared guard; `notExclusive` and `shared` are the two debug assertions. */
    method UnlockShared(me: nat) returns (notExclusive: bool, shared: bool)
      requires Valid() && me < |agents| && agents[me] == HoldsShared
      modifies this
      ensures Valid() && old(history) <= history && PhaseOf(State(), me) == Done
      ensures notExclusive && history != [] && Run(start, history[..|history| - 1]).Some?
      ensures var s := Run(start, history[..|history| - 1]).value;
              shared <==> (Number(s, Reading) + Number(s, Rejected)) % 0x100_0000 != 0
    {
      hide Inv, Number, Run;
      Interference(me);
      InvReachable(start, history);
      UnlockAssertions(State(), me);
      ghost var before := State();
      notExclusive := !ExclusiveBitSet(readers);
      shared := LowBits(readers) > 0;
      readers := Decrement(readers);
      ghost var events := history;
      Commit(before, me, Done);
      assert history[..|history| - 1] == events;
    }
  }

  lemma ApplyElsewhere(s: LockState, e: Event, id: nat)
    requires Enabled(s, e) && e.id != id
    ensures |Apply(s, e).agents| == |s.agents| && PhaseOf(Apply(s, e), id) == PhaseOf(s, id)
  {
  }

  predicate Holds(p: Phase) {
    p.HoldsExclusive? || p.HoldsShared?
  }

  lemma HolderIsAlone(s: LockState, me: nat)
    requires Inv(s) && PhaseOf(s, me) == HoldsExclusive
    ensures forall other :: other != me ==> !Holds(PhaseOf(s, other))
  {
    InvExcludes(s);
  }
}
