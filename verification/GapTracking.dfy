/**
 * The per-key gap tracker of kernel-core/src/event.rs.
 *
 * `Tracker` is the abstract value of the tracker and `Observe`, `Recover` and `Confirm` are its
 * three calls on values.  Class `GapTracker` holds the four mutable fields and is proved to
 * compute exactly those functions.  The properties of whole call sequences are proved about the
 * functions, for every sequence of calls a caller can make.
 */
module GapTracking {
  import opened Prelude
  import opened EventTypes

  datatype RecoveryState = Normal | GapDetected | Recovering | RebuildRequired

  datatype Gap = Gap(key: ScopedKey, expected: U64, actual: U64)

  datatype Resolution = Apply | Duplicate | GapFound(gap: Gap) | Deferred(gap: Gap)

  datatype TrackerError =
    | RebuildPending
    | MissingSequence
    | KeyMismatch
    | GapKeyMismatch
    | SequenceMismatch
    | NoActiveGap
    | StaleGap
    | SequenceOverflow
    | LookupFailed

  datatype RecoveryAction =
    | AwaitingTimeout(gap: Gap)
    | ReplayApply(gap: Gap, event: Envelope)
    | MarkPoisonAndRebuild(key: ScopedKey)

  type LookupAnswer = Result<Option<Envelope>, TrackerError>

  datatype Tracker = Tracker(key: ScopedKey, expected: U64, state: RecoveryState,
                             startedAt: Option<int>, gap: Option<Gap>)

  // ---------------------------------------------------------------- the calls on values

  /** The condition under which the state machine's debug assertion holds. */
  predicate DebugAssertHolds(state: RecoveryState, missing: bool) {
    !(state.Normal? && missing)
  }

  function ProgressGapRecovery(state: RecoveryState, missing: bool): RecoveryState {
    match state
    case Normal => if missing then GapDetected else Normal
    case GapDetected => if missing then Recovering else RebuildRequired
    case Recovering => if missing then Recovering else Normal
    case RebuildRequired => RebuildRequired
  }

  function New(key: ScopedKey, start: U64): Tracker {
    Tracker(key, start, Normal, None, None)
  }

  /** Elapsed time saturates at zero, as a monotonic clock difference does. */
  function Elapsed(now: int, since: int): nat {
    if now >= since then now - since else 0
  }

  function AdvanceObserved(t: Tracker, now: int): Tracker
    requires t.expected < U64_MAX
  {
    var next: U64 := t.expected + 1;
    if t.gap.Some? && next < t.gap.value.actual then
      t.(expected := next,
         state := if t.state.Normal? then Normal else ProgressGapRecovery(t.state, true),
         startedAt := Some(now),
         gap := Some(t.gap.value.(expected := next)))
    else
      t.(expected := next, state := Normal, startedAt := None, gap := None)
  }

  function AdvanceConfirmed(t: Tracker, now: int): Tracker
    requires t.expected < U64_MAX && t.gap.Some?
  {
    var next: U64 := t.expected + 1;
    if next < t.gap.value.actual then
      t.(expected := next, state := ProgressGapRecovery(t.state, true),
         startedAt := Some(now), gap := Some(t.gap.value.(expected := next)))
    else
      t.(expected := next, state := ProgressGapRecovery(Recovering, false),
         startedAt := None, gap := None)
  }

  function Observe(t: Tracker, d: Delivery, now: int): (Tracker, Result<Resolution, TrackerError>) {
    if t.state.RebuildRequired? then (t, Err(RebuildPending))
    else if d.event.Seq().None? then (t, Err(MissingSequence))
    else if d.event.Key() != t.key then (t, Err(KeyMismatch))
    else
      var n := d.event.Seq().value;
      if n < t.expected then (t, Ok(Duplicate))
      else if n == t.expected then
        if t.expected == U64_MAX then (t, Err(SequenceOverflow))
        else (AdvanceObserved(t, now), Ok(Apply))
      else if t.gap.Some? then
        var gap := if n > t.gap.value.actual then t.gap.value.(actual := n) else t.gap.value;
        (t.(gap := Some(gap)), Ok(Deferred(gap)))
      else
        var gap := Gap(t.key, t.expected, n);
        (t.(state := GapDetected, startedAt := if t.startedAt.Some? then t.startedAt else Some(now),
            gap := Some(gap)),
         Ok(GapFound(gap)))
  }

  function Recover(t: Tracker, now: int, timeout: nat, lookup: Gap -> LookupAnswer)
    : (Tracker, Result<Option<RecoveryAction>, TrackerError>)
  {
    if t.startedAt.None? || t.gap.None? then (t, Ok(None))
    else
      var gap := t.gap.value;
      if Elapsed(now, t.startedAt.value) < timeout then (t, Ok(Some(AwaitingTimeout(gap))))
      else
        match lookup(gap)
        case Err(e) => (t, Err(e))
        case Ok(found) =>
          if found.Some? && found.value.Key() == gap.key && found.value.Seq() == Some(gap.expected) then
            (t.(state := ProgressGapRecovery(t.state, true), startedAt := Some(now)),
             Ok(Some(ReplayApply(gap, found.value))))
          else
            (t.(state := RebuildRequired, startedAt := None, gap := None),
             Ok(Some(MarkPoisonAndRebuild(gap.key))))
  }

  function Confirm(t: Tracker, gap: Gap, event: Envelope, now: int): (Tracker, Result<(), TrackerError>) {
    if event.Key() != t.key then (t, Err(KeyMismatch))
    else if gap.key != t.key then (t, Err(GapKeyMismatch))
    else if event.Seq().None? then (t, Err(MissingSequence))
    else if event.Seq().value != gap.expected then (t, Err(SequenceMismatch))
    else if event.Seq().value < t.expected then (t, Ok(()))
    else if t.gap.None? then (t, Err(NoActiveGap))
    else if t.gap.value.key != gap.key || t.gap.value.expected != gap.expected then (t, Err(StaleGap))
    else if t.expected == U64_MAX then (t, Err(SequenceOverflow))
    else (AdvanceConfirmed(t, now), Ok(()))
  }

  // ---------------------------------------------------------------- the object

  class GapTracker {
    const orderingKey: ScopedKey
    var expectedSeq: U64
    var state: RecoveryState
    var gapStartedAt: Option<int>
    var activeGap: Option<Gap>

    ghost function View(): Tracker
      reads this
    {
      Tracker(orderingKey, expectedSeq, state, gapStartedAt, activeGap)
    }

    constructor (key: ScopedKey, start: U64)
      ensures View() == New(key, start)
    {
      orderingKey := key;
      expectedSeq := start;
      state := Normal;
      gapStartedAt := None;
      activeGap := None;
    }

    method ObserveDelivery(d: Delivery, now: int) returns (r: Result<Resolution, TrackerError>)
      requires Consistent(View())
      modifies this
      ensures Consistent(View())
      ensures (View(), r) == Observe(old(View()), d, now)
    {
      if state == RebuildRequired { return Err(RebuildPending); }
      if d.event.Seq().None? { return Err(MissingSequence); }
      if d.event.Key() != orderingKey { return Err(KeyMismatch); }
      var n := d.event.Seq().value;
      if n < expectedSeq {
        return Ok(Duplicate);
      } else if n == expectedSeq {
        if expectedSeq == U64_MAX { return Err(SequenceOverflow); }
        expectedSeq := expectedSeq + 1;
        if activeGap.Some? && expectedSeq < activeGap.value.actual {
          if state != Normal {
            assert DebugAssertHolds(state, true);
            state := ProgressGapRecovery(state, true);
          }
          gapStartedAt := Some(now);
          activeGap := Some(Gap(activeGap.value.key, expectedSeq, activeGap.value.actual));
        } else {
          state := Normal;
          gapStartedAt := None;
          activeGap := None;
        }
        return Ok(Apply);
      } else {
        if activeGap.Some? {
          if n > activeGap.value.actual {
            activeGap := Some(activeGap.value.(actual := n));
          }
          return Ok(Deferred(activeGap.value));
        }
        var gap := Gap(orderingKey, expectedSeq, n);
        state := GapDetected;
        if gapStartedAt.None? { gapStartedAt := Some(now); }
        activeGap := Some(gap);
        return Ok(GapFound(gap));
      }
    }

    method RecoverGap(now: int, timeout: nat, lookup: Gap -> LookupAnswer)
      returns (r: Result<Option<RecoveryAction>, TrackerError>)
      requires Consistent(View())
      modifies this
      ensures Consistent(View())
      ensures (View(), r) == Recover(old(View()), now, timeout, lookup)
    {
      if gapStartedAt.None? { return Ok(None); }
      if activeGap.None? { return Ok(None); }
      var gap := activeGap.value;
      if Elapsed(now, gapStartedAt.value) < timeout { return Ok(Some(AwaitingTimeout(gap))); }
      var answer := lookup(gap);
      if answer.Err? { return Err(answer.error); }
      if answer.value.Some? {
        var event := answer.value.value;
        if event.Key() == gap.key && event.Seq() == Some(gap.expected) {
          assert DebugAssertHolds(state, true);
          state := ProgressGapRecovery(state, true);
          gapStartedAt := Some(now);
          return Ok(Some(ReplayApply(gap, event)));
        }
      }
      state := RebuildRequired;
      gapStartedAt := None;
      activeGap := None;
      return Ok(Some(MarkPoisonAndRebuild(gap.key)));
    }

    method ConfirmGapReplay(gap: Gap, event: Envelope, now: int) returns (r: Result<(), TrackerError>)
      requires Consistent(View())
      modifies this
      ensures Consistent(View())
      ensures (View(), r) == Confirm(old(View()), gap, event, now)
      ensures r != Err(SequenceOverflow)
    {
      if event.Key() != orderingKey { return Err(KeyMismatch); }
      if gap.key != orderingKey { return Err(GapKeyMismatch); }
      if event.Seq().None? { return Err(MissingSequence); }
      if event.Seq().value != gap.expected { return Err(SequenceMismatch); }
      if event.Seq().value < expectedSeq { return Ok(()); }
      if activeGap.None? { return Err(NoActiveGap); }
      if activeGap.value.key != gap.key || activeGap.value.expected != gap.expected {
        return Err(StaleGap);
      }
      expectedSeq := expectedSeq + 1;
      if expectedSeq < activeGap.value.actual {
        assert DebugAssertHolds(state, true);
        state := ProgressGapRecovery(state, true);
        gapStartedAt := Some(now);
        activeGap := Some(Gap(activeGap.value.key, expectedSeq, activeGap.value.actual));
      } else {
        state := ProgressGapRecovery(Recovering, false);
        gapStartedAt := None;
        activeGap := None;
      }
      return Ok(());
    }
  }

  // ---------------------------------------------------------------- call sequences

  /** A gap, a timer and a recovering state always occur together, and the gap is ahead. */
  predicate Consistent(t: Tracker) {
    && (t.gap.Some? <==> t.startedAt.Some?)
    && (t.gap.Some? <==> t.state.GapDetected? || t.state.Recovering?)
    && (t.gap.Some? ==>
          t.gap.value.key == t.key && t.gap.value.expected == t.expected < t.gap.value.actual)
  }

  datatype Call =
    | ObserveCall(d: Delivery, now: int)
    | RecoverCall(now: int, timeout: nat, lookup: Gap -> LookupAnswer)
    | ConfirmCall(gap: Gap, event: Envelope, now: int)

  ghost function StepTracker(t: Tracker, c: Call): Tracker {
    match c
    case ObserveCall(d, now) => Observe(t, d, now).0
    case RecoverCall(now, timeout, lookup) => Recover(t, now, timeout, lookup).0
    case ConfirmCall(gap, event, now) => Confirm(t, gap, event, now).0
  }

  /** The sequence numbers a call reports as processed for the first time. */
  ghost function AppliedBy(t: Tracker, c: Call): seq<int> {
    match c
    case ObserveCall(d, now) =>
      if Observe(t, d, now).1 == Ok(Apply) then [d.event.Seq().value] else []
    case RecoverCall(_, _, _) => []
    case ConfirmCall(gap, event, now) =>
      if Confirm(t, gap, event, now).1.Ok? && event.Seq().value >= t.expected
      then [event.Seq().value] else []
  }

  /** The sequence number a call makes the tracker see, or -1. */
  ghost function SeenBy(t: Tracker, c: Call): int {
    if c.ObserveCall? && Observe(t, c.d, c.now).1.Ok? then c.d.event.Seq().value else -1
  }

  ghost function RunTracker(t: Tracker, calls: seq<Call>): Tracker {
    if calls == [] then t
    else StepTracker(RunTracker(t, calls[..|calls| - 1]), calls[|calls| - 1])
  }

  ghost function RunApplied(t: Tracker, calls: seq<Call>): seq<int> {
    if calls == [] then []
    else
      var before := calls[..|calls| - 1];
      RunApplied(t, before) + AppliedBy(RunTracker(t, before), calls[|calls| - 1])
  }

  ghost function RunHighest(t: Tracker, calls: seq<Call>): int {
    if calls == [] then -1
    else
      var before := calls[..|calls| - 1];
      var seen := SeenBy(RunTracker(t, before), calls[|calls| - 1]);
      var high := RunHighest(t, before);
      if seen > high then seen else high
  }

  /** One call: the invariant is kept and the position moves by exactly what was reported. */
  lemma StepKeepsConsistent(t: Tracker, c: Call)
    requires Consistent(t)
    ensures Consistent(StepTracker(t, c)) && StepTracker(t, c).key == t.key
    ensures t.expected <= StepTracker(t, c).expected
    ensures AppliedBy(t, c) == Range(t.expected, StepTracker(t, c).expected)
  {
    match c
    case ObserveCall(d, now) =>
      if Observe(t, d, now).1 == Ok(Apply) {
        assert Range(t.expected, t.expected + 1) == [t.expected];
      }
    case RecoverCall(_, _, _) =>
    case ConfirmCall(gap, event, now) =>
      if Confirm(t, gap, event, now).1.Ok? && event.Seq().value >= t.expected {
        assert Range(t.expected, t.expected + 1) == [t.expected];
      }
  }

  lemma RangeSplit(a: int, b: int, c: int)
    requires a <= b <= c
    ensures Range(a, b) + Range(b, c) == Range(a, c)
  {
  }

  /** The end of an open gap is the highest sequence number seen so far. */
  lemma StepKeepsHighest(t: Tracker, c: Call, high: int)
    requires Consistent(t) && (t.gap.Some? ==> t.gap.value.actual == high) && (t.state.Normal? ==> high <= t.expected)
    ensures var after := StepTracker(t, c);
            var seen := SeenBy(t, c);
            var high' := if seen > high then seen else high;
            && (after.gap.Some? ==> after.gap.value.actual == high')
            && (after.state.Normal? ==> high' <= after.expected)
  {
  }

  /**
   * For every sequence of calls, with any deliveries, lookup answers and confirmations: the
   * tracker is consistent, an open gap ends at the highest sequence ever accepted, and the
   * sequences processed are exactly start, start+1, ..., expected-1, each once and in order.
   */
  lemma {:induction false} RunInvariant(key: ScopedKey, start: U64, calls: seq<Call>)
    ensures var t := RunTracker(New(key, start), calls);
            var high := RunHighest(New(key, start), calls);
            && Consistent(t) && t.key == key && start <= t.expected
            && RunApplied(New(key, start), calls) == Range(start, t.expected)
            && (t.gap.Some? ==> t.gap.value.actual == high)
            && (t.state.Normal? ==> high <= t.expected)
  {
    if calls != [] {
      var before, last := calls[..|calls| - 1], calls[|calls| - 1];
      RunInvariant(key, start, before);
      var t := RunTracker(New(key, start), before);
      StepKeepsConsistent(t, last);
      RangeSplit(start, t.expected, StepTracker(t, last).expected);
      StepKeepsHighest(t, last, RunHighest(New(key, start), before));
      hide StepTracker, AppliedBy, Consistent, SeenBy, Range;
    } else {
      assert Range(start, start) == [];
    }
  }

  /**
   * What a delivery of the key is told, in every reachable state in which no rebuild is required:
   * a duplicate iff it was processed or precedes the start, to apply iff it is the first not
   * processed, and otherwise the open gap, which reaches up to the highest sequence seen.
   */
  lemma {:induction false} DeliveryIsToldExactly(key: ScopedKey, start: U64, calls: seq<Call>, d: Delivery, now: int)
    requires d.event.Key() == key && d.event.Seq().Some?
    requires !RunTracker(New(key, start), calls).state.RebuildRequired?
    ensures var t := RunTracker(New(key, start), calls);
            var (done, high) := (RunApplied(New(key, start), calls), RunHighest(New(key, start), calls));
            var (n, r) := (d.event.Seq().value, Observe(t, d, now).1);
            && (r == Ok(Duplicate) <==> n < start || n in done)
            && (r == Ok(Apply) <==> n == start + |done| && n < U64_MAX)
            && (n > start + |done| ==>
                  && r.Ok? && (if t.gap.Some? then r.value.Deferred? else r.value.GapFound?)
                  && r.value.gap.key == key && r.value.gap.expected == start + |done|
                  && r.value.gap.actual == if n > high then n else high)
  {
    RunInvariant(key, start, calls);
    var t := RunTracker(New(key, start), calls);
    forall n
      ensures n in Range(start, t.expected) <==> start <= n < t.expected
    {
      if start <= n < t.expected { assert Range(start, t.expected)[n - start] == n; }
    }
    hide RunTracker, RunApplied, RunHighest;
  }

  /** The call made progress: it opened a gap, processed a sequence or handed out a replay. */
  ghost predicate Progresses(t: Tracker, c: Call) {
    match c
    case ObserveCall(d, now) =>
      Observe(t, d, now).1.Ok? && (Observe(t, d, now).1.value.Apply? || Observe(t, d, now).1.value.GapFound?)
    case RecoverCall(now, timeout, lookup) =>
      && Recover(t, now, timeout, lookup).1.Ok? && Recover(t, now, timeout, lookup).1.value.Some?
      && Recover(t, now, timeout, lookup).1.value.value.ReplayApply?
    case ConfirmCall(_, _, _) => AppliedBy(t, c) != []
  }

  /** When the run last made progress. */
  ghost function LastProgress(t: Tracker, calls: seq<Call>): Option<int> {
    if calls == [] then None
    else
      var (before, last) := (calls[..|calls| - 1], calls[|calls| - 1]);
      if Progresses(RunTracker(t, before), last) then Some(last.now) else LastProgress(t, before)
  }

  lemma StepKeepsTimer(t: Tracker, c: Call)
    requires Consistent(t)
    ensures StepTracker(t, c).gap.Some? ==>
              StepTracker(t, c).startedAt == if Progresses(t, c) then Some(c.now) else t.startedAt
  {
  }

  lemma {:induction false} TimerIsLastProgress(key: ScopedKey, start: U64, calls: seq<Call>)
    ensures var t := RunTracker(New(key, start), calls);
            t.gap.Some? ==> t.startedAt.Some? && t.startedAt == LastProgress(New(key, start), calls)
  {
    if calls != [] {
      var before, last := calls[..|calls| - 1], calls[|calls| - 1];
      TimerIsLastProgress(key, start, before);
      RunInvariant(key, start, before);
      RunInvariant(key, start, calls);
      var t := RunTracker(New(key, start), before);
      StepKeepsTimer(t, last);
      assert t.gap.None? && StepTracker(t, last).gap.Some? ==> Progresses(t, last) by { OpeningIsProgress(t, last); }
      hide StepTracker, Progresses;
    }
  }

  lemma OpeningIsProgress(t: Tracker, c: Call)
    requires Consistent(t)
    ensures t.gap.None? && StepTracker(t, c).gap.Some? ==> Progresses(t, c)
  {
  }

  /** The call opens a gap. */
  ghost predicate Opens(t: Tracker, c: Call) {
    c.ObserveCall? && Observe(t, c.d, c.now).1.Ok? && Observe(t, c.d, c.now).1.value.GapFound?
  }

  /** The last progress of the run was the opening of a gap. */
  ghost predicate OpenedLast(t: Tracker, calls: seq<Call>) {
    calls != [] &&
    var (before, last) := (calls[..|calls| - 1], calls[|calls| - 1]);
    if Progresses(RunTracker(t, before), last) then Opens(RunTracker(t, before), last) else OpenedLast(t, before)
  }

  lemma StepKeepsState(t: Tracker, c: Call)
    requires Consistent(t)
    ensures StepTracker(t, c).gap.Some? ==>
              (StepTracker(t, c).state.GapDetected? <==>
                 if Progresses(t, c) then Opens(t, c) else t.state.GapDetected?)
  {
  }

  /**
   * What the state says of an open gap, in every run: it is merely detected exactly while nothing
   * has been processed or handed out for replay since it was opened; after that it is recovering.
   */
  lemma {:induction false} StateTellsProgress(key: ScopedKey, start: U64, calls: seq<Call>)
    ensures var t := RunTracker(New(key, start), calls);
            t.gap.Some? ==> t.state == if OpenedLast(New(key, start), calls) then GapDetected else Recovering
  {
    if calls != [] {
      var before, last := calls[..|calls| - 1], calls[|calls| - 1];
      StateTellsProgress(key, start, before);
      RunInvariant(key, start, before);
      RunInvariant(key, start, calls);
      var t := RunTracker(New(key, start), before);
      StepKeepsState(t, last);
      OpeningIsProgress(t, last);
      hide StepTracker, Progresses, Opens;
    }
  }

  /**
   * When recovery looks the missing event up: an open gap is left alone until the timeout has passed
   * since the last progress of any kind; after it, the event the lookup finds is handed out.
   */
  lemma {:induction false} RecoveryWaitsExactly(key: ScopedKey, start: U64, calls: seq<Call>,
                                                now: int, timeout: nat, lookup: Gap -> LookupAnswer)
    requires RunTracker(New(key, start), calls).gap.Some?
    ensures var t := RunTracker(New(key, start), calls);
            var (progress, gap) := (LastProgress(New(key, start), calls), t.gap.value);
            var r := Recover(t, now, timeout, lookup).1;
            && progress.Some?
            && (r == Ok(Some(AwaitingTimeout(gap))) <==> now - progress.value < timeout && timeout > 0)
            && (forall e: Envelope :: r == Ok(Some(ReplayApply(gap, e))) <==>
                  && (now - progress.value >= timeout || timeout == 0) && lookup(gap) == Ok(Some(e))
                  && e.Key() == key && e.Seq() == Some(t.expected))
            && (r.Err? ==> lookup(gap).Err? && r.error == lookup(gap).error)
            && (r.Ok? ==> r.value.Some? && (r.value.value.MarkPoisonAndRebuild? ==> r.value.value.key == key))
  {
    TimerIsLastProgress(key, start, calls);
    RunInvariant(key, start, calls);
    hide RunTracker, LastProgress;
  }

  /** Which confirmations succeed, and which of them advance, in every reachable state. */
  lemma {:induction false} ConfirmedExactly(key: ScopedKey, start: U64, calls: seq<Call>,
                                            gap: Gap, event: Envelope, now: int)
    ensures var t := RunTracker(New(key, start), calls);
            var (t', r) := Confirm(t, gap, event, now);
            && (r.Ok? <==> && event.Key() == key && gap.key == key && event.Seq() == Some(gap.expected)
                           && (gap.expected < t.expected || (gap.expected == t.expected && t.gap.Some?)))
            && (t'.expected == t.expected + 1 <==> r.Ok? && gap.expected == t.expected)
            && (t'.expected != t.expected + 1 ==> t' == t)
  {
    RunInvariant(key, start, calls);
    hide RunTracker;
  }

  /** Every reachable confirmation stays clear of the overflow error. */
  lemma {:induction false} ConfirmNeverOverflows(key: ScopedKey, start: U64, calls: seq<Call>,
                              gap: Gap, event: Envelope, now: int)
    ensures Confirm(RunTracker(New(key, start), calls), gap, event, now).1 != Err(SequenceOverflow)
  {
    RunInvariant(key, start, calls);
  }

  /** Once a rebuild is required, no sequence of calls changes the tracker or processes anything. */
  lemma {:induction false} RebuildIsAbsorbing(t: Tracker, calls: seq<Call>)
    requires Consistent(t) && t.state.RebuildRequired?
    ensures RunTracker(t, calls) == t && RunApplied(t, calls) == []
  {
    if calls != [] {
      RebuildIsAbsorbing(t, calls[..|calls| - 1]);
    }
  }

  /**
   * A rebuild is entered only by a recovery whose lookup, past the timeout, answered without
   * the missing event; and every such recovery enters it.
   */
  lemma RebuildEnteredExactlyWhen(t: Tracker, c: Call)
    requires Consistent(t) && !t.state.RebuildRequired?
    ensures StepTracker(t, c).state.RebuildRequired? <==>
            && c.RecoverCall? && t.gap.Some? && Elapsed(c.now, t.startedAt.value) >= c.timeout
            && c.lookup(t.gap.value).Ok?
            && !(exists e: Envelope :: c.lookup(t.gap.value) == Ok(Some(e)) && e.Key() == t.key
                             && e.Seq() == Some(t.expected))
  {
    if c.RecoverCall? && t.gap.Some? {
      var answer := c.lookup(t.gap.value);
      if answer.Ok? && answer.value.Some? {
        assert answer == Ok(Some(answer.value.value));
      }
    }
  }
}
