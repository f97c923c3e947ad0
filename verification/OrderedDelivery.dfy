/**
 * Producer, stream and tracker together.
 *
 * The stream may lose, repeat and reorder: a delivery step hands the tracker any committed outbox
 * row, of any key, any number of times, or never.  Recovery looks the missing row up in the
 * committed outbox, or fails.  A replay is confirmed any time later, or never, or repeatedly.
 */
module OrderedDelivery {
  import opened Prelude
  import opened EventTypes
  import opened EventOutbox
  import opened GapTracking

  datatype System = System(db: Db, tracker: Tracker, replays: seq<(Gap, Envelope)>, applied: seq<Envelope>)

  datatype Event =
    | Produce(op: Op)
    | Deliver(row: nat, deliveryId: string, streamKey: string, now: int)
    | RecoverGap(now: int, timeout: nat, lookupFails: bool)
    | ConfirmReplay(replay: nat, now: int)

  function Find(rows: seq<Envelope>, key: ScopedKey, n: U64): Option<Envelope> {
    if rows == [] then None
    else if rows[0].Key() == key && rows[0].Seq() == Some(n) then Some(rows[0])
    else Find(rows[1..], key, n)
  }

  function Lookup(db: Db, fails: bool): Gap -> LookupAnswer {
    (gap: Gap) => if fails then Err(LookupFailed) else Ok(Find(db.outbox, gap.key, gap.expected))
  }

  /** One step; a step that names a row or a replay that does not exist changes nothing. */
  ghost function Next(s: System, step: Event): System {
    match step
    case Produce(op) => s.(db := Step(s.db, op))
    case Deliver(row, id, stream, now) =>
      if row >= |s.db.outbox| then s
      else
        var (t, r) := Observe(s.tracker, Delivery(id, stream, s.db.outbox[row]), now);
        s.(tracker := t, applied := s.applied + if r == Ok(Apply) then [s.db.outbox[row]] else [])
    case RecoverGap(now, timeout, fails) =>
      var (t, r) := Recover(s.tracker, now, timeout, Lookup(s.db, fails));
      s.(tracker := t,
         replays := s.replays + if r.Ok? && r.value.Some? && r.value.value.ReplayApply?
                                then [(r.value.value.gap, r.value.value.event)] else [])
    case ConfirmReplay(i, now) =>
      if i >= |s.replays| then s
      else
        var (gap, event) := s.replays[i];
        var t := Confirm(s.tracker, gap, event, now).0;
        s.(tracker := t, applied := s.applied + if t.expected > s.tracker.expected then [event] else [])
  }

  function Init(key: ScopedKey): System {
    System(EMPTY, New(key, 1), [], [])
  }

  ghost function RunFrom(key: ScopedKey, steps: seq<Event>): System {
    if steps == [] then Init(key) else Next(RunFrom(key, steps[..|steps| - 1]), steps[|steps| - 1])
  }

  // ---------------------------------------------------------------- invariant

  /** The event is the committed row of the key at its sequence number. */
  ghost predicate IsRow(db: Db, key: ScopedKey, n: int, e: Envelope) {
    var rows := RowsFor(db.outbox, key);
    1 <= n <= |rows| && rows[n - 1] == e
  }

  ghost predicate Inv(s: System) {
    var key := s.tracker.key;
    var rows := RowsFor(s.db.outbox, key);
    && EventOutbox.Valid(s.db)
    && Consistent(s.tracker) && !s.tracker.state.RebuildRequired?
    && 1 <= s.tracker.expected <= |rows| + 1
    && s.applied == rows[..s.tracker.expected - 1]
    && (s.tracker.gap.Some? ==> s.tracker.gap.value.actual <= |rows|)
    && forall i :: 0 <= i < |s.replays| ==>
         s.replays[i].0.key == key && IsRow(s.db, key, s.replays[i].0.expected, s.replays[i].1)
  }

  lemma {:induction false} FindFinds(rows: seq<Envelope>, key: ScopedKey, n: U64)
    ensures var f := Find(rows, key, n);
            && (f.Some? ==> f.value in rows && f.value.Key() == key && f.value.Seq() == Some(n))
            && (f.None? ==> forall e :: e in rows ==> !(e.Key() == key && e.Seq() == Some(n)))
  {
    if rows != [] {
      FindFinds(rows[1..], key, n);
      assert rows == [rows[0]] + rows[1..];
    }
  }

  /** A committed row of the key sits at the index its sequence number names. */
  lemma RowAtItsNumber(db: Db, key: ScopedKey, e: Envelope)
    requires EventOutbox.Valid(db) && e in db.outbox && e.Key() == key
    ensures e.Seq().Some? && IsRow(db, key, e.Seq().value, e)
  {
    RowsForMember(db.outbox, key, e);
    assert KeyOk(db, key);
    var i :| 0 <= i < |RowsFor(db.outbox, key)| && RowsFor(db.outbox, key)[i] == e;
  }

  lemma RowIsFound(db: Db, key: ScopedKey, n: U64)
    requires EventOutbox.Valid(db) && 1 <= n <= |RowsFor(db.outbox, key)|
    ensures var f := Find(db.outbox, key, n);
            f.Some? && f.value.Key() == key && f.value.Seq() == Some(n) && IsRow(db, key, n, f.value)
  {
    FindFinds(db.outbox, key, n);
    var e := RowsFor(db.outbox, key)[n - 1];
    RowsForMember(db.outbox, key, e);
    assert KeyOk(db, key);
    assert e in db.outbox && e.Seq() == Some(n);
    RowAtItsNumber(db, key, Find(db.outbox, key, n).value);
  }

  lemma ProduceKeeps(s: System, step: Event)
    requires Inv(s) && step.Produce?
    ensures Inv(Next(s, step)) && Next(s, step).tracker.key == s.tracker.key
  {
    StepKeepsValid(s.db, step.op);
    StepExtends(s.db, step.op, s.tracker.key);
    hide EventOutbox.Step, EventOutbox.Valid;
  }

  lemma DeliverKeeps(s: System, step: Event)
    requires Inv(s) && step.Deliver?
    ensures Inv(Next(s, step)) && Next(s, step).tracker.key == s.tracker.key
  {
    if step.row < |s.db.outbox| && s.db.outbox[step.row].Key() == s.tracker.key {
      RowAtItsNumber(s.db, s.tracker.key, s.db.outbox[step.row]);
    }
    hide EventOutbox.Valid, RowsFor, Find, Step;
  }

  lemma RecoverKeeps(s: System, step: Event)
    requires Inv(s) && step.RecoverGap?
    ensures Inv(Next(s, step)) && Next(s, step).tracker.key == s.tracker.key
  {
    if s.tracker.gap.Some? {
      RowIsFound(s.db, s.tracker.key, s.tracker.expected);
    }
  }

  lemma ConfirmKeeps(s: System, step: Event)
    requires Inv(s) && step.ConfirmReplay?
    ensures Inv(Next(s, step)) && Next(s, step).tracker.key == s.tracker.key
  {
    hide EventOutbox.Valid, RowsFor, Find, Step;
  }

  lemma NextKeeps(s: System, step: Event)
    requires Inv(s)
    ensures Inv(Next(s, step)) && Next(s, step).tracker.key == s.tracker.key
  {
    hide *;
    match step
    case Produce(_) => ProduceKeeps(s, step);
    case Deliver(_, _, _, _) => DeliverKeeps(s, step);
    case RecoverGap(_, _, _) => RecoverKeeps(s, step);
    case ConfirmReplay(_, _) => ConfirmKeeps(s, step);
  }

  lemma {:induction false} RunKeeps(key: ScopedKey, steps: seq<Event>)
    ensures Inv(RunFrom(key, steps)) && RunFrom(key, steps).tracker.key == key
  {
    if steps != [] {
      RunKeeps(key, steps[..|steps| - 1]);
      NextKeeps(RunFrom(key, steps[..|steps| - 1]), steps[|steps| - 1]);
    }
  }

  /**
   * End to end.  For every interleaving of producer transactions, every loss, duplication and
   * reordering by the stream and every use of recovery: the events applied are exactly the first
   * expected-1 committed rows of the key, in outbox order, and no rebuild is ever required.
   */
  lemma AppliesOutboxInOrder(key: ScopedKey, steps: seq<Event>)
    ensures var s := RunFrom(key, steps);
            && 1 <= s.tracker.expected <= |RowsFor(s.db.outbox, key)| + 1
            && s.applied == RowsFor(s.db.outbox, key)[..s.tracker.expected - 1]
            && NumberedFrom(s.applied, 1)
            && !s.tracker.state.RebuildRequired?
  {
    RunKeeps(key, steps);
    assert KeyOk(RunFrom(key, steps).db, key);
  }

  // ---------------------------------------------------------------- recovery closes gaps

  /** One working recovery: look the missing row up, then confirm its replay. */
  ghost function Round(s: System, now: int, timeout: nat): System {
    var r := Next(s, RecoverGap(now, timeout, false));
    if r.replays == [] then r else Next(r, ConfirmReplay(|r.replays| - 1, now))
  }

  /** Recovery rounds at the given times, at least timeout apart. */
  ghost predicate Schedule(states: seq<System>, times: seq<int>, timeout: nat) {
    && |states| == |times| + 1
    && (forall i :: 0 <= i < |times| ==> states[i + 1] == Round(states[i], times[i], timeout))
    && (forall i :: 1 <= i < |times| ==> times[i] - times[i - 1] >= timeout)
  }

  /** The gap's timer has run out, so recovery may look the missing row up. */
  ghost predicate Recoverable(s: System, now: int, timeout: nat) {
    Inv(s) && s.tracker.gap.Some? && Elapsed(now, s.tracker.startedAt.value) >= timeout
  }

  lemma RoundAdvances(s: System, now: int, timeout: nat)
    requires Recoverable(s, now, timeout)
    ensures var s' := Round(s, now, timeout);
            && Inv(s') && s'.tracker.expected == s.tracker.expected + 1
            && (if s'.tracker.expected < s.tracker.gap.value.actual
                then s'.tracker.gap == Some(s.tracker.gap.value.(expected := s'.tracker.expected))
                     && s'.tracker.startedAt == Some(now)
                else s'.tracker.state.Normal?)
  {
    RowIsFound(s.db, s.tracker.key, s.tracker.expected);
    NextKeeps(s, RecoverGap(now, timeout, false));
    var r := Next(s, RecoverGap(now, timeout, false));
    NextKeeps(r, ConfirmReplay(|r.replays| - 1, now));
  }

  lemma {:induction false} AfterRounds(states: seq<System>, times: seq<int>, timeout: nat, k: nat)
    requires Schedule(states, times, timeout) && k <= |times| && times != []
    requires Recoverable(states[0], times[0], timeout)
    requires |times| == states[0].tracker.gap.value.actual - states[0].tracker.expected
    ensures Inv(states[k]) && states[k].tracker.expected == states[0].tracker.expected + k
    ensures k < |times| ==> Recoverable(states[k], times[k], timeout)
                            && states[k].tracker.gap.value.actual == states[0].tracker.gap.value.actual
    ensures k == |times| ==> states[k].tracker.state.Normal?
  {
    if k > 0 {
      AfterRounds(states, times, timeout, k - 1);
      assert states[k - 1 + 1] == Round(states[k - 1], times[k - 1], timeout);
      RoundAdvances(states[k - 1], times[k - 1], timeout);
    }
  }

  /**
   * Progress.  With a lookup that works, a gap of g missing sequences closes after exactly g
   * recovery rounds, leaving the tracker normal at the sequence that opened the gap.
   */
  lemma GapClosesInItsLength(states: seq<System>, times: seq<int>, timeout: nat)
    requires Schedule(states, times, timeout) && times != []
    requires Recoverable(states[0], times[0], timeout)
    requires |times| == states[0].tracker.gap.value.actual - states[0].tracker.expected
    ensures var last := states[|times|];
            Inv(last) && last.tracker.state.Normal? && last.tracker.expected == states[0].tracker.gap.value.actual
  {
    AfterRounds(states, times, timeout, |times|);
  }
}
