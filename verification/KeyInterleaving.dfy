/**
 * Rotations that wait (kernel-core/src/auth/key_manager.rs).
 *
 * A rotation holds an advisory lock of its key type; a revocation takes none.  The rotation's SELECT of
 * the active key FOR UPDATE may wait for a revocation to commit: it then rechecks the row of its own
 * snapshot in the table as it is now, and does not see a key that became active meanwhile.
 * Here a rotation is two steps, the snapshot and what follows the wait; time and revocations, and
 * rotations of the other type, come in between.
 */
module KeyInterleaving {
  import opened Prelude
  import opened KeyLifecycle

  /** waiting: the snapshot of each rotation that is under way; used as in System. */
  datatype World = World(s: System, waiting: map<KeyType, Table>)

  datatype Event =
    | Pass(ms: nat)
    | RevokeNow(kid: string, n1: NewKey, n2: NewKey)
    | SelectActive(ty: KeyType)
    | Resume(ty: KeyType, n1: NewKey, n2: NewKey)

  /** The active key of the snapshot, if it still is the active one in the table now. */
  ghost function Rechecked(snapshot: Table, t: Table, ty: KeyType): (r: Option<string>)
    ensures r.Some? ==> Is(t, r.value, ty, Active)
  {
    var seen := One(snapshot, ty, Active);
    if seen.Some? && Is(t, seen.value, ty, Active) then seen else None
  }

  /** What follows the wait; None is a transaction aborted by an index. */
  ghost function RotateAfterWait(snapshot: Table, t: Table, ty: KeyType, now: int, n1: NewKey, n2: NewKey)
    : Option<Table>
  {
    var body := RotateFrom(t, Rechecked(snapshot, t, ty), ty, now, n1, n2);
    if body.Some? then Some(PruneRetired(body.value, ty, now)) else None
  }

  /** The rotation of the type is under way and its generated ids are fresh. */
  predicate CanResume(w: World, e: Event) {
    e.Resume? && e.ty in w.waiting && FreshKeys(w.s.used, e.n1, e.n2)
  }

  ghost function Outcome(w: World, e: Event): Option<Table>
    requires CanResume(w, e)
  {
    RotateAfterWait(w.waiting[e.ty], w.s.rows, e.ty, w.s.now, e.n1, e.n2)
  }

  ghost function Next(w: World, e: Event): World {
    match e
    case Pass(ms) => w.(s := Do(w.s, Advance(ms), true))
    case RevokeNow(kid, n1, n2) => w.(s := Do(w.s, RevokeStep(kid, n1, n2), true))
    case SelectActive(ty) => if ty in w.waiting then w else w.(waiting := w.waiting[ty := w.s.rows])
    case Resume(ty, n1, n2) =>
      if !CanResume(w, e) then w
      else if Outcome(w, e).None? then w.(waiting := w.waiting - {ty})
      else World(w.s.(rows := Outcome(w, e).value, used := w.s.used + {n1.kid, n2.kid}), w.waiting - {ty})
  }

  const START := World(FRESH, map[])

  ghost function Interleave(events: seq<Event>): World {
    if events == [] then START else Next(Interleave(events[..|events| - 1]), events[|events| - 1])
  }

  /** The serial transaction an event amounts to, if any. */
  ghost function AsStep(w: World, e: Event): Option<Step> {
    match e
    case Pass(ms) => Some(Advance(ms))
    case RevokeNow(kid, n1, n2) => Some(RevokeStep(kid, n1, n2))
    case SelectActive(_) => None
    case Resume(ty, n1, n2) =>
      if CanResume(w, e) && Outcome(w, e).Some? then Some(RotateStep(ty, n1, n2)) else None
  }

  /** The same events as serial transactions: a rotation happens when it resumes, an aborted one never. */
  ghost function Serial(events: seq<Event>): seq<Step> {
    if events == [] then []
    else
      var (before, e) := (events[..|events| - 1], events[|events| - 1]);
      var step := AsStep(Interleave(before), e);
      Serial(before) + if step.Some? then [step.value] else []
  }

  // ---------------------------------------------------------------- what a wait can do

  /** What the table can have become since the snapshot while the type was not rotated. */
  ghost predicate Since(snapshot: Table, t: Table, ty: KeyType) {
    && IndexesHold(snapshot)
    && (forall kid :: Is(snapshot, kid, ty, Active) ==> Is(t, kid, ty, Active) || RevokedIn(t, kid))
    && (Has(snapshot, ty, Active) <==> Has(t, ty, Active))
  }

  /** An active key of a type that is not rotated stays active or is revoked. */
  lemma ActiveStaysOrIsRevoked(s: System, step: Step, ty: KeyType, kid: string)
    requires Good(s) && !(step.RotateStep? && step.ty == ty)
    requires Is(s.rows, kid, ty, Active) || RevokedIn(s.rows, kid)
    ensures var t := Do(s, step, true).rows; Is(t, kid, ty, Active) || RevokedIn(t, kid)
  {
    hide IndexesHold, Inv, Revoke, Rotate;
    match step
    case Advance(_) =>
    case RotateStep(other, n1, n2) =>
      if FreshKeys(s.used, n1, n2) { RotateAt(s.rows, other, s.now, n1, n2, kid); }
    case RevokeStep(target, n1, n2) =>
      if FreshKeys(s.used, n1, n2) {
        if target in s.rows { RevokeAt(s.rows, target, s.now, n1, n2, kid); }
        else { RevokeUnknown(s.rows, target, s.now, n1, n2); }
      }
  }

  /** A type without an active key has none until it is rotated. */
  lemma StaysWithoutActive(s: System, step: Step, ty: KeyType, kid: string)
    requires Good(s) && !(step.RotateStep? && step.ty == ty) && !Has(s.rows, ty, Active)
    ensures !Is(Do(s, step, true).rows, kid, ty, Active)
  {
    if kid in s.rows {
      DoAt(s, step, kid);
      assert !Is(s.rows, kid, ty, Active);
      assert s.rows[kid].state.Next? ==> Has(s.rows, s.rows[kid].keyType, Active);
      hide IndexesHold, Inv, Do;
    } else {
      hide IndexesHold, Inv, Revoke, Rotate;
      match step
      case Advance(_) =>
      case RotateStep(other, n1, n2) =>
        if FreshKeys(s.used, n1, n2) { RotateCreates(s.rows, other, s.now, n1, n2, kid); }
      case RevokeStep(target, n1, n2) =>
        if FreshKeys(s.used, n1, n2) {
          if target in s.rows {
            RevokeCreates(s.rows, target, s.now, n1, n2, kid);
            assert !Is(s.rows, target, ty, Active);
          } else {
            RevokeUnknown(s.rows, target, s.now, n1, n2);
          }
        }
    }
  }

  lemma DoKeepsSince(s: System, step: Step, snapshot: Table, ty: KeyType)
    requires Good(s) && Since(snapshot, s.rows, ty) && !(step.RotateStep? && step.ty == ty)
    ensures Since(snapshot, Do(s, step, true).rows, ty)
  {
    hide Do, Good, IndexesHold;
    var t := Do(s, step, true).rows;
    forall kid | Is(snapshot, kid, ty, Active)
      ensures Is(t, kid, ty, Active) || RevokedIn(t, kid)
    {
      ActiveStaysOrIsRevoked(s, step, ty, kid);
    }
    if Has(s.rows, ty, Active) {
      DoKeepsActive(s, step, ty);
    } else {
      forall kid ensures !Is(t, kid, ty, Active) { StaysWithoutActive(s, step, ty, kid); }
    }
  }

  // ---------------------------------------------------------------- when the index aborts a rotation

  /** A second active key of a type violates the index. */
  lemma SecondActiveAborts(t: Table, ty: KeyType, n1: NewKey, n2: NewKey)
    requires Has(t, ty, Active)
    ensures Create2(t, n1, n2, ty).None?
  {
    var kid :| Is(t, kid, ty, Active);
    if n1.kid !in t {
      var t' := t[n1.kid := Row(n1, ty, Active)];
      assert kid in t' && n1.kid in t' && kid != n1.kid;
      assert !IndexesHold(t');
    }
  }

  /**
   * What follows a wait aborts exactly when the active key of the snapshot was revoked during
   * it; otherwise it does what a rotation of the table as it is now does.
   */
  lemma WaitAbortsExactlyWhen(snapshot: Table, t: Table, ty: KeyType, now: int, n1: NewKey, n2: NewKey)
    requires Inv(t) && Since(snapshot, t, ty) && FreshKeys(t.Keys, n1, n2)
    ensures var r := RotateAfterWait(snapshot, t, ty, now, n1, n2);
            && (r.None? <==> exists kid :: Is(snapshot, kid, ty, Active) && RevokedIn(t, kid))
            && (r.Some? ==> r == Rotate(t, ty, now, n1, n2, true))
  {
    RotateNeverAborts(t, ty, now, n1, n2, true);
    var seen := One(snapshot, ty, Active);
    if seen.None? {
      assert forall kid :: !Is(snapshot, kid, ty, Active);
      assert One(t, ty, Active).None?;
    } else {
      forall kid | Is(snapshot, kid, ty, Active) ensures kid == seen.value { OneIs(snapshot, kid, ty, Active); }
      if Is(t, seen.value, ty, Active) {
        OneIs(t, seen.value, ty, Active);
      } else {
        SecondActiveAborts(t, ty, n1, n2);
        assert Is(snapshot, seen.value, ty, Active) && RevokedIn(t, seen.value);
      }
    }
    hide IndexesHold, Inv, Has, One, Create2, RotateFrom;
  }

  // ---------------------------------------------------------------- every interleaving is serial

  ghost predicate Consistent(w: World) {
    Good(w.s) && forall ty :: ty in w.waiting ==> Since(w.waiting[ty], w.s.rows, ty)
  }

  lemma NextIsSerial(w: World, e: Event)
    requires Consistent(w)
    ensures Next(w, e).s == if AsStep(w, e).Some? then Do(w.s, AsStep(w, e).value, true) else w.s
  {
    if CanResume(w, e) {
      WaitAbortsExactlyWhen(w.waiting[e.ty], w.s.rows, e.ty, w.s.now, e.n1, e.n2);
      hide RotateAfterWait, Rotate, Since, Inv;
    }
  }

  lemma SelectKeeps(w: World, ty: KeyType)
    requires Good(w.s)
    ensures Since(w.s.rows, w.s.rows, ty)
  {
  }

  lemma NextKeeps(w: World, e: Event)
    requires Consistent(w)
    ensures Consistent(Next(w, e))
  {
    NextIsSerial(w, e);
    if e.SelectActive? {
      SelectKeeps(w, e.ty);
    } else if AsStep(w, e).Some? {
      var step := AsStep(w, e).value;
      DoKeepsGood(w.s, step, true);
      forall ty | ty in Next(w, e).waiting
        ensures Since(Next(w, e).waiting[ty], Next(w, e).s.rows, ty)
      {
        DoKeepsSince(w.s, step, w.waiting[ty], ty);
      }
    }
    hide Do, Good, Since, Outcome;
  }

  lemma {:induction false} InterleaveKeeps(events: seq<Event>)
    ensures Consistent(Interleave(events))
  {
    if events != [] {
      InterleaveKeeps(events[..|events| - 1]);
      NextKeeps(Interleave(events[..|events| - 1]), events[|events| - 1]);
    } else {
      FreshIsGood();
    }
  }

  /**
   * Every interleaving ends in the state of a serial run, in which a rotation happens when it
   * resumes and an aborted one does not happen: what holds of all serial runs holds of it.
   */
  lemma {:induction false} InterleavingIsSerial(events: seq<Event>)
    ensures Interleave(events).s == Run(FRESH, Serial(events), true)
  {
    if events != [] {
      var before, e := events[..|events| - 1], events[|events| - 1];
      InterleavingIsSerial(before);
      InterleaveKeeps(before);
      var w := Interleave(before);
      NextIsSerial(w, e);
      if AsStep(w, e).Some? {
        var step := AsStep(w, e).value;
        assert Serial(events) == Serial(before) + [step];
        assert (Serial(before) + [step])[..|Serial(before) + [step]| - 1] == Serial(before);
      } else {
        assert Serial(events) == Serial(before);
      }
      hide Consistent, Next, Do, Outcome;
    }
  }

  /**
   * The index aborts a rotation, in any interleaving, exactly when the key that was active when
   * the rotation began to wait was revoked during the wait; and a rotation that starts anew then
   * succeeds.
   */
  lemma {:induction false} RotationAbortsExactlyWhen(events: seq<Event>, e: Event)
    requires CanResume(Interleave(events), e)
    ensures var w := Interleave(events);
            && (Outcome(w, e).None? <==>
                  exists kid :: Is(w.waiting[e.ty], kid, e.ty, Active) && RevokedIn(w.s.rows, kid))
            && Rotate(w.s.rows, e.ty, w.s.now, e.n1, e.n2, true).Some?
  {
    InterleaveKeeps(events);
    var w := Interleave(events);
    WaitAbortsExactlyWhen(w.waiting[e.ty], w.s.rows, e.ty, w.s.now, e.n1, e.n2);
    RotateNeverAborts(w.s.rows, e.ty, w.s.now, e.n1, e.n2, true);
    hide RotateAfterWait, Rotate, Interleave;
  }

  lemma OneMore(events: seq<Event>, e: Event)
    ensures Interleave(events + [e]) == Next(Interleave(events), e)
  {
    assert (events + [e])[..|events + [e]| - 1] == events;
  }

  /** So it can happen, from every state with an active key: revoke that key while a rotation waits. */
  lemma {:induction false} RevocationAbortsWaitingRotation(events: seq<Event>, ty: KeyType, kid: string,
                                                           m1: NewKey, m2: NewKey, n1: NewKey, n2: NewKey)
    requires var w := Interleave(events);
             ty !in w.waiting && Is(w.s.rows, kid, ty, Active) && FreshKeys(w.s.used, m1, m2)
    requires FreshKeys(Interleave(events).s.used + {m1.kid, m2.kid}, n1, n2)
    ensures var w := Interleave(events + [SelectActive(ty)] + [RevokeNow(kid, m1, m2)]);
            CanResume(w, Resume(ty, n1, n2)) && Outcome(w, Resume(ty, n1, n2)).None?
  {
    var waiting := events + [SelectActive(ty)];
    var revoked := waiting + [RevokeNow(kid, m1, m2)];
    OneMore(events, SelectActive(ty));
    OneMore(waiting, RevokeNow(kid, m1, m2));
    var s := Interleave(events).s;
    InterleaveKeeps(events);
    RevokeAt(s.rows, kid, s.now, m1, m2, kid);
    var w := Interleave(revoked);
    hide Revoke, Inv, Interleave;
    assert w.waiting[ty] == s.rows && RevokedIn(w.s.rows, kid);
    hide Outcome, Do;
    RotationAbortsExactlyWhen(revoked, Resume(ty, n1, n2));
  }
}
