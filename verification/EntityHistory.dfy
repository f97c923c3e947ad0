/**
 * Entity records and their history (kernel-data/src/repository.rs) within one tenant.
 *
 * Each call runs in a transaction that commits it or undoes it.  JSON diff and patch are
 * parameters subject to the law of RFC 6902: applying diff(a, b) to a gives b.
 */
module EntityHistory {
  import opened Prelude

  const I32_MAX: int := 0x7FFF_FFFF

  type Json = string

  type Diff = (Json, Json) -> Json

  datatype Change = Created(content: Json) | Updated(patch: Json) | Deleted(snapshot: Json)

  datatype Entry = Entry(change: Change, version: int)

  datatype Record = Record(version: int, content: Json)

  datatype DataError = ValidationError | VersionConflict | NotFound | VersionOverflow | DatabaseError

  /** The records, and for each entity its history rows in the order they were written. */
  datatype Store = Store(records: map<string, Record>, history: map<string, seq<Entry>>)

  datatype Op =
    | CreateOp(newId: Option<string>, entityType: Option<string>, content: Option<Json>, version: Option<int>)
    | UpdateOp(id: string, payloadId: Option<string>, version: Option<int>, content: Option<Json>)
    | DeleteOp(id: string)

  function Create(s: Store, id: Option<string>, entityType: Option<string>, content: Option<Json>, version: Option<int>)
    : (Store, Result<Record, DataError>)
  {
    if id.None? || entityType.None? || content.None? then (s, Err(ValidationError))
    else if id.value in s.records then (s, Err(DatabaseError))
    else
      var r := Record(if version.Some? then version.value else 1, content.value);
      var rows := if id.value in s.history then s.history[id.value] else [];
      (Store(s.records[id.value := r], s.history[id.value := rows + [Entry(Created(r.content), r.version)]]), Ok(r))
  }

  function Update(diff: Diff, s: Store, id: string, payloadId: Option<string>, version: Option<int>,
                  content: Option<Json>)
    : (Store, Result<Record, DataError>)
  {
    if payloadId.Some? && payloadId.value != id then (s, Err(ValidationError))
    else if id !in s.records then (s, Err(NotFound))
    else if version.None? then (s, Err(ValidationError))
    else if version.value != s.records[id].version then (s, Err(VersionConflict))
    else if s.records[id].version >= I32_MAX then (s, Err(VersionOverflow))
    else
      var existing := s.records[id];
      var r := Record(existing.version + 1, if content.Some? then content.value else existing.content);
      var rows := if id in s.history then s.history[id] else [];
      (Store(s.records[id := r],
             s.history[id := rows + [Entry(Updated(diff(existing.content, r.content)), r.version)]]), Ok(r))
  }

  /** Some history row points at the record. */
  predicate Referenced(history: map<string, seq<Entry>>, id: string) {
    id in history && history[id] != []
  }

  /**
   * The delete writes its own history row, which references the record; the foreign key from
   * history to record, ON DELETE NO ACTION, then refuses to remove the record.
   */
  function Delete(s: Store, id: string): (Store, Result<(), DataError>) {
    if id !in s.records then (s, Err(NotFound))
    else
      var rows := if id in s.history then s.history[id] else [];
      var history := s.history[id := rows + [Entry(Deleted(s.records[id].content), s.records[id].version)]];
      if Referenced(history, id) then (s, Err(DatabaseError))
      else (Store(s.records - {id}, history), Ok(()))
  }

  function Do(diff: Diff, s: Store, op: Op): Store {
    match op
    case CreateOp(id, ty, content, version) => Create(s, id, ty, content, version).0
    case UpdateOp(id, payloadId, version, content) => Update(diff, s, id, payloadId, version, content).0
    case DeleteOp(id) => Delete(s, id).0
  }

  const EMPTY := Store(map[], map[])

  ghost function Run(diff: Diff, ops: seq<Op>): Store {
    if ops == [] then EMPTY else Do(diff, Run(diff, ops[..|ops| - 1]), ops[|ops| - 1])
  }

  class EntityRepository {
    var records: map<string, Record>
    var history: map<string, seq<Entry>>

    ghost function View(): Store
      reads this
    {
      Store(records, history)
    }

    constructor ()
      ensures View() == EMPTY
    {
      records := map[];
      history := map[];
    }

    method CreateEntity(id: Option<string>, entityType: Option<string>, content: Option<Json>, version: Option<int>)
      returns (r: Result<Record, DataError>)
      modifies this
      ensures (View(), r) == Create(old(View()), id, entityType, content, version)
    {
      if id.None? { return Err(ValidationError); }
      if entityType.None? { return Err(ValidationError); }
      if content.None? { return Err(ValidationError); }
      var v := if version.Some? then version.value else 1;
      if id.value in records { return Err(DatabaseError); }
      records := records[id.value := Record(v, content.value)];
      var rows := if id.value in history then history[id.value] else [];
      history := history[id.value := rows + [Entry(Created(content.value), v)]];
      return Ok(Record(v, content.value));
    }

    method UpdateEntity(diff: Diff, id: string, payloadId: Option<string>, version: Option<int>, content: Option<Json>)
      returns (r: Result<Record, DataError>)
      modifies this
      ensures (View(), r) == Update(diff, old(View()), id, payloadId, version, content)
    {
      if payloadId.Some? && payloadId.value != id { return Err(ValidationError); }
      if id !in records { return Err(NotFound); }
      var existing := records[id];
      if version.None? { return Err(ValidationError); }
      if version.value != existing.version { return Err(VersionConflict); }
      if existing.version >= I32_MAX { return Err(VersionOverflow); }
      var next := Record(existing.version + 1, if content.Some? then content.value else existing.content);
      records := records[id := next];
      var rows := if id in history then history[id] else [];
      history := history[id := rows + [Entry(Updated(diff(existing.content, next.content)), next.version)]];
      return Ok(next);
    }
  }

  // ---------------------------------------------------------------- replay

  ghost predicate PatchLaw(diff: Diff, apply: (Json, Json) -> Json) {
    forall a, b :: apply(a, diff(a, b)) == b
  }

  /** Folds the patches over the content of the first row. */
  ghost function Replay(apply: (Json, Json) -> Json, entries: seq<Entry>): Option<Json> {
    if entries == [] then None
    else
      var last := entries[|entries| - 1];
      if |entries| == 1 then (if last.change.Created? then Some(last.change.content) else None)
      else
        var before := Replay(apply, entries[..|entries| - 1]);
        if before.Some? && last.change.Updated? then Some(apply(before.value, last.change.patch)) else None
  }

  /** The rows carry consecutive versions ending at the record's, and replay to its content. */
  ghost predicate ChainOk(apply: (Json, Json) -> Json, entries: seq<Entry>, r: Record) {
    && entries != []
    && (forall i :: 0 <= i < |entries| ==> entries[i].version == r.version - (|entries| - 1 - i))
    && Replay(apply, entries) == Some(r.content)
  }

  ghost predicate Consistent(apply: (Json, Json) -> Json, s: Store) {
    && s.records.Keys == s.history.Keys
    && forall id :: id in s.records ==> ChainOk(apply, s.history[id], s.records[id])
  }

  lemma ChainStarts(apply: (Json, Json) -> Json, r: Record)
    ensures ChainOk(apply, [] + [Entry(Created(r.content), r.version)], r)
  {
  }

  lemma ChainExtends(diff: Diff, apply: (Json, Json) -> Json, entries: seq<Entry>, r: Record, content: Json)
    requires PatchLaw(diff, apply) && ChainOk(apply, entries, r)
    ensures ChainOk(apply, entries + [Entry(Updated(diff(r.content, content)), r.version + 1)],
                    Record(r.version + 1, content))
  {
    var longer := entries + [Entry(Updated(diff(r.content, content)), r.version + 1)];
    assert longer[..|longer| - 1] == entries;
  }

  lemma DoKeepsConsistent(diff: Diff, apply: (Json, Json) -> Json, s: Store, op: Op)
    requires PatchLaw(diff, apply) && Consistent(apply, s)
    ensures Consistent(apply, Do(diff, s, op))
    ensures var h := Do(diff, s, op).history; forall id :: id in s.history ==> id in h && s.history[id] <= h[id]
  {
    hide Replay, PatchLaw, ChainOk;
    match op
    case CreateOp(id, ty, content, version) =>
      if Create(s, id, ty, content, version).1.Ok? {
        assert id.value !in s.history;
        ChainStarts(apply, Create(s, id, ty, content, version).1.value);
      }
    case UpdateOp(id, payloadId, version, content) =>
      if Update(diff, s, id, payloadId, version, content).1.Ok? {
        assert id in s.history;
        ChainExtends(diff, apply, s.history[id], s.records[id],
                     if content.Some? then content.value else s.records[id].content);
      }
    case DeleteOp(id) => DeleteNeverSucceeds(s, id);
  }

  lemma {:induction false} RunKeepsConsistent(diff: Diff, apply: (Json, Json) -> Json, ops: seq<Op>)
    requires PatchLaw(diff, apply)
    ensures Consistent(apply, Run(diff, ops))
  {
    if ops != [] {
      RunKeepsConsistent(diff, apply, ops[..|ops| - 1]);
      DoKeepsConsistent(diff, apply, Run(diff, ops[..|ops| - 1]), ops[|ops| - 1]);
    }
  }

  lemma {:induction false} HistoryOnlyGrows(diff: Diff, apply: (Json, Json) -> Json, ops: seq<Op>, i: nat, id: string)
    requires PatchLaw(diff, apply) && i <= |ops| && id in Run(diff, ops[..i]).history
    ensures id in Run(diff, ops).history && Run(diff, ops[..i]).history[id] <= Run(diff, ops).history[id]
  {
    if i == |ops| {
      assert ops[..i] == ops;
    } else {
      var before := ops[..|ops| - 1];
      assert before[..i] == ops[..i];
      HistoryOnlyGrows(diff, apply, before, i, id);
      RunKeepsConsistent(diff, apply, before);
      DoKeepsConsistent(diff, apply, Run(diff, before), ops[|ops| - 1]);
    }
  }

  /**
   * For every run of creates, updates and deletes and every moment i of it: an entity's final
   * history has consecutive versions without repeats, begins with its creation, and the rows
   * written up to moment i replay to the content the entity had then.
   */
  lemma {:induction false} HistoryReplaysEveryVersion(diff: Diff, apply: (Json, Json) -> Json, ops: seq<Op>,
                                                      i: nat, id: string)
    requires PatchLaw(diff, apply) && i <= |ops| && id in Run(diff, ops[..i]).records
    ensures var (earlier, now) := (Run(diff, ops[..i]), Run(diff, ops));
            && id in now.records && id in now.history && id in earlier.history
            && (forall k :: 0 <= k < |now.history[id]| ==>
                  now.history[id][k].version == now.history[id][0].version + k)
            && |earlier.history[id]| <= |now.history[id]|
            && Replay(apply, now.history[id][..|earlier.history[id]|]) == Some(earlier.records[id].content)
            && Replay(apply, now.history[id]) == Some(now.records[id].content)
  {
    hide Run, Replay, PatchLaw;
    RunKeepsConsistent(diff, apply, ops[..i]);
    RunKeepsConsistent(diff, apply, ops);
    HistoryOnlyGrows(diff, apply, ops, i, id);
    var (earlier, now) := (Run(diff, ops[..i]), Run(diff, ops));
    assert now.history[id][..|earlier.history[id]|] == earlier.history[id];
    assert ChainOk(apply, now.history[id], now.records[id]);
  }

  // ---------------------------------------------------------------- optimistic locking

  /**
   * When a create takes effect, exactly, and what it leaves: id, type and content are given and the
   * id is new; the record holds that content at the given version, or 1, and no other record changes.
   */
  lemma CreateTakesEffectExactlyWhen(s: Store, id: Option<string>, ty: Option<string>, content: Option<Json>,
                                     version: Option<int>)
    ensures var (e, r) := Create(s, id, ty, content, version);
            && (r.Ok? <==> id.Some? && ty.Some? && content.Some? && id.value !in s.records)
            && (r.Err? ==> e == s)
            && (r.Ok? ==> r.value == Record(if version.Some? then version.value else 1, content.value)
                          && e.records == s.records[id.value := r.value])
  {
  }

  /**
   * When an update takes effect, exactly, and what it leaves: it carries the version the record has,
   * which is not the last; the record is one version on and holds the content sent, if any was.
   */
  lemma UpdateTakesEffectExactlyWhen(diff: Diff, s: Store, id: string, payloadId: Option<string>,
                                     version: Option<int>, content: Option<Json>)
    ensures var (e, r) := Update(diff, s, id, payloadId, version, content);
            && (r.Ok? <==> && (payloadId.Some? ==> payloadId.value == id) && id in s.records
                           && version == Some(s.records[id].version) && version.value < I32_MAX)
            && (r.Err? ==> e == s)
            && (r == Err(NotFound) <==> (payloadId.Some? ==> payloadId.value == id) && id !in s.records)
            && (r == Err(VersionConflict) <==> && (payloadId.Some? ==> payloadId.value == id) && id in s.records
                                               && version.Some? && version.value != s.records[id].version)
            && (r.Ok? ==> && r.value.version == version.value + 1
                          && r.value.content == (if content.Some? then content.value else s.records[id].content)
                          && e.records == s.records[id := r.value])
  {
  }

  /** The operation at moment i is an update of the id that takes effect. */
  ghost predicate UpdatesAt(diff: Diff, ops: seq<Op>, i: nat, id: string) {
    && i < |ops| && ops[i].UpdateOp? && ops[i].id == id
    && Do(diff, Run(diff, ops[..i]), ops[i]) != Run(diff, ops[..i])
  }

  /** One operation keeps a record, or moves it one version on by an update that carried its version. */
  lemma RecordAfter(diff: Diff, s: Store, op: Op, id: string)
    requires id in s.records
    ensures var e := Do(diff, s, op);
            && id in e.records
            && (e.records[id] == s.records[id]
                || (op.UpdateOp? && op.id == id && op.version == Some(s.records[id].version)
                    && e.records[id].version == s.records[id].version + 1))
  {
    match op
    case CreateOp(newId, ty, content, version) =>
    case UpdateOp(other, payloadId, version, content) =>
      UpdateTakesEffectExactlyWhen(diff, s, other, payloadId, version, content);
    case DeleteOp(other) => DeleteNeverSucceeds(s, other);
  }

  lemma RunNext(diff: Diff, ops: seq<Op>, i: nat)
    requires i < |ops|
    ensures Run(diff, ops[..i + 1]) == Do(diff, Run(diff, ops[..i]), ops[i])
  {
    assert ops[..i + 1][..i] == ops[..i];
  }

  /** Versions never go back, and while the version is the same so is the record. */
  lemma {:induction false} VersionTellsRecord(diff: Diff, ops: seq<Op>, i: nat, j: nat, id: string)
    requires i <= j <= |ops| && id in Run(diff, ops[..i]).records
    ensures var (a, b) := (Run(diff, ops[..i]), Run(diff, ops[..j]));
            && id in b.records && a.records[id].version <= b.records[id].version
            && (a.records[id].version == b.records[id].version ==> a.records[id] == b.records[id])
  {
    if i < j {
      VersionTellsRecord(diff, ops, i, j - 1, id);
      RunNext(diff, ops, j - 1);
      hide Run, Do;
      RecordAfter(diff, Run(diff, ops[..j - 1]), ops[j - 1], id);
    }
  }

  /** An update that takes effect carried the version its record had, and moves it on by one. */
  lemma EffectiveUpdate(diff: Diff, ops: seq<Op>, i: nat, id: string)
    requires UpdatesAt(diff, ops, i, id)
    ensures var (a, b) := (Run(diff, ops[..i]), Run(diff, ops[..i + 1]));
            && id in a.records && ops[i].version == Some(a.records[id].version)
            && id in b.records && b.records[id].version == a.records[id].version + 1
  {
    RunNext(diff, ops, i);
    UpdateTakesEffectExactlyWhen(diff, Run(diff, ops[..i]), id, ops[i].payloadId, ops[i].version, ops[i].content);
    hide Run;
  }

  /**
   * In every run the versions carried by the updates of an entity that take effect strictly
   * increase: of two updates that carry the same version at most one takes effect.
   */
  lemma {:induction false} EffectiveVersionsIncrease(diff: Diff, ops: seq<Op>, i: nat, j: nat, id: string)
    requires i < j && UpdatesAt(diff, ops, i, id) && UpdatesAt(diff, ops, j, id)
    ensures ops[i].version.Some? && ops[j].version.Some? && ops[i].version.value < ops[j].version.value
  {
    EffectiveUpdate(diff, ops, i, id);
    EffectiveUpdate(diff, ops, j, id);
    VersionTellsRecord(diff, ops, i + 1, j, id);
  }

  /**
   * No lost update.  Whoever read a record at moment i and updates with its version at any later
   * moment, with effect, overwrites exactly the record that was read, in every run.
   */
  lemma {:induction false} NoLostUpdate(diff: Diff, ops: seq<Op>, i: nat, j: nat, id: string)
    requires i <= j && UpdatesAt(diff, ops, j, id) && id in Run(diff, ops[..i]).records
    requires ops[j].version == Some(Run(diff, ops[..i]).records[id].version)
    ensures id in Run(diff, ops[..j]).records
    ensures Run(diff, ops[..j]).records[id] == Run(diff, ops[..i]).records[id]
  {
    EffectiveUpdate(diff, ops, j, id);
    VersionTellsRecord(diff, ops, i, j, id);
  }

  /** No delete succeeds, so a chain never ends and never restarts. */
  lemma DeleteNeverSucceeds(s: Store, id: string)
    ensures Delete(s, id).1 == Err(if id in s.records then DatabaseError else NotFound) && Delete(s, id).0 == s
  {
    if id in s.records {
      var rows := if id in s.history then s.history[id] else [];
      var row := Entry(Deleted(s.records[id].content), s.records[id].version);
      assert (rows + [row])[|rows|] == row;
    }
  }
}
