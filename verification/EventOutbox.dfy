/**
 * The event outbox (kernel-data/src/event/repository.rs): a counter row per ordering key and an
 * outbox row per event, written in the caller's transaction.
 *
 * Transactions interleave.  The upsert of a counter row locks that row until its transaction
 * ends, so `CreateEvent` on a key is enabled only while no other open transaction holds the key.
 * A failed statement aborts its transaction: committing it then only discards it.
 */
module EventOutbox {
  import opened Prelude
  import opened EventTypes

  datatype Tx = Open(counters: map<ScopedKey, int>, rows: seq<Envelope>) | Aborted

  datatype Db = Db(counters: map<ScopedKey, int>, outbox: seq<Envelope>, txs: map<nat, Tx>)

  datatype NewEvent = NewEvent(eventId: string, tenantId: string, eventType: string,
                               mode: OrderMode, payload: string)
  {
    function Key(): ScopedKey { ScopedKey(tenantId, KeyOfMode(mode)) }
  }

  datatype StoreError = TransactionAborted | SequenceOutOfRange

  function Last(counters: map<ScopedKey, int>, key: ScopedKey): int {
    if key in counters then counters[key] else 0
  }

  /** The counter value a transaction sees: its own write, else the committed row. */
  function Visible(db: Db, tx: Tx, key: ScopedKey): int
    requires tx.Open?
  {
    if key in tx.counters then tx.counters[key] else Last(db.counters, key)
  }

  function WithSeq(mode: OrderMode, n: U64): OrderMode {
    match mode
    case Entity(id, _) => Entity(id, Some(n))
    case Causality(key, _) => Causality(key, Some(n))
  }

  function Stamp(e: NewEvent, n: U64): Envelope {
    Envelope(e.eventId, e.tenantId, WithSeq(e.mode, n), e.eventType, e.payload)
  }

  /** No other open transaction has locked the counter row of the key. */
  predicate Unlocked(db: Db, id: nat, key: ScopedKey) {
    forall other :: other in db.txs && other != id ==>
      !(db.txs[other].Open? && key in db.txs[other].counters)
  }

  datatype Op =
    | Begin(id: nat)
    | Create(id: nat, event: NewEvent)
    | Fail(id: nat)
    | Commit(id: nat)
    | Rollback(id: nat)

  predicate Enabled(db: Db, op: Op) {
    match op
    case Begin(id) => id !in db.txs
    case Create(id, event) => id in db.txs && Unlocked(db, id, event.Key())
    case Fail(id) => id in db.txs
    case Commit(id) => id in db.txs
    case Rollback(id) => id in db.txs
  }

  function CreateEvent(db: Db, id: nat, e: NewEvent): (Db, Result<Envelope, StoreError>)
    requires id in db.txs
  {
    var tx := db.txs[id];
    if tx.Aborted? then (db, Err(TransactionAborted))
    else
      var last := Visible(db, tx, e.Key());
      if last < 0 || last >= I64_MAX then (db.(txs := db.txs[id := Aborted]), Err(SequenceOutOfRange))
      else
        var row := Stamp(e, last + 1);
        (db.(txs := db.txs[id := Open(tx.counters[e.Key() := last + 1], tx.rows + [row])]), Ok(row))
  }

  function CommitTx(db: Db, id: nat): Db
    requires id in db.txs
  {
    match db.txs[id]
    case Aborted => db.(txs := db.txs - {id})
    case Open(counters, rows) => Db(db.counters + counters, db.outbox + rows, db.txs - {id})
  }

  /** One operation; an operation that is blocked or meaningless changes nothing. */
  function Step(db: Db, op: Op): Db {
    if !Enabled(db, op) then db else
    match op
    case Begin(id) => db.(txs := db.txs[id := Open(map[], [])])
    case Create(id, event) => CreateEvent(db, id, event).0
    case Fail(id) => db.(txs := db.txs[id := Aborted])
    case Commit(id) => CommitTx(db, id)
    case Rollback(id) => db.(txs := db.txs - {id})
  }

  const EMPTY := Db(map[], [], map[])

  /** The store object; `NextSeq` is the counter upsert and `CreateEvent` adds the outbox row. */
  class EventStore {
    var counters: map<ScopedKey, int>
    var outbox: seq<Envelope>
    var txs: map<nat, Tx>

    ghost function View(): Db
      reads this
    {
      Db(counters, outbox, txs)
    }

    constructor ()
      ensures View() == EMPTY
    {
      counters := map[];
      outbox := [];
      txs := map[];
    }

    /** Inserts the counter row at 1, or adds one to it, inside transaction id. */
    method NextSeq(id: nat, key: ScopedKey) returns (r: Result<int, StoreError>)
      requires Valid(View()) && id in txs && Unlocked(View(), id, key)
      modifies this`txs
      ensures r.Ok? ==> old(txs[id]).Open? && 1 <= r.value <= I64_MAX
                        && r.value == Visible(old(View()), old(txs[id]), key) + 1
                        && txs == old(txs)[id := Open(old(txs[id]).counters[key := r.value], old(txs[id]).rows)]
      ensures r.Err? ==> txs == old(txs)[id := Aborted]
                         && (r.error == TransactionAborted <==> old(txs[id]).Aborted?)
      ensures old(txs[id]).Open? ==> (r.Ok? <==> Visible(old(View()), old(txs[id]), key) < I64_MAX)
    {
      match txs[id]
      case Aborted => r := Err(TransactionAborted);
      case Open(mine, rows) =>
        var last := if key in mine then mine[key] else if key in counters then counters[key] else 0;
        if last >= I64_MAX {
          txs := txs[id := Aborted];
          r := Err(SequenceOutOfRange);
        } else {
          CounterNonNegative(View(), id, key);
          txs := txs[id := Open(mine[key := last + 1], rows)];
          r := Ok(last + 1);
        }
    }

    method CreateEventIn(id: nat, e: NewEvent) returns (r: Result<Envelope, StoreError>)
      requires Valid(View()) && id in txs && Unlocked(View(), id, e.Key())
      modifies this`txs
      ensures (View(), r) == CreateEvent(old(View()), id, e)
    {
      if txs[id].Open? { CounterNonNegative(View(), id, e.Key()); }
      var n := NextSeq(id, e.Key());
      if n.Err? {
        assert txs == CreateEvent(old(View()), id, e).0.txs;
        return Err(n.error);
      }
      var row := Stamp(e, n.value);
      txs := txs[id := Open(txs[id].counters, txs[id].rows + [row])];
      assert txs == CreateEvent(old(View()), id, e).0.txs;
      return Ok(row);
    }
  }

  // ---------------------------------------------------------------- what every run keeps

  /** The rows of one key, in outbox order. */
  ghost function RowsFor(rows: seq<Envelope>, key: ScopedKey): seq<Envelope> {
    if rows == [] then []
    else
      var last := rows[|rows| - 1];
      RowsFor(rows[..|rows| - 1], key) + if last.Key() == key then [last] else []
  }

  ghost predicate NumberedFrom(rows: seq<Envelope>, first: int) {
    forall i :: 0 <= i < |rows| ==> rows[i].Seq().Some? && rows[i].Seq().value == first + i
  }

  /** The committed rows of the key carry exactly 1, 2, ..., last_seq, in this order. */
  ghost predicate KeyOk(db: Db, key: ScopedKey) {
    NumberedFrom(RowsFor(db.outbox, key), 1) && |RowsFor(db.outbox, key)| == Last(db.counters, key)
  }

  /** An open transaction continues the numbering of the key if it has locked it. */
  ghost predicate TxOk(db: Db, tx: Tx, key: ScopedKey) {
    tx.Open? ==>
      && NumberedFrom(RowsFor(tx.rows, key), Last(db.counters, key) + 1)
      && (key in tx.counters ==> tx.counters[key] == Last(db.counters, key) + |RowsFor(tx.rows, key)|)
      && (key !in tx.counters ==> RowsFor(tx.rows, key) == [])
  }

  ghost predicate LocksDisjoint(db: Db) {
    forall a, b, key :: a in db.txs && b in db.txs && a != b && db.txs[a].Open? && db.txs[b].Open? ==>
      !(key in db.txs[a].counters && key in db.txs[b].counters)
  }

  ghost predicate Valid(db: Db) {
    && (forall key :: KeyOk(db, key))
    && (forall id, key :: id in db.txs ==> TxOk(db, db.txs[id], key))
    && LocksDisjoint(db)
  }

  lemma CounterNonNegative(db: Db, id: nat, key: ScopedKey)
    requires Valid(db) && id in db.txs && db.txs[id].Open?
    ensures 0 <= Visible(db, db.txs[id], key)
  {
    assert KeyOk(db, key) && TxOk(db, db.txs[id], key);
  }

  lemma {:induction false} RowsForConcat(a: seq<Envelope>, b: seq<Envelope>, key: ScopedKey)
    ensures RowsFor(a + b, key) == RowsFor(a, key) + RowsFor(b, key)
  {
    if b == [] {
      assert a + b == a;
    } else {
      assert (a + b)[..|a + b| - 1] == a + b[..|b| - 1];
      RowsForConcat(a, b[..|b| - 1], key);
    }
  }

  lemma RowsForOneMore(rows: seq<Envelope>, row: Envelope, key: ScopedKey)
    ensures RowsFor(rows + [row], key) == RowsFor(rows, key) + if row.Key() == key then [row] else []
  {
    assert (rows + [row])[..|rows|] == rows;
  }

  lemma {:induction false} RowsForMember(rows: seq<Envelope>, key: ScopedKey, e: Envelope)
    ensures e in RowsFor(rows, key) <==> e in rows && e.Key() == key
  {
    if rows != [] {
      RowsForMember(rows[..|rows| - 1], key, e);
      assert rows == rows[..|rows| - 1] + [rows[|rows| - 1]];
    }
  }

  lemma CreateKeepsTx(db: Db, id: nat, e: NewEvent, key: ScopedKey)
    requires Valid(db) && id in db.txs
    ensures var after := CreateEvent(db, id, e).0; TxOk(after, after.txs[id], key)
  {
    var (after, r) := CreateEvent(db, id, e);
    assert TxOk(db, db.txs[id], key) && KeyOk(db, key);
    if r.Ok? {
      RowsForOneMore(db.txs[id].rows, r.value, key);
      assert r.value.Key() == e.Key();
      NumberedOn(RowsFor(db.txs[id].rows, key), [r.value], Last(db.counters, key) + 1);
    }
    hide RowsFor, Valid, KeyOk, NumberedFrom;
  }

  /** Two numbered sequences, the second continuing the first, are one. */
  lemma NumberedOn(a: seq<Envelope>, b: seq<Envelope>, first: int)
    requires NumberedFrom(a, first)
    ensures NumberedFrom(b, first + |a|) ==> NumberedFrom(a + b, first)
    ensures |b| == 1 && b[0].Seq().Some? && b[0].Seq().value == first + |a| ==> NumberedFrom(a + b, first)
  {
  }

  lemma CreateKeepsValid(db: Db, id: nat, e: NewEvent)
    requires Valid(db) && id in db.txs && Unlocked(db, id, e.Key())
    ensures Valid(CreateEvent(db, id, e).0)
  {
    var after := CreateEvent(db, id, e).0;
    forall key
      ensures KeyOk(after, key)
    {
      assert KeyOk(db, key);
    }
    forall other, key | other in after.txs
      ensures TxOk(after, after.txs[other], key)
    {
      if other == id { CreateKeepsTx(db, id, e, key); } else { assert TxOk(db, db.txs[other], key); }
    }
  }

  lemma CommitExtends(db: Db, id: nat, key: ScopedKey)
    requires Valid(db) && id in db.txs
    ensures KeyOk(CommitTx(db, id), key)
    ensures RowsFor(db.outbox, key) <= RowsFor(CommitTx(db, id).outbox, key)
  {
    var tx := db.txs[id];
    assert KeyOk(db, key) && TxOk(db, tx, key);
    if tx.Open? {
      RowsForConcat(db.outbox, tx.rows, key);
      NumberedOn(RowsFor(db.outbox, key), RowsFor(tx.rows, key), 1);
    }
    hide RowsFor, Valid, NumberedFrom;
  }

  lemma CommitKeepsValid(db: Db, id: nat)
    requires Valid(db) && id in db.txs
    ensures Valid(CommitTx(db, id))
  {
    var after, tx := CommitTx(db, id), db.txs[id];
    forall key
      ensures KeyOk(after, key)
    {
      CommitExtends(db, id, key);
    }
    forall other, key | other in after.txs
      ensures TxOk(after, after.txs[other], key)
    {
      assert TxOk(db, db.txs[other], key) && TxOk(db, tx, key);
    }
  }

  lemma StepKeepsValid(db: Db, op: Op)
    requires Valid(db)
    ensures Valid(Step(db, op))
  {
    if Enabled(db, op) {
      match op
      case Create(id, e) => CreateKeepsValid(db, id, e);
      case Commit(id) => CommitKeepsValid(db, id);
      case _ => SmallStepKeepsValid(db, op);
    }
  }

  lemma SmallStepKeepsValid(db: Db, op: Op)
    requires Valid(db) && Enabled(db, op) && !op.Create? && !op.Commit?
    ensures Valid(Step(db, op))
  {
    var after := Step(db, op);
    forall key
      ensures KeyOk(after, key)
    {
      assert KeyOk(db, key);
    }
    forall other, key | other in after.txs
      ensures TxOk(after, after.txs[other], key)
    {
      if other in db.txs { assert TxOk(db, db.txs[other], key); }
    }
  }

  lemma StepExtends(db: Db, op: Op, key: ScopedKey)
    requires Valid(db)
    ensures RowsFor(db.outbox, key) <= RowsFor(Step(db, op).outbox, key)
  {
    if Enabled(db, op) && op.Commit? { CommitExtends(db, op.id, key); }
  }

  ghost function Run(db: Db, ops: seq<Op>): Db {
    if ops == [] then db else Step(Run(db, ops[..|ops| - 1]), ops[|ops| - 1])
  }

  // ---------------------------------------------------------------- what a transaction leaves

  /** A transaction that begins and creates events. */
  function Work(id: nat, events: seq<NewEvent>): seq<Op> {
    if events == [] then [Begin(id)] else Work(id, events[..|events| - 1]) + [Create(id, events[|events| - 1])]
  }

  lemma RunOneMore(db: Db, ops: seq<Op>, op: Op)
    ensures Run(db, ops + [op]) == Step(Run(db, ops), op)
  {
    assert (ops + [op])[..|ops + [op]| - 1] == ops;
  }

  lemma CreateIsPrivate(db: Db, id: nat, e: NewEvent)
    requires id in db.txs
    ensures id in Step(db, Create(id, e)).txs
    ensures Step(db, Create(id, e)) == db.(txs := db.txs[id := Step(db, Create(id, e)).txs[id]])
  {
  }

  /** Work in progress shows nowhere but in its own transaction. */
  lemma {:induction false} WorkIsPrivate(db: Db, id: nat, events: seq<NewEvent>)
    requires id !in db.txs
    ensures id in Run(db, Work(id, events)).txs
    ensures Run(db, Work(id, events)) == db.(txs := db.txs[id := Run(db, Work(id, events)).txs[id]])
  {
    if events == [] {
      assert Work(id, events) == [] + [Begin(id)];
      RunOneMore(db, [], Begin(id));
    } else {
      WorkIsPrivate(db, id, events[..|events| - 1]);
      RunOneMore(db, Work(id, events[..|events| - 1]), Create(id, events[|events| - 1]));
      hide Run, Step;
      CreateIsPrivate(Run(db, Work(id, events[..|events| - 1])), id, events[|events| - 1]);
    }
  }

  /** A transaction that is rolled back, or fails and is then committed, leaves the store as it was. */
  lemma {:induction false} UnfinishedWorkLeavesNoTrace(db: Db, id: nat, events: seq<NewEvent>)
    requires id !in db.txs
    ensures Run(db, Work(id, events) + [Rollback(id)]) == db
    ensures Run(db, Work(id, events) + [Fail(id)] + [Commit(id)]) == db
  {
    WorkIsPrivate(db, id, events);
    RunOneMore(db, Work(id, events), Rollback(id));
    RunOneMore(db, Work(id, events), Fail(id));
    RunOneMore(db, Work(id, events) + [Fail(id)], Commit(id));
    var w := Run(db, Work(id, events));
    assert w.txs - {id} == db.txs && w.txs[id := Aborted] - {id} == db.txs;
    hide Run, Work;
  }

  lemma OutboxOnlyGrows(db: Db, op: Op)
    ensures db.outbox <= Step(db, op).outbox
  {
  }

  lemma TxKeepsRow(db: Db, op: Op, id: nat, row: Envelope)
    requires id in db.txs && (db.txs[id].Open? ==> row in db.txs[id].rows) && op != Commit(id) && op != Rollback(id)
    ensures id in Step(db, op).txs && (Step(db, op).txs[id].Open? ==> row in Step(db, op).txs[id].rows)
    ensures db.txs[id].Aborted? ==> Step(db, op).txs[id].Aborted?
  {
  }

  /** A created event stays in its transaction until that ends, unless it is aborted. */
  lemma {:induction false} RowStaysInTx(ops: seq<Op>, k: nat, m: nat, id: nat, row: Envelope)
    requires k <= m <= |ops| && id in Run(EMPTY, ops[..k]).txs
    requires Run(EMPTY, ops[..k]).txs[id].Open? ==> row in Run(EMPTY, ops[..k]).txs[id].rows
    requires forall j :: k <= j < m ==> ops[j] != Commit(id) && ops[j] != Rollback(id)
    ensures id in Run(EMPTY, ops[..m]).txs
    ensures Run(EMPTY, ops[..m]).txs[id].Open? ==> row in Run(EMPTY, ops[..m]).txs[id].rows
  {
    if k < m {
      RowStaysInTx(ops, k, m - 1, id, row);
      assert ops[..m] == ops[..m - 1] + [ops[m - 1]];
      RunOneMore(EMPTY, ops[..m - 1], ops[m - 1]);
      hide Run;
      TxKeepsRow(Run(EMPTY, ops[..m - 1]), ops[m - 1], id, row);
    }
  }

  lemma {:induction false} OutboxKeepsRow(ops: seq<Op>, k: nat, row: Envelope)
    requires k <= |ops| && row in Run(EMPTY, ops[..k]).outbox
    ensures row in Run(EMPTY, ops).outbox
    decreases |ops| - k
  {
    if k == |ops| {
      assert ops[..k] == ops;
    } else {
      assert ops[..k + 1] == ops[..k] + [ops[k]];
      RunOneMore(EMPTY, ops[..k], ops[k]);
      OutboxOnlyGrows(Run(EMPTY, ops[..k]), ops[k]);
      hide Run, Step;
      OutboxKeepsRow(ops, k + 1, row);
    }
  }

  /**
   * No event is lost.  In every run, an event that was created in a transaction which is still open
   * when it commits is in the outbox from then on.
   */
  lemma {:induction false} CommittedEventIsPublished(ops: seq<Op>, k: nat, m: nat)
    requires k < m < |ops| && ops[k].Create? && Enabled(Run(EMPTY, ops[..k]), ops[k])
    requires CreateEvent(Run(EMPTY, ops[..k]), ops[k].id, ops[k].event).1.Ok?
    requires ops[m] == Commit(ops[k].id) && forall j :: k < j < m ==> ops[j] != ops[m] && ops[j] != Rollback(ops[k].id)
    requires ops[k].id in Run(EMPTY, ops[..m]).txs && Run(EMPTY, ops[..m]).txs[ops[k].id].Open?
    ensures var row := CreateEvent(Run(EMPTY, ops[..k]), ops[k].id, ops[k].event).1.value;
            Carries(row, ops[k].event) && row in Run(EMPTY, ops).outbox
  {
    var id, row := ops[k].id, CreateEvent(Run(EMPTY, ops[..k]), ops[k].id, ops[k].event).1.value;
    assert ops[..k + 1] == ops[..k] + [ops[k]] && ops[..m + 1] == ops[..m] + [ops[m]];
    RunOneMore(EMPTY, ops[..k], ops[k]);
    RunOneMore(EMPTY, ops[..m], ops[m]);
    hide Run;
    RowStaysInTx(ops, k + 1, m, id, row);
    OutboxKeepsRow(ops, m + 1, row);
  }

  /** The row is the event, with a sequence number. */
  predicate Carries(row: Envelope, e: NewEvent) {
    && row.eventId == e.eventId && row.tenantId == e.tenantId && row.eventType == e.eventType
    && row.payload == e.payload && row.Seq().Some?
    && match e.mode
       case Entity(id, _) => row.mode.Entity? && row.mode.entityId == id
       case Causality(key, _) => row.mode.Causality? && row.mode.key == key
  }

  ghost predicate CreatedIn(ops: seq<Op>, row: Envelope) {
    exists k :: 0 <= k < |ops| && ops[k].Create? && Carries(row, ops[k].event)
  }

  predicate Written(db: Db, row: Envelope) {
    row in db.outbox || exists id :: id in db.txs && db.txs[id].Open? && row in db.txs[id].rows
  }

  lemma StepWrites(db: Db, op: Op, row: Envelope)
    requires Written(Step(db, op), row)
    ensures Written(db, row) || (op.Create? && Carries(row, op.event))
  {
    if row !in Step(db, op).outbox {
      var id :| id in Step(db, op).txs && Step(db, op).txs[id].Open? && row in Step(db, op).txs[id].rows;
      assert id in db.txs && db.txs[id].Open? && row in db.txs[id].rows ==> Written(db, row);
    }
  }

  /** Every row ever written is an event some call created, with all its fields. */
  lemma {:induction false} RowsAreTheEventsCreated(ops: seq<Op>, row: Envelope)
    requires Written(Run(EMPTY, ops), row)
    ensures CreatedIn(ops, row)
  {
    if ops != [] {
      var before, last := ops[..|ops| - 1], ops[|ops| - 1];
      StepWrites(Run(EMPTY, before), last, row);
      if Written(Run(EMPTY, before), row) {
        RowsAreTheEventsCreated(before, row);
        var k :| 0 <= k < |before| && before[k].Create? && Carries(row, before[k].event);
        assert ops[k] == before[k];
      } else {
        assert ops[|ops| - 1] == last;
      }
    }
  }

  /**
   * For every interleaving of transactions that commit, roll back or abort: the committed outbox
   * rows of each (tenant, key) carry exactly 1, 2, ..., last_seq in outbox order.
   */
  lemma {:induction false} CommittedSequencesAreGapless(ops: seq<Op>)
    ensures Valid(Run(EMPTY, ops))
    ensures forall key :: var db := Run(EMPTY, ops);
              |RowsFor(db.outbox, key)| == Last(db.counters, key) && NumberedFrom(RowsFor(db.outbox, key), 1)
  {
    if ops != [] {
      CommittedSequencesAreGapless(ops[..|ops| - 1]);
      StepKeepsValid(Run(EMPTY, ops[..|ops| - 1]), ops[|ops| - 1]);
    } else {
      assert forall key :: KeyOk(EMPTY, key);
    }
    forall key
      ensures var db := Run(EMPTY, ops);
              |RowsFor(db.outbox, key)| == Last(db.counters, key) && NumberedFrom(RowsFor(db.outbox, key), 1)
    {
      assert KeyOk(Run(EMPTY, ops), key);
    }
  }
}
