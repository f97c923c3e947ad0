/**
 * The archiver (kernel-archiver/src/main.rs): rows are uploaded under a key of their own and then
 * marked.  Any upload, acknowledgement or marking may fail and the process may stop between any
 * two effects; one archiver runs at a time.  An object's content is the row it serialises.
 */
module Archiver {
  import opened Prelude
  import opened Strings
  import opened Principals

  const MARK_CHUNK: nat := 500

  datatype Kind = EntityHistory | AuditLog

  /** The creation date as formatted into the key. */
  datatype Day = Day(year: string, month: string, day: string)

  datatype RowId = RowId(kind: Kind, tenant: string, id: string)

  datatype Row = Row(id: RowId, day: Day, body: string)

  datatype Stored = Stored(row: Row, archived: bool)

  type Rows = map<RowId, Stored>

  type Objects = map<string, Row>

  // ---------------------------------------------------------------- keys

  function Sanitize(s: string): (r: string)
    ensures |r| == |s|
  {
    seq(|s|, i requires 0 <= i < |s| => if PrincipalChar(s[i]) then s[i] else '_')
  }

  function Prefix(kind: Kind): string {
    match kind
    case EntityHistory => "entity-history"
    case AuditLog => "audit-logs"
  }

  function KeyParts(r: Row): seq<string> {
    [Prefix(r.id.kind), Sanitize(r.id.tenant), r.day.year, r.day.month, r.day.day, Sanitize(r.id.id) + ".json.gz"]
  }

  function ArchiveKey(r: Row): string {
    Join(KeyParts(r), '/')
  }

  /** A valid tenant, an id such as a UUID, and a date without slashes in its fields. */
  predicate ValidRow(r: Row) {
    && ValidPrincipal(r.id.tenant)
    && (forall c :: c in r.id.id ==> PrincipalChar(c))
    && SlashFree(r.day)
  }

  lemma SanitizeExactly(s: string)
    ensures Sanitize(s) == s <==> forall c :: c in s ==> PrincipalChar(c)
    ensures '/' !in Sanitize(s)
    ensures forall i :: 0 <= i < |s| ==>
              && PrincipalChar(Sanitize(s)[i])
              && (s[i] != Sanitize(s)[i] ==> Sanitize(s)[i] == '_' && !PrincipalChar(s[i]))
  {
    if Sanitize(s) == s {
      forall c | c in s
        ensures PrincipalChar(c)
      {
        var i :| 0 <= i < |s| && s[i] == c;
        assert Sanitize(s)[i] == c;
      }
    }
  }

  predicate SlashFree(day: Day) {
    '/' !in day.year && '/' !in day.month && '/' !in day.day
  }

  lemma {:induction false} KeyPartsAreClean(r: Row)
    requires SlashFree(r.day)
    ensures forall i :: 0 <= i < 6 ==> '/' !in KeyParts(r)[i]
  {
    SanitizeExactly(r.id.tenant);
    SanitizeExactly(r.id.id);
    assert '/' !in ".json.gz" && '/' !in "entity-history" && '/' !in "audit-logs";
  }

  /**
   * When two rows share a key, exactly: same kind and day, and tenants and ids that sanitise
   * alike.
   */
  lemma {:induction false} KeysCollideExactlyWhen(a: Row, b: Row)
    requires SlashFree(a.day) && SlashFree(b.day)
    ensures ArchiveKey(a) == ArchiveKey(b) <==>
            && a.id.kind == b.id.kind && a.day == b.day
            && Sanitize(a.id.tenant) == Sanitize(b.id.tenant) && Sanitize(a.id.id) == Sanitize(b.id.id)
  {
    KeyPartsAreClean(a);
    KeyPartsAreClean(b);
    SplitJoin(KeyParts(a), '/');
    SplitJoin(KeyParts(b), '/');
    hide Sanitize;
    if ArchiveKey(a) == ArchiveKey(b) {
      var p, q := KeyParts(a), KeyParts(b);
      assert p[0] == q[0] && p[1] == q[1] && p[2] == q[2] && p[3] == q[3] && p[4] == q[4] && p[5] == q[5];
      var x, y := Sanitize(a.id.id), Sanitize(b.id.id);
      assert x == p[5][..|p[5]| - 8] && y == q[5][..|q[5]| - 8];
      assert "entity-history"[0] == 'e' && "audit-logs"[0] == 'a';
    }
  }

  /** The layout: kind, tenant, then year, month and day, then the id. */
  lemma {:induction false} KeyLayout(r: Row)
    requires ValidRow(r)
    ensures ArchiveKey(r) ==
            (if r.id.kind == EntityHistory then "entity-history" else "audit-logs") + "/" + r.id.tenant + "/"
            + r.day.year + "/" + r.day.month + "/" + r.day.day + "/" + r.id.id + ".json.gz"
  {
    SanitizeExactly(r.id.tenant);
    SanitizeExactly(r.id.id);
    var p := KeyParts(r);
    hide Sanitize;
    assert p[1..][1..][1..][1..][1..] == [p[5]];
    assert Join(p[1..][1..][1..][1..], '/') == p[4] + "/" + p[5];
    assert Join(p[1..][1..][1..], '/') == p[3] + "/" + Join(p[1..][1..][1..][1..], '/');
    assert Join(p[1..][1..], '/') == p[2] + "/" + Join(p[1..][1..][1..], '/');
    assert Join(p[1..], '/') == p[1] + "/" + Join(p[1..][1..], '/');
    assert Join(p, '/') == p[0] + "/" + Join(p[1..], '/');
  }

  /** A key of a valid tenant, a UUID and a date fits into the 1024 bytes an object key may have. */
  lemma {:induction false} KeyFits(r: Row)
    requires ValidRow(r) && |r.id.id| <= 36 && |r.day.year| <= 4 && |r.day.month| == |r.day.day| == 2
    ensures |ArchiveKey(r)| <= 207
  {
    KeyLayout(r);
    hide ArchiveKey;
    assert |"entity-history"| == 14 && |"audit-logs"| == 10 && |".json.gz"| == 8;
  }

  /** Different valid rows have different keys. */
  lemma {:induction false} ArchiveKeyIsInjective(a: Row, b: Row)
    requires ValidRow(a) && ValidRow(b) && ArchiveKey(a) == ArchiveKey(b)
    ensures a.id == b.id && a.day == b.day
  {
    KeysCollideExactlyWhen(a, b);
    SanitizeExactly(a.id.tenant);
    SanitizeExactly(b.id.tenant);
    SanitizeExactly(a.id.id);
    SanitizeExactly(b.id.id);
    hide ArchiveKey, Sanitize;
  }

  // ---------------------------------------------------------------- uploading and marking

  /** How one item's calls to the object store turn out. */
  datatype Outcome = HeadFails | EncodingFails | PutFails | PutStoresButFails | PutSucceeds

  /** The store after one item, and whether its id is listed for marking. */
  function ArchiveOne(objects: Objects, r: Row, o: Outcome): (Objects, bool) {
    if o.HeadFails? then (objects, false)
    else if ArchiveKey(r) in objects then (objects, true)
    else
      match o
      case PutSucceeds => (objects[ArchiveKey(r) := r], true)
      case PutStoresButFails => (objects[ArchiveKey(r) := r], false)
      case _ => (objects, false)
  }

  /** How many items come before the first that belongs to another tenant. */
  function Own(items: seq<Row>, tenant: string): (n: nat)
    ensures n <= |items|
    ensures forall i :: 0 <= i < n ==> items[i].id.tenant == tenant
    ensures n < |items| ==> items[n].id.tenant != tenant
  {
    if items == [] || items[0].id.tenant != tenant then 0 else 1 + Own(items[1..], tenant)
  }

  /** The first n items in turn. */
  function ArchiveFirst(objects: Objects, items: seq<Row>, outcomes: seq<Outcome>, n: nat): (Objects, seq<RowId>)
    requires n <= |items| && n <= |outcomes|
  {
    if n == 0 then (objects, [])
    else
      var (before, ids) := ArchiveFirst(objects, items, outcomes, n - 1);
      var (after, listed) := ArchiveOne(before, items[n - 1], outcomes[n - 1]);
      (after, if listed then ids + [items[n - 1].id] else ids)
  }

  /** One update of all the given rows of the tenant. */
  function MarkAll(rows: Rows, tenant: string, ids: seq<RowId>): Rows {
    map id | id in rows :: if id in ids && id.tenant == tenant then rows[id].(archived := true) else rows[id]
  }

  class ArchiveStore {
    var rows: Rows
    var objects: Objects

    /**
     * `archive_items` for one kind.  A foreign row ends it with an error and no ids, though the
     * items before it are uploaded; the process stops where the outcomes end.
     */
    method ArchiveItems(items: seq<Row>, tenant: string, outcomes: seq<Outcome>) returns (r: Option<seq<RowId>>)
      modifies this`objects
      ensures var own := Own(items, tenant);
              var n := if own <= |outcomes| then own else |outcomes|;
              && objects == ArchiveFirst(old(objects), items, outcomes, n).0
              && r == if own < |items| && own <= |outcomes| then None
                      else Some(ArchiveFirst(old(objects), items, outcomes, n).1)
    {
      var ids: seq<RowId> := [];
      for i := 0 to |items|
        invariant i <= |outcomes| && i <= Own(items, tenant)
        invariant (objects, ids) == ArchiveFirst(old(objects), items, outcomes, i)
      {
        var item, key := items[i], ArchiveKey(items[i]);
        if item.id.tenant != tenant { return None; }
        if i == |outcomes| { return Some(ids); }
        if outcomes[i].HeadFails? { continue; }
        if key in objects {
          ids := ids + [item.id];
          continue;
        }
        if outcomes[i].PutSucceeds? {
          objects := objects[key := item];
          ids := ids + [item.id];
        } else if outcomes[i].PutStoresButFails? {
          objects := objects[key := item];
        }
      }
      return Some(ids);
    }

    /** Marks in chunks; the effect is that of one update of the whole list. */
    method MarkArchived(tenant: string, ids: seq<RowId>)
      modifies this`rows
      ensures rows == MarkAll(old(rows), tenant, ids)
    {
      var i := 0;
      while i < |ids|
        invariant 0 <= i <= |ids|
        invariant rows == MarkAll(old(rows), tenant, ids[..i])
      {
        var end := if i + MARK_CHUNK <= |ids| then i + MARK_CHUNK else |ids|;
        var chunk := ids[i..end];
        assert ids[..end] == ids[..i] + chunk;
        MarkInTwo(old(rows), tenant, ids[..i], chunk);
        rows := map id | id in rows ::
          if id in chunk && id.tenant == tenant then rows[id].(archived := true) else rows[id];
        i := end;
      }
      assert ids[..|ids|] == ids;
    }
  }

  /** Marking archives exactly the listed rows of the tenant, and changes nothing else. */
  lemma MarksExactly(rows: Rows, tenant: string, ids: seq<RowId>)
    ensures var after := MarkAll(rows, tenant, ids);
            && after.Keys == rows.Keys
            && forall id :: id in rows ==>
                 && after[id].row == rows[id].row
                 && (after[id].archived <==> rows[id].archived || (id in ids && id.tenant == tenant))
  {
  }

  /** An upload that was stored but reported as failed is found by the next attempt, which lists the row. */
  lemma LostReplyIsFoundLater(objects: Objects, r: Row, o: Outcome)
    requires ArchiveKey(r) !in objects && !o.HeadFails?
    ensures var (stored, listed) := ArchiveOne(objects, r, PutStoresButFails);
            && !listed && stored == objects[ArchiveKey(r) := r]
            && ArchiveOne(stored, r, o) == (stored, true)
  {
    hide ArchiveKey;
  }

  /** Marking one list and then another is marking both at once. */
  lemma MarkInTwo(rows: Rows, tenant: string, a: seq<RowId>, b: seq<RowId>)
    ensures MarkAll(MarkAll(rows, tenant, a), tenant, b) == MarkAll(rows, tenant, a + b)
  {
  }

  // ---------------------------------------------------------------- cycles and crashes

  datatype Worker = Idle | Working(tenant: string, todo: seq<Row>, ids: seq<RowId>)

  datatype World = World(rows: Rows, objects: Objects, worker: Worker)

  datatype Step =
    | InsertRow(row: Row)
    | Fetch(tenant: string, picks: seq<RowId>)
    | Item(outcome: Outcome)
    | Mark(applied: bool)
    | Crash

  /** The unarchived rows of the tenant among the picks, as one fetch returns them. */
  function Fetched(rows: Rows, tenant: string, picks: seq<RowId>): seq<Row> {
    if picks == [] then []
    else
      var p := picks[0];
      (if p in rows && p.tenant == tenant && !rows[p].archived then [rows[p].row] else []) +
      Fetched(rows, tenant, picks[1..])
  }

  function Next(w: World, step: Step): World {
    match step
    case InsertRow(row) =>
      if row.id in w.rows || !ValidRow(row) then w else w.(rows := w.rows[row.id := Stored(row, false)])
    case Fetch(tenant, picks) =>
      if w.worker.Idle? then w.(worker := Working(tenant, Fetched(w.rows, tenant, picks), [])) else w
    case Item(o) =>
      if w.worker.Working? && w.worker.todo != [] then
        var item := w.worker.todo[0];
        var (objects, listed) := ArchiveOne(w.objects, item, o);
        w.(objects := objects,
           worker := w.worker.(todo := w.worker.todo[1..],
                               ids := if listed then w.worker.ids + [item.id] else w.worker.ids))
      else w
    case Mark(applied) =>
      if w.worker.Working? && w.worker.todo == [] then
        w.(rows := if applied then MarkAll(w.rows, w.worker.tenant, w.worker.ids) else w.rows, worker := Idle)
      else w
    case Crash => w.(worker := Idle)
  }

  const START := World(map[], map[], Idle)

  ghost function Run(steps: seq<Step>): World {
    if steps == [] then START else Next(Run(steps[..|steps| - 1]), steps[|steps| - 1])
  }

  predicate HasObject(rows: Rows, objects: Objects, id: RowId) {
    id in rows && ArchiveKey(rows[id].row) in objects && objects[ArchiveKey(rows[id].row)] == rows[id].row
  }

  predicate IsStored(rows: Rows, r: Row) {
    r.id in rows && rows[r.id].row == r
  }

  ghost predicate RowsOk(rows: Rows) {
    forall id :: id in rows ==> rows[id].row.id == id && ValidRow(rows[id].row)
  }

  ghost predicate ObjectsOk(rows: Rows, objects: Objects) {
    forall key :: key in objects ==> IsStored(rows, objects[key]) && ArchiveKey(objects[key]) == key
  }

  ghost predicate ArchivedOk(rows: Rows, objects: Objects) {
    forall id :: id in rows && rows[id].archived ==> HasObject(rows, objects, id)
  }

  ghost predicate WorkerOk(rows: Rows, objects: Objects, worker: Worker) {
    worker.Working? ==>
      && (forall r :: r in worker.todo ==> IsStored(rows, r))
      && (forall id :: id in worker.ids ==> HasObject(rows, objects, id))
  }

  ghost predicate Safe(w: World) {
    RowsOk(w.rows) && ObjectsOk(w.rows, w.objects) && ArchivedOk(w.rows, w.objects)
    && WorkerOk(w.rows, w.objects, w.worker)
  }

  /** Objects only added, each under the key of a stored row and holding it. */
  ghost predicate Grows(a: Objects, b: Objects) {
    forall key :: key in a ==> key in b && b[key] == a[key]
  }

  lemma {:induction false} FetchedAreStored(rows: Rows, tenant: string, picks: seq<RowId>, r: Row)
    requires r in Fetched(rows, tenant, picks)
    ensures exists id :: id in rows && rows[id].row == r && id.tenant == tenant && !rows[id].archived
  {
    if picks[0] in rows && rows[picks[0]].row == r && picks[0].tenant == tenant && !rows[picks[0]].archived {
    } else {
      FetchedAreStored(rows, tenant, picks[1..], r);
    }
  }

  /** After an item is listed its own object is there: an object already there can be no other's. */
  lemma ListedHasObject(rows: Rows, objects: Objects, r: Row, o: Outcome)
    requires RowsOk(rows) && ObjectsOk(rows, objects) && IsStored(rows, r)
    ensures var (after, listed) := ArchiveOne(objects, r, o);
            && (listed ==> HasObject(rows, after, r.id))
            && Grows(objects, after) && ObjectsOk(rows, after)
  {
    if ArchiveKey(r) in objects {
      assert ValidRow(rows[r.id].row) && ValidRow(rows[objects[ArchiveKey(r)].id].row);
      ArchiveKeyIsInjective(r, objects[ArchiveKey(r)]);
    }
  }

  lemma GrowthKeepsObjects(rows: Rows, a: Objects, b: Objects)
    requires Grows(a, b) && ArchivedOk(rows, a)
    ensures ArchivedOk(rows, b)
    ensures forall id :: HasObject(rows, a, id) ==> HasObject(rows, b, id)
  {
    hide ArchiveKey;
  }

  lemma ItemKeepsSafe(w: World, o: Outcome)
    requires Safe(w) && w.worker.Working? && w.worker.todo != []
    ensures Safe(Next(w, Item(o))) && Grows(w.objects, Next(w, Item(o)).objects)
  {
    hide ArchiveOne, ArchiveKey, ValidRow, HasObject, RowsOk, ObjectsOk, ArchivedOk, Grows;
    var item, w' := w.worker.todo[0], Next(w, Item(o));
    assert item in w.worker.todo;
    ListedHasObject(w.rows, w.objects, item, o);
    GrowthKeepsObjects(w.rows, w.objects, w'.objects);
    assert forall r :: r in w'.worker.todo ==> r in w.worker.todo;
    forall id | id in w'.worker.ids
      ensures HasObject(w'.rows, w'.objects, id)
    {
      assert id in w.worker.ids || id == item.id;
    }
  }

  /** Changing archived flags, or adding a row, keeps what objects say about the old rows. */
  lemma RowChangeKeeps(a: Rows, b: Rows, objects: Objects)
    requires forall id :: id in a ==> id in b && b[id].row == a[id].row
    requires ObjectsOk(a, objects)
    ensures ObjectsOk(b, objects)
    ensures forall id :: HasObject(a, objects, id) ==> HasObject(b, objects, id)
    ensures forall r :: IsStored(a, r) ==> IsStored(b, r)
  {
    hide ArchiveKey;
  }

  lemma InsertKeepsSafe(w: World, row: Row)
    requires Safe(w)
    ensures Safe(Next(w, InsertRow(row)))
  {
    hide ArchiveKey, ValidRow, HasObject, IsStored, ObjectsOk;
    RowChangeKeeps(w.rows, Next(w, InsertRow(row)).rows, w.objects);
  }

  lemma MarkKeepsSafe(w: World, applied: bool)
    requires Safe(w)
    ensures Safe(Next(w, Mark(applied)))
  {
    hide ArchiveKey, ValidRow, HasObject, IsStored, ObjectsOk;
    RowChangeKeeps(w.rows, Next(w, Mark(applied)).rows, w.objects);
  }

  lemma FetchKeepsSafe(w: World, tenant: string, picks: seq<RowId>)
    requires Safe(w)
    ensures Safe(Next(w, Fetch(tenant, picks)))
  {
    hide ArchiveKey, ValidRow, HasObject, ObjectsOk, ArchivedOk;
    forall r | r in Fetched(w.rows, tenant, picks)
      ensures IsStored(w.rows, r)
    {
      FetchedAreStored(w.rows, tenant, picks, r);
    }
  }

  lemma {:induction false} NextKeepsSafe(w: World, step: Step)
    requires Safe(w)
    ensures Safe(Next(w, step)) && Grows(w.objects, Next(w, step).objects)
  {
    hide ArchiveKey, ValidRow, HasObject, ObjectsOk, ArchivedOk, RowsOk, ArchiveOne, MarkAll;
    match step
    case InsertRow(row) => InsertKeepsSafe(w, row);
    case Fetch(tenant, picks) => FetchKeepsSafe(w, tenant, picks);
    case Item(o) => if w.worker.Working? && w.worker.todo != [] { ItemKeepsSafe(w, o); }
    case Mark(applied) => MarkKeepsSafe(w, applied);
    case Crash =>
  }

  lemma {:induction false} RunKeepsSafe(steps: seq<Step>)
    ensures Safe(Run(steps))
  {
    if steps != [] {
      RunKeepsSafe(steps[..|steps| - 1]);
      NextKeepsSafe(Run(steps[..|steps| - 1]), steps[|steps| - 1]);
    }
  }

  /**
   * Crash safety.  After any sequence of cycles cut short at any point, every row marked archived
   * has an object under its own key that holds that row.
   */
  lemma {:induction false} ArchivedRowsHaveTheirObject(steps: seq<Step>, id: RowId)
    requires id in Run(steps).rows && Run(steps).rows[id].archived
    ensures HasObject(Run(steps).rows, Run(steps).objects, id)
  {
    RunKeepsSafe(steps);
  }

  /** No object is ever overwritten or removed. */
  lemma {:induction false} ObjectsAreNeverOverwritten(steps: seq<Step>, i: nat, key: string)
    requires i <= |steps| && key in Run(steps[..i]).objects
    ensures key in Run(steps).objects && Run(steps).objects[key] == Run(steps[..i]).objects[key]
  {
    if i == |steps| {
      assert steps[..i] == steps;
    } else {
      var before := steps[..|steps| - 1];
      assert before[..i] == steps[..i];
      ObjectsAreNeverOverwritten(before, i, key);
      RunKeepsSafe(before);
      NextKeepsSafe(Run(before), steps[|steps| - 1]);
    }
  }

  // ---------------------------------------------------------------- items as steps, and a whole cycle

  /** The world after n items of its worker, with the given outcomes. */
  ghost function Items(w: World, outcomes: seq<Outcome>): World {
    if outcomes == [] then w
    else Next(Items(w, outcomes[..|outcomes| - 1]), Item(outcomes[|outcomes| - 1]))
  }

  /** Working item by item does what `archive_items` does on as many items. */
  lemma {:induction false} ItemsAreArchiveItems(w: World, outcomes: seq<Outcome>)
    requires w.worker.Working? && w.worker.ids == [] && |outcomes| <= |w.worker.todo|
    ensures var (n, todo) := (|outcomes|, w.worker.todo);
            var (objects, ids) := ArchiveFirst(w.objects, todo, outcomes, n);
            Items(w, outcomes) == World(w.rows, objects, Working(w.worker.tenant, todo[n..], ids))
    decreases |outcomes|
  {
    if outcomes != [] {
      var n := |outcomes| - 1;
      ItemsAreArchiveItems(w, outcomes[..n]);
      SameOutcomes(w.objects, w.worker.todo, outcomes[..n], outcomes, n);
    }
  }

  lemma {:induction false} SameOutcomes(objects: Objects, items: seq<Row>, a: seq<Outcome>, b: seq<Outcome>, n: nat)
    requires n <= |items| && n <= |a| && a <= b
    ensures ArchiveFirst(objects, items, a, n) == ArchiveFirst(objects, items, b, n)
  {
    if n > 0 { SameOutcomes(objects, items, a, b, n - 1); }
  }

  /** The rest of a cycle that meets no failure: the items to do, then marking. */
  ghost function CleanRest(w: World, todo: nat): World
    decreases todo
  {
    if todo == 0 then Next(w, Mark(true)) else CleanRest(Next(w, Item(PutSucceeds)), todo - 1)
  }

  /** A whole cycle that meets no failure. */
  ghost function CleanCycle(w: World, tenant: string, picks: seq<RowId>): World {
    var fetched := Next(w, Fetch(tenant, picks));
    if fetched.worker.Working? then CleanRest(fetched, |fetched.worker.todo|) else fetched
  }

  ghost predicate OwnTenant(worker: Worker) {
    worker.Working? && (forall r :: r in worker.todo ==> r.id.tenant == worker.tenant)
    && (forall id :: id in worker.ids ==> id.tenant == worker.tenant)
  }

  /** A successful item moves from the list to do to the ids to mark. */
  lemma CleanItem(w: World)
    requires Safe(w) && OwnTenant(w.worker) && w.worker.todo != []
    ensures var w' := Next(w, Item(PutSucceeds));
            && Safe(w') && OwnTenant(w'.worker) && w'.rows == w.rows
            && w'.worker == Working(w.worker.tenant, w.worker.todo[1..], w.worker.ids + [w.worker.todo[0].id])
  {
    ItemKeepsSafe(w, PutSucceeds);
    hide Safe, ArchiveKey, ValidRow;
    assert w.worker.todo[0] in w.worker.todo;
  }

  /** Marking archives exactly the listed rows. */
  lemma CleanMark(w: World)
    requires Safe(w) && OwnTenant(w.worker) && w.worker.todo == []
    ensures var e := Next(w, Mark(true));
            Safe(e) && e.worker.Idle? && ArchivedBy(w.rows, e.rows, set id | id in w.worker.ids)
  {
    MarkKeepsSafe(w, true);
    hide ArchiveKey, ValidRow, ObjectsOk, ArchivedOk, RowsOk;
  }

  /** The same rows, of which exactly those archived before and the given ones are archived. */
  ghost predicate ArchivedBy(a: Rows, b: Rows, ids: set<RowId>) {
    && b.Keys == a.Keys
    && forall id :: id in a ==> b[id] == a[id].(archived := a[id].archived || id in ids)
  }

  lemma {:induction false} CleanRestArchives(w: World)
    requires Safe(w) && OwnTenant(w.worker)
    ensures var e := CleanRest(w, |w.worker.todo|);
            && Safe(e) && e.worker.Idle?
            && ArchivedBy(w.rows, e.rows, (set id | id in w.worker.ids) + set r | r in w.worker.todo :: r.id)
    decreases |w.worker.todo|
  {
    hide Safe, Next;
    if w.worker.todo == [] {
      CleanMark(w);
      assert (set id | id in w.worker.ids) == (set id | id in w.worker.ids) + set r | r in w.worker.todo :: r.id;
    } else {
      var item, w' := w.worker.todo[0], Next(w, Item(PutSucceeds));
      CleanItem(w);
      CleanRestArchives(w');
      assert w.worker.todo == [item] + w'.worker.todo;
      assert (set id | id in w.worker.ids) + (set r | r in w.worker.todo :: r.id) ==
             (set id | id in w'.worker.ids) + (set r | r in w'.worker.todo :: r.id);
    }
  }

  lemma {:induction false} FetchedExactly(rows: Rows, tenant: string, picks: seq<RowId>, id: RowId)
    requires RowsOk(rows)
    ensures (exists r :: r in Fetched(rows, tenant, picks) && r.id == id) <==>
            id in picks && id in rows && id.tenant == tenant && !rows[id].archived
    ensures forall r :: r in Fetched(rows, tenant, picks) ==> r.id.tenant == tenant
  {
    hide ValidRow;
    if picks != [] {
      FetchedExactly(rows, tenant, picks[1..], id);
      assert picks == [picks[0]] + picks[1..];
      if id == picks[0] && id in rows && id.tenant == tenant && !rows[id].archived {
        assert rows[id].row in Fetched(rows, tenant, picks);
      }
    }
  }

  lemma FetchedIds(rows: Rows, tenant: string, picks: seq<RowId>)
    requires RowsOk(rows)
    ensures (set r | r in Fetched(rows, tenant, picks) :: r.id) ==
            set id | id in picks && id in rows && id.tenant == tenant && !rows[id].archived
    ensures forall r :: r in Fetched(rows, tenant, picks) ==> r.id.tenant == tenant
  {
    hide Fetched, RowsOk;
    forall id
      ensures (exists r :: r in Fetched(rows, tenant, picks) && r.id == id) <==>
              id in picks && id in rows && id.tenant == tenant && !rows[id].archived
      ensures forall r :: r in Fetched(rows, tenant, picks) ==> r.id.tenant == tenant
    {
      FetchedExactly(rows, tenant, picks, id);
    }
  }

  /** A crash loses no row and no object, and leaves the archiver ready for a new cycle. */
  lemma {:induction false} CrashLosesNothing(steps: seq<Step>)
    ensures var (w, e) := (Run(steps), Run(steps + [Crash]));
            e.rows == w.rows && e.objects == w.objects && e.worker.Idle?
  {
    assert (steps + [Crash])[..|steps + [Crash]| - 1] == steps;
  }

  /**
   * A cycle that meets no failure, from any reachable idle state: it marks exactly the rows of
   * the tenant among its picks that were not archived, and leaves every other row as it was.
   */
  lemma {:induction false} CleanCycleArchives(steps: seq<Step>, tenant: string, picks: seq<RowId>)
    requires Run(steps).worker.Idle?
    ensures var w := Run(steps);
            var e := CleanCycle(w, tenant, picks);
            && Safe(e) && e.worker.Idle? && e.rows.Keys == w.rows.Keys
            && forall id :: id in w.rows ==>
                 && e.rows[id].row == w.rows[id].row
                 && (e.rows[id].archived <==> w.rows[id].archived || (id in picks && id.tenant == tenant))
  {
    var w := Run(steps);
    RunKeepsSafe(steps);
    FetchKeepsSafe(w, tenant, picks);
    var f := Next(w, Fetch(tenant, picks));
    FetchedIds(w.rows, tenant, picks);
    assert f == w.(worker := Working(tenant, Fetched(w.rows, tenant, picks), []));
    hide Safe, Fetched, Run, Next;
    CleanRestArchives(f);
  }
}
