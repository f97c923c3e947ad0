/**
 * Signing keys (kernel-core/src/auth/key_manager.rs) in the table of
 * kernel-data/migration/src/m20250521_000001_key_management.rs.
 *
 * Every statement of a transaction is checked against the two partial unique indexes; a violation
 * aborts the transaction.  Transactions are serial.  Times are milliseconds on one clock.
 */
module KeyLifecycle {
  import opened Prelude

  const HOUR: int := 3600000
  const ROTATION_PERIOD: int := 30 * 24 * HOUR
  const RETENTION: int := 48 * HOUR

  datatype KeyType = Hmac | PasetoPublic

  datatype KeyState = Active | Next | Retired | Revoked

  datatype KeyRow = KeyRow(keyType: KeyType, secret: string, state: KeyState, createdAt: int,
                           activatedAt: Option<int>, retiredAt: Option<int>, revokedAt: Option<int>)

  type Table = map<string, KeyRow>

  /** What `create_key` generates: a fresh id, key material and its own reading of the clock. */
  datatype NewKey = NewKey(kid: string, secret: string, at: int)

  // ---------------------------------------------------------------- statements

  predicate Is(t: Table, kid: string, ty: KeyType, st: KeyState) {
    kid in t && t[kid].keyType == ty && t[kid].state == st
  }

  /** At most one active and at most one next key per type. */
  predicate IndexesHold(t: Table) {
    forall a, b :: a in t && b in t && a != b && t[a].keyType == t[b].keyType && t[a].state == t[b].state ==>
      !t[a].state.Active? && !t[a].state.Next?
  }

  function Update(t: Table, kid: string, row: KeyRow): Option<Table> {
    if IndexesHold(t[kid := row]) then Some(t[kid := row]) else None
  }

  function Row(n: NewKey, ty: KeyType, st: KeyState): KeyRow {
    KeyRow(ty, n.secret, st, n.at, if st.Active? then Some(n.at) else None, None, None)
  }

  function Create(t: Table, n: NewKey, ty: KeyType, st: KeyState): Option<Table> {
    if n.kid in t then None else Update(t, n.kid, Row(n, ty, st))
  }

  function Create2(t: Table, n1: NewKey, n2: NewKey, ty: KeyType): Option<Table> {
    var first := Create(t, n1, ty, Active);
    if first.None? then None else Create(first.value, n2, ty, Next)
  }

  ghost predicate Has(t: Table, ty: KeyType, st: KeyState) {
    exists kid :: Is(t, kid, ty, st)
  }

  /** The row a `filter(type, state).one()` query returns. */
  ghost function One(t: Table, ty: KeyType, st: KeyState): (r: Option<string>)
    ensures r.Some? <==> Has(t, ty, st)
    ensures r.Some? ==> Is(t, r.value, ty, st)
  {
    if Has(t, ty, st) then var kid :| Is(t, kid, ty, st); Some(kid) else None
  }

  function PruneRetired(t: Table, ty: KeyType, now: int): Table {
    map kid |
      kid in t && !(Is(t, kid, ty, Retired) && t[kid].retiredAt.Some? && t[kid].retiredAt.value < now - RETENTION)
      :: t[kid]
  }

  function RotationDue(row: KeyRow, now: int): bool {
    now >= (if row.activatedAt.Some? then row.activatedAt.value else row.createdAt) + ROTATION_PERIOD
  }

  /** The next key, if any, becomes active and a new next key follows; else both are created. */
  ghost function Promote(t: Table, ty: KeyType, now: int, n1: NewKey, n2: NewKey): Option<Table> {
    var next := One(t, ty, Next);
    if next.None? then Create2(t, n1, n2, ty)
    else
      var promoted := Update(t, next.value, t[next.value].(state := Active, activatedAt := Some(now)));
      if promoted.None? then None else Create(promoted.value, n1, ty, Next)
  }

  ghost function RotateBody(t: Table, ty: KeyType, now: int, n1: NewKey, n2: NewKey): Option<Table> {
    RotateFrom(t, One(t, ty, Active), ty, now, n1, n2)
  }

  /** The statements of a rotation after its SELECT of the active key answered. */
  ghost function RotateFrom(t: Table, active: Option<string>, ty: KeyType, now: int, n1: NewKey, n2: NewKey)
    : Option<Table>
    requires active.Some? ==> active.value in t
  {
    if active.None? then Create2(t, n1, n2, ty)
    else if RotationDue(t[active.value], now) then
      var retired := Update(t, active.value, t[active.value].(state := Retired, retiredAt := Some(now)));
      if retired.None? then None else Promote(retired.value, ty, now, n1, n2)
    else if Has(t, ty, Next) then Some(t)
    else Create(t, n1, ty, Next)
  }

  /** None is an aborted transaction. */
  ghost function Rotate(t: Table, ty: KeyType, now: int, n1: NewKey, n2: NewKey, prune: bool): Option<Table> {
    var body := RotateBody(t, ty, now, n1, n2);
    if body.Some? && prune then Some(PruneRetired(body.value, ty, now)) else body
  }

  ghost function Revoke(t: Table, kid: string, now: int, n1: NewKey, n2: NewKey): Option<Table> {
    if kid !in t then None
    else
      var revoked := Update(t, kid, t[kid].(state := Revoked, revokedAt := Some(now)));
      if revoked.None? || !t[kid].state.Active? || Has(revoked.value, t[kid].keyType, Active) then revoked
      else Promote(revoked.value, t[kid].keyType, now, n1, n2)
  }

  // ---------------------------------------------------------------- the table object

  class KeyTable {
    var rows: Table

    constructor ()
      ensures rows == map[]
    {
      rows := map[];
    }

    /** `rotate_key_type`, statement by statement; a violated index rolls everything back. */
    method RotateKeyType(ty: KeyType, now: int, n1: NewKey, n2: NewKey) returns (ok: bool)
      requires IndexesHold(rows)
      modifies this
      ensures ok <==> Rotate(old(rows), ty, now, n1, n2, true).Some?
      ensures rows == if ok then Rotate(old(rows), ty, now, n1, n2, true).value else old(rows)
    {
      var txn := rows;
      if kid :| kid in rows && rows[kid].keyType == ty && rows[kid].state == Active {
        OneIs(rows, kid, ty, Active);
        if RotationDue(rows[kid], now) {
          var r := Update(txn, kid, rows[kid].(state := Retired, retiredAt := Some(now)));
          if r.None? { return false; }
          r := PromoteNext(r.value, ty, now, n1, n2);
          if r.None? { return false; }
          txn := r.value;
        } else if exists next :: next in txn && txn[next].keyType == ty && txn[next].state == Next {
          var next :| next in txn && txn[next].keyType == ty && txn[next].state == Next;
          assert Is(txn, next, ty, Next);
        } else {
          assert forall next :: !Is(txn, next, ty, Next);
          var r := Create(txn, n1, ty, Next);
          if r.None? { return false; }
          txn := r.value;
        }
      } else {
        assert forall next :: !Is(txn, next, ty, Active);
        var r := Create2(txn, n1, n2, ty);
        if r.None? { return false; }
        txn := r.value;
      }
      rows := PruneRetired(txn, ty, now);
      return true;
    }

    static method PromoteNext(t: Table, ty: KeyType, now: int, n1: NewKey, n2: NewKey) returns (r: Option<Table>)
      requires IndexesHold(t)
      ensures r == Promote(t, ty, now, n1, n2)
    {
      if next :| next in t && t[next].keyType == ty && t[next].state == Next {
        OneIs(t, next, ty, Next);
        r := Update(t, next, t[next].(state := Active, activatedAt := Some(now)));
        if r.None? { return None; }
        return Create(r.value, n1, ty, Next);
      } else {
        assert forall next :: !Is(t, next, ty, Next);
        return Create2(t, n1, n2, ty);
      }
    }

    /** `revoke_key`; false when the key does not exist or an index is violated. */
    method RevokeKey(kid: string, now: int, n1: NewKey, n2: NewKey) returns (ok: bool)
      requires IndexesHold(rows)
      modifies this
      ensures ok <==> Revoke(old(rows), kid, now, n1, n2).Some?
      ensures rows == if ok then Revoke(old(rows), kid, now, n1, n2).value else old(rows)
    {
      if kid !in rows { return false; }
      var ty, wasActive := rows[kid].keyType, rows[kid].state == Active;
      var r := Update(rows, kid, rows[kid].(state := Revoked, revokedAt := Some(now)));
      if r.None? { return false; }
      if wasActive {
        var replaced := exists other :: other in r.value && Is(r.value, other, ty, Active);
        if !replaced {
          assert forall other :: !Is(r.value, other, ty, Active);
          r := PromoteNext(r.value, ty, now, n1, n2);
          if r.None? { return false; }
        }
      }
      rows := r.value;
      return true;
    }
  }

  lemma OneIs(t: Table, kid: string, ty: KeyType, st: KeyState)
    requires IndexesHold(t) && Is(t, kid, ty, st) && (st.Active? || st.Next?)
    ensures One(t, ty, st) == Some(kid)
  {
  }

  // ---------------------------------------------------------------- what every transaction keeps

  ghost predicate Inv(t: Table) {
    && IndexesHold(t)
    && (forall kid :: kid in t && t[kid].state.Next? ==> Has(t, t[kid].keyType, Active))
    && (forall kid :: kid in t && t[kid].state.Retired? ==> t[kid].retiredAt.Some?)
  }

  predicate FreshKeys(used: set<string>, n1: NewKey, n2: NewKey) {
    n1.kid !in used && n2.kid !in used && n1.kid != n2.kid
  }

  /** A row fits when no other row has its type and state. */
  lemma FitsIndexes(t: Table, kid: string, row: KeyRow)
    requires IndexesHold(t) && forall other :: Is(t, other, row.keyType, row.state) ==> other == kid
    ensures IndexesHold(t[kid := row])
  {
    var t' := t[kid := row];
    forall a, b | a in t' && b in t' && a != b && t'[a].keyType == t'[b].keyType && t'[a].state == t'[b].state
      ensures !t'[a].state.Active? && !t'[a].state.Next?
    {
      if a == kid { assert Is(t, b, row.keyType, row.state); }
      if b == kid { assert Is(t, a, row.keyType, row.state); }
    }
  }

  lemma Create2Works(t: Table, n1: NewKey, n2: NewKey, ty: KeyType)
    requires Inv(t) && !Has(t, ty, Active) && FreshKeys(t.Keys, n1, n2)
    ensures Create2(t, n1, n2, ty).Some? && Inv(Create2(t, n1, n2, ty).value)
    ensures Has(Create2(t, n1, n2, ty).value, ty, Active)
  {
    forall kid
      ensures !Is(t, kid, ty, Next)
    {
      assert Is(t, kid, ty, Next) ==> Has(t, ty, Active);
    }
    var t1 := t[n1.kid := Row(n1, ty, Active)];
    FitsIndexes(t, n1.kid, Row(n1, ty, Active));
    var t2 := t1[n2.kid := Row(n2, ty, Next)];
    assert forall kid :: Is(t1, kid, ty, Next) ==> Is(t, kid, ty, Next);
    FitsIndexes(t1, n2.kid, Row(n2, ty, Next));
    assert Is(t2, n1.kid, ty, Active);
    OthersKeepActive(t, t2, ty);
  }

  /** If t' only adds or changes rows of one type, the other types keep their active keys. */
  lemma OthersKeepActive(t: Table, t': Table, ty: KeyType)
    requires forall kid :: kid in t && t[kid].keyType != ty ==> kid in t' && t'[kid] == t[kid]
    ensures forall other :: other != ty && Has(t, other, Active) ==> Has(t', other, Active)
  {
    forall other | other != ty && Has(t, other, Active)
      ensures Has(t', other, Active)
    {
      var kid :| Is(t, kid, other, Active);
      assert Is(t', kid, other, Active);
    }
  }

  /** Everything but a missing active key of one type. */
  ghost predicate AlmostInv(t: Table, ty: KeyType) {
    && IndexesHold(t) && !Has(t, ty, Active)
    && (forall kid :: kid in t && t[kid].state.Next? && t[kid].keyType != ty ==> Has(t, t[kid].keyType, Active))
    && (forall kid :: kid in t && t[kid].state.Retired? ==> t[kid].retiredAt.Some?)
  }

  lemma PromoteWorks(t: Table, ty: KeyType, now: int, n1: NewKey, n2: NewKey)
    requires AlmostInv(t, ty) && FreshKeys(t.Keys, n1, n2)
    ensures Promote(t, ty, now, n1, n2).Some? && Inv(Promote(t, ty, now, n1, n2).value)
    ensures Has(Promote(t, ty, now, n1, n2).value, ty, Active)
  {
    if One(t, ty, Next).Some? {
      PromoteNextWorks(t, ty, now, n1, n2);
    } else {
      forall kid | kid in t && t[kid].state.Next?
        ensures Has(t, t[kid].keyType, Active)
      {
        assert Is(t, kid, t[kid].keyType, Next);
      }
      assert forall kid :: !Is(t, kid, ty, Active);
      Create2Works(t, n1, n2, ty);
    }
  }

  lemma PromoteNextWorks(t: Table, ty: KeyType, now: int, n1: NewKey, n2: NewKey)
    requires AlmostInv(t, ty) && FreshKeys(t.Keys, n1, n2) && One(t, ty, Next).Some?
    ensures Promote(t, ty, now, n1, n2).Some? && Inv(Promote(t, ty, now, n1, n2).value)
    ensures Has(Promote(t, ty, now, n1, n2).value, ty, Active)
  {
    var next := One(t, ty, Next);
    assert forall kid :: !Is(t, kid, ty, Active);
    var row := t[next.value].(state := Active, activatedAt := Some(now));
    var t1 := t[next.value := row];
    FitsIndexes(t, next.value, row);
    forall kid
      ensures !Is(t1, kid, ty, Next)
    {
      if Is(t, kid, ty, Next) { OneIs(t, kid, ty, Next); }
    }
    var t2 := t1[n1.kid := Row(n1, ty, Next)];
    FitsIndexes(t1, n1.kid, Row(n1, ty, Next));
    assert Is(t2, next.value, ty, Active);
    OthersKeepActive(t, t2, ty);
    hide IndexesHold, One;
  }

  /** Taking the active key out of service leaves only the promotion to do. */
  lemma DeactivateLeaves(t: Table, kid: string, row: KeyRow)
    requires Inv(t) && kid in t && t[kid].state.Active? && row.keyType == t[kid].keyType
    requires row.state.Revoked? || (row.state.Retired? && row.retiredAt.Some?)
    ensures AlmostInv(t[kid := row], t[kid].keyType)
  {
    var ty, t' := t[kid].keyType, t[kid := row];
    forall other
      ensures !Is(t', other, ty, Active)
    {
    }
    OthersKeepActive(t, t', ty);
  }

  lemma PruneKeeps(t: Table, ty: KeyType, now: int)
    requires Inv(t)
    ensures Inv(PruneRetired(t, ty, now))
    ensures forall k :: Has(t, k, Active) ==> Has(PruneRetired(t, ty, now), k, Active)
  {
    var t' := PruneRetired(t, ty, now);
    forall k | Has(t, k, Active)
      ensures Has(t', k, Active)
    {
      var kid :| Is(t, kid, k, Active);
      assert Is(t', kid, k, Active);
    }
  }

  lemma RotateBodyWorks(t: Table, ty: KeyType, now: int, n1: NewKey, n2: NewKey)
    requires Inv(t) && FreshKeys(t.Keys, n1, n2)
    ensures RotateBody(t, ty, now, n1, n2).Some? && Inv(RotateBody(t, ty, now, n1, n2).value)
    ensures Has(RotateBody(t, ty, now, n1, n2).value, ty, Active)
  {
    var active := One(t, ty, Active);
    if active.None? {
      Create2Works(t, n1, n2, ty);
    } else if RotationDue(t[active.value], now) {
      var row := t[active.value].(state := Retired, retiredAt := Some(now));
      DeactivateLeaves(t, active.value, row);
      PromoteWorks(t[active.value := row], ty, now, n1, n2);
    } else if !Has(t, ty, Next) {
      var t' := t[n1.kid := Row(n1, ty, Next)];
      FitsIndexes(t, n1.kid, Row(n1, ty, Next));
      assert Is(t', active.value, ty, Active);
      OthersKeepActive(t, t', ty);
    }
  }

  /** A rotation never violates an index, at any of its statements. */
  lemma RotateNeverAborts(t: Table, ty: KeyType, now: int, n1: NewKey, n2: NewKey, prune: bool)
    requires Inv(t) && FreshKeys(t.Keys, n1, n2)
    ensures Rotate(t, ty, now, n1, n2, prune).Some? && Inv(Rotate(t, ty, now, n1, n2, prune).value)
    ensures Has(Rotate(t, ty, now, n1, n2, prune).value, ty, Active)
  {
    RotateBodyWorks(t, ty, now, n1, n2);
    PruneKeeps(RotateBody(t, ty, now, n1, n2).value, ty, now);
  }

  /** A revocation fails only for an unknown key, and never violates an index. */
  lemma RevokeNeverAborts(t: Table, kid: string, now: int, n1: NewKey, n2: NewKey)
    requires Inv(t) && FreshKeys(t.Keys, n1, n2) && kid in t
    ensures Revoke(t, kid, now, n1, n2).Some? && Inv(Revoke(t, kid, now, n1, n2).value)
  {
    var row := t[kid].(state := Revoked, revokedAt := Some(now));
    var ty, t' := t[kid].keyType, t[kid := row];
    if t[kid].state.Active? {
      DeactivateLeaves(t, kid, row);
      PromoteWorks(t', ty, now, n1, n2);
    } else {
      forall k | Has(t, k, Active)
        ensures Has(t', k, Active)
      {
        var a :| Is(t, a, k, Active);
        assert Is(t', a, k, Active);
      }
    }
  }

  // ---------------------------------------------------------------- how rows evolve

  /** What a transaction at time now may do to a row it does not revoke or prune. */
  predicate Evolves(a: KeyRow, b: KeyRow, now: int) {
    || b == a
    || (a.state.Active? && b == a.(state := Retired, retiredAt := Some(now)))
    || (a.state.Next? && b == a.(state := Active, activatedAt := Some(now)))
  }

  /** The tables the transactions end with, leaving out the index checks. */
  function PairMap(t: Table, n1: NewKey, n2: NewKey, ty: KeyType): Table {
    t[n1.kid := Row(n1, ty, Active)][n2.kid := Row(n2, ty, Next)]
  }

  ghost function PromoteMap(t: Table, ty: KeyType, now: int, n1: NewKey, n2: NewKey): Table {
    var next := One(t, ty, Next);
    if next.None? then PairMap(t, n1, n2, ty)
    else t[next.value := t[next.value].(state := Active, activatedAt := Some(now))][n1.kid := Row(n1, ty, Next)]
  }

  ghost function RotateMap(t: Table, ty: KeyType, now: int, n1: NewKey, n2: NewKey): Table {
    var active := One(t, ty, Active);
    if active.None? then PairMap(t, n1, n2, ty)
    else if RotationDue(t[active.value], now) then
      PromoteMap(t[active.value := t[active.value].(state := Retired, retiredAt := Some(now))], ty, now, n1, n2)
    else if One(t, ty, Next).Some? then t
    else t[n1.kid := Row(n1, ty, Next)]
  }

  ghost function RevokeMap(t: Table, kid: string, now: int, n1: NewKey, n2: NewKey): Table
    requires kid in t
  {
    var t' := t[kid := t[kid].(state := Revoked, revokedAt := Some(now))];
    if t[kid].state.Active? then PromoteMap(t', t[kid].keyType, now, n1, n2) else t'
  }

  lemma PromoteShape(t: Table, ty: KeyType, now: int, n1: NewKey, n2: NewKey)
    requires Promote(t, ty, now, n1, n2).Some?
    ensures Promote(t, ty, now, n1, n2).value == PromoteMap(t, ty, now, n1, n2)
  {
    hide IndexesHold, Has, One;
  }

  lemma RotateShape(t: Table, ty: KeyType, now: int, n1: NewKey, n2: NewKey)
    requires Inv(t) && FreshKeys(t.Keys, n1, n2)
    ensures RotateBody(t, ty, now, n1, n2) == Some(RotateMap(t, ty, now, n1, n2))
  {
    RotateBodyWorks(t, ty, now, n1, n2);
    hide IndexesHold, Has, One, Inv, Promote, PromoteMap;
    var active := One(t, ty, Active);
    if active.Some? && RotationDue(t[active.value], now) {
      PromoteShape(t[active.value := t[active.value].(state := Retired, retiredAt := Some(now))], ty, now, n1, n2);
    }
  }

  lemma RevokeShape(t: Table, kid: string, now: int, n1: NewKey, n2: NewKey)
    requires Inv(t) && FreshKeys(t.Keys, n1, n2) && kid in t
    ensures Revoke(t, kid, now, n1, n2) == Some(RevokeMap(t, kid, now, n1, n2))
  {
    RevokeNeverAborts(t, kid, now, n1, n2);
    var row := t[kid].(state := Revoked, revokedAt := Some(now));
    if t[kid].state.Active? { DeactivateLeaves(t, kid, row); }
    hide IndexesHold, One, Inv, Promote, PromoteMap;
    if t[kid].state.Active? { PromoteShape(t[kid := row], t[kid].keyType, now, n1, n2); }
  }

  lemma PromoteMapAt(t: Table, ty: KeyType, now: int, n1: NewKey, n2: NewKey, kid: string)
    requires kid in t && FreshKeys(t.Keys, n1, n2)
    ensures var t' := PromoteMap(t, ty, now, n1, n2);
            kid in t' && (t'[kid] == t[kid] || (Is(t, kid, ty, Next) && Evolves(t[kid], t'[kid], now)))
  {
    hide Has, One;
  }

  lemma RotateMapAt(t: Table, ty: KeyType, now: int, n1: NewKey, n2: NewKey, kid: string)
    requires kid in t && FreshKeys(t.Keys, n1, n2)
    ensures var t' := RotateMap(t, ty, now, n1, n2);
            kid in t' && Evolves(t[kid], t'[kid], now) && (t'[kid] == t[kid] || t[kid].keyType == ty)
  {
    hide Has, One, PromoteMap;
    var active := One(t, ty, Active);
    if active.Some? && RotationDue(t[active.value], now) {
      var t' := t[active.value := t[active.value].(state := Retired, retiredAt := Some(now))];
      PromoteMapAt(t', ty, now, n1, n2, kid);
    }
  }

  lemma RevokeMapAt(t: Table, target: string, now: int, n1: NewKey, n2: NewKey, kid: string)
    requires kid in t && target in t && FreshKeys(t.Keys, n1, n2)
    ensures var t' := RevokeMap(t, target, now, n1, n2);
            && kid in t'
            && (kid == target ==> t'[kid].state.Revoked?)
            && (kid != target ==> t'[kid] == t[kid] || (t[kid].state.Next? && Evolves(t[kid], t'[kid], now)))
  {
    hide Has, One, PromoteMap;
    var t' := t[target := t[target].(state := Revoked, revokedAt := Some(now))];
    if t[target].state.Active? { PromoteMapAt(t', t[target].keyType, now, n1, n2, kid); }
  }

  /** The row is a newly generated key, with its own secret and time, of a type and state. */
  predicate IsNew(row: KeyRow, n: NewKey, ty: KeyType) {
    && row.keyType == ty && row.secret == n.secret && row.createdAt == n.at
    && row.retiredAt.None? && row.revokedAt.None?
    && ((row.state.Active? && row.activatedAt == Some(n.at)) || (row.state.Next? && row.activatedAt.None?))
  }

  /** A rotation adds only generated keys, of its own type. */
  lemma RotateCreates(t: Table, ty: KeyType, now: int, n1: NewKey, n2: NewKey, kid: string)
    requires Inv(t) && FreshKeys(t.Keys, n1, n2) && kid !in t
    ensures var r := Rotate(t, ty, now, n1, n2, true);
            r.Some? && (kid in r.value ==>
                          || (kid == n1.kid && IsNew(r.value[kid], n1, ty))
                          || (kid == n2.kid && IsNew(r.value[kid], n2, ty)))
  {
    RotateShape(t, ty, now, n1, n2);
    hide Has, One, IndexesHold, Inv, RotateBody;
  }

  /** A revocation adds generated keys only to replace an active key, of its type. */
  lemma RevokeCreates(t: Table, target: string, now: int, n1: NewKey, n2: NewKey, kid: string)
    requires Inv(t) && FreshKeys(t.Keys, n1, n2) && target in t && kid !in t
    ensures var r := Revoke(t, target, now, n1, n2);
            var ty := t[target].keyType;
            r.Some? && (kid in r.value ==>
                          && t[target].state.Active?
                          && ((kid == n1.kid && IsNew(r.value[kid], n1, ty))
                              || (kid == n2.kid && IsNew(r.value[kid], n2, ty))))
  {
    RevokeShape(t, target, now, n1, n2);
    hide Has, One, IndexesHold, Inv, Revoke;
  }

  /** One rotation, seen from a row: it evolves, or is pruned. */
  lemma {:induction false} RotateAt(t: Table, ty: KeyType, now: int, n1: NewKey, n2: NewKey, kid: string)
    requires Inv(t) && FreshKeys(t.Keys, n1, n2) && kid in t
    ensures var r := Rotate(t, ty, now, n1, n2, true);
            && r.Some?
            && (kid in r.value ==>
                  Evolves(t[kid], r.value[kid], now) && (r.value[kid] == t[kid] || t[kid].keyType == ty))
            && (kid !in r.value ==> t[kid].state.Retired? && t[kid].retiredAt.Some?
                                    && t[kid].retiredAt.value < now - RETENTION)
  {
    RotateShape(t, ty, now, n1, n2);
    RotateMapAt(t, ty, now, n1, n2, kid);
    hide IndexesHold, Inv, RotateBody, RotateMap;
  }

  lemma {:induction false} RevokeAt(t: Table, target: string, now: int, n1: NewKey, n2: NewKey, kid: string)
    requires Inv(t) && FreshKeys(t.Keys, n1, n2) && target in t && kid in t
    ensures var r := Revoke(t, target, now, n1, n2);
            && r.Some? && kid in r.value
            && (kid == target ==> r.value[kid].state.Revoked?)
            && (kid != target ==> r.value[kid] == t[kid] || (t[kid].state.Next? && Evolves(t[kid], r.value[kid], now)))
  {
    RevokeShape(t, target, now, n1, n2);
    RevokeMapAt(t, target, now, n1, n2, kid);
  }

  lemma RevokeKeepsActive(t: Table, kid: string, now: int, n1: NewKey, n2: NewKey, ty: KeyType)
    requires Inv(t) && FreshKeys(t.Keys, n1, n2) && kid in t && Has(t, ty, Active)
    ensures Revoke(t, kid, now, n1, n2).Some? && Has(Revoke(t, kid, now, n1, n2).value, ty, Active)
  {
    hide IndexesHold, Inv, Promote;
    var a :| Is(t, a, ty, Active);
    RevokeAt(t, kid, now, n1, n2, a);
    RevokeShape(t, kid, now, n1, n2);
    if a == kid {
      var row := t[kid].(state := Revoked, revokedAt := Some(now));
      DeactivateLeaves(t, kid, row);
      PromoteWorks(t[kid := row], ty, now, n1, n2);
      PromoteShape(t[kid := row], ty, now, n1, n2);
    } else {
      hide Revoke, RevokeMap;
      assert Is(Revoke(t, kid, now, n1, n2).value, a, ty, Active);
    }
  }

  // ---------------------------------------------------------------- runs

  /** used: every key id ever generated. */
  datatype System = System(now: int, rows: Table, used: set<string>)

  datatype Step =
    | Advance(ms: nat)
    | RotateStep(ty: KeyType, n1: NewKey, n2: NewKey)
    | RevokeStep(kid: string, n1: NewKey, n2: NewKey)

  /** One serial transaction, or time passing; generated ids are fresh.  With prune false, the
      rotation keeps old retired keys: the system pruning is compared against. */
  ghost function Do(s: System, step: Step, prune: bool): System {
    match step
    case Advance(ms) => s.(now := s.now + ms)
    case RotateStep(ty, n1, n2) =>
      if !FreshKeys(s.used, n1, n2) then s
      else
        var r := Rotate(s.rows, ty, s.now, n1, n2, prune);
        s.(rows := if r.Some? then r.value else s.rows, used := s.used + {n1.kid, n2.kid})
    case RevokeStep(kid, n1, n2) =>
      if !FreshKeys(s.used, n1, n2) then s
      else
        var r := Revoke(s.rows, kid, s.now, n1, n2);
        s.(rows := if r.Some? then r.value else s.rows, used := s.used + {n1.kid, n2.kid})
  }

  ghost function Run(s: System, steps: seq<Step>, prune: bool): System
    decreases |steps|
  {
    if steps == [] then s else Do(Run(s, steps[..|steps| - 1], prune), steps[|steps| - 1], prune)
  }

  ghost predicate Good(s: System) {
    Inv(s.rows) && s.rows.Keys <= s.used
  }

  const FRESH := System(0, map[], {})

  lemma FreshIsGood()
    ensures Good(FRESH)
  {
  }

  /** Revoking an unknown key changes no row; every other step transforms rows one by one. */
  lemma {:induction false} DoAt(s: System, step: Step, kid: string)
    requires Good(s) && kid in s.rows
    ensures var t := Do(s, step, true).rows;
            && (kid in t ==> Evolves(s.rows[kid], t[kid], s.now)
                             || (step.RevokeStep? && step.kid == kid && t[kid].state.Revoked?))
            && (kid !in t ==> s.rows[kid].state.Retired? && s.rows[kid].retiredAt.Some?
                              && s.rows[kid].retiredAt.value < s.now - RETENTION)
  {
    hide IndexesHold, Inv, Revoke, Rotate;
    match step
    case Advance(_) =>
    case RotateStep(ty, n1, n2) =>
      if FreshKeys(s.used, n1, n2) { RotateAt(s.rows, ty, s.now, n1, n2, kid); }
    case RevokeStep(target, n1, n2) =>
      if FreshKeys(s.used, n1, n2) {
        if target in s.rows { RevokeAt(s.rows, target, s.now, n1, n2, kid); }
        else { RevokeUnknown(s.rows, target, s.now, n1, n2); }
      }
  }

  lemma RotateKeys(t: Table, ty: KeyType, now: int, n1: NewKey, n2: NewKey, prune: bool)
    ensures var r := Rotate(t, ty, now, n1, n2, prune); r.Some? ==> r.value.Keys <= t.Keys + {n1.kid, n2.kid}
  {
    hide IndexesHold;
  }

  lemma RevokeKeys(t: Table, kid: string, now: int, n1: NewKey, n2: NewKey)
    ensures var r := Revoke(t, kid, now, n1, n2); r.Some? ==> r.value.Keys <= t.Keys + {n1.kid, n2.kid}
  {
    hide IndexesHold;
  }

  lemma DoKeepsGood(s: System, step: Step, prune: bool)
    requires Good(s)
    ensures Good(Do(s, step, prune)) && s.now <= Do(s, step, prune).now && s.used <= Do(s, step, prune).used
    ensures step.RotateStep? && FreshKeys(s.used, step.n1, step.n2) ==> Has(Do(s, step, prune).rows, step.ty, Active)
  {
    hide IndexesHold, Inv, Revoke, Rotate, Has;
    match step
    case Advance(_) =>
    case RotateStep(ty, n1, n2) =>
      if FreshKeys(s.used, n1, n2) {
        RotateNeverAborts(s.rows, ty, s.now, n1, n2, prune);
        RotateKeys(s.rows, ty, s.now, n1, n2, prune);
      }
    case RevokeStep(kid, n1, n2) =>
      if FreshKeys(s.used, n1, n2) {
        RevokeKeys(s.rows, kid, s.now, n1, n2);
        if kid in s.rows { RevokeNeverAborts(s.rows, kid, s.now, n1, n2); }
        else { RevokeUnknown(s.rows, kid, s.now, n1, n2); }
      }
  }

  lemma {:induction false} RunKeepsGood(s: System, steps: seq<Step>, prune: bool)
    requires Good(s)
    ensures Good(Run(s, steps, prune)) && s.now <= Run(s, steps, prune).now
    decreases |steps|
  {
    if steps != [] {
      RunKeepsGood(s, steps[..|steps| - 1], prune);
      DoKeepsGood(Run(s, steps[..|steps| - 1], prune), steps[|steps| - 1], prune);
    }
  }

  /**
   * From the empty table, whatever is rotated and revoked: a next key implies an active one and
   * there is at most one of each per type, so no rotation and no revocation of an existing key is
   * ever aborted by an index.
   */
  lemma {:induction false} IndexesNeverAbort(steps: seq<Step>, ty: KeyType, kid: string, n1: NewKey, n2: NewKey)
    ensures var s := Run(FRESH, steps, true);
            && Inv(s.rows)
            && (FreshKeys(s.used, n1, n2) ==>
                  && Rotate(s.rows, ty, s.now, n1, n2, true).Some?
                  && (kid in s.rows ==> Revoke(s.rows, kid, s.now, n1, n2).Some?))
  {
    RunKeepsGood(FRESH, steps, true);
    var s := Run(FRESH, steps, true);
    if FreshKeys(s.used, n1, n2) {
      RotateNeverAborts(s.rows, ty, s.now, n1, n2, true);
      if kid in s.rows { RevokeNeverAborts(s.rows, kid, s.now, n1, n2); }
    }
  }

  lemma DoKeepsActive(s: System, step: Step, ty: KeyType)
    requires Good(s) && Has(s.rows, ty, Active)
    ensures Has(Do(s, step, true).rows, ty, Active)
  {
    hide IndexesHold, Inv, Revoke, Rotate;
    var kid :| Is(s.rows, kid, ty, Active);
    match step
    case Advance(_) =>
    case RotateStep(k, n1, n2) =>
      if FreshKeys(s.used, n1, n2) {
        RotateNeverAborts(s.rows, k, s.now, n1, n2, true);
        if k != ty {
          RotateAt(s.rows, k, s.now, n1, n2, kid);
          assert Is(Do(s, step, true).rows, kid, ty, Active);
        }
      }
    case RevokeStep(target, n1, n2) =>
      if FreshKeys(s.used, n1, n2) {
        if target in s.rows { RevokeKeepsActive(s.rows, target, s.now, n1, n2, ty); }
        else { RevokeUnknown(s.rows, target, s.now, n1, n2); }
      }
  }

  lemma RevokeUnknown(t: Table, kid: string, now: int, n1: NewKey, n2: NewKey)
    requires kid !in t
    ensures Revoke(t, kid, now, n1, n2).None?
  {
  }

  /** The key is the one active key of its type. */
  ghost predicate SoleActive(t: Table, ty: KeyType, kid: string) {
    Is(t, kid, ty, Active) && forall other :: Is(t, other, ty, Active) ==> other == kid
  }

  lemma ActiveIsSole(t: Table, ty: KeyType)
    requires Inv(t) && Has(t, ty, Active)
    ensures exists kid :: SoleActive(t, ty, kid)
  {
    var kid :| Is(t, kid, ty, Active);
    SoleBy(t, ty, kid);
  }

  /** The only active key of a good table, named. */
  lemma SoleBy(t: Table, ty: KeyType, kid: string)
    requires IndexesHold(t) && Is(t, kid, ty, Active)
    ensures SoleActive(t, ty, kid)
  {
    forall other | Is(t, other, ty, Active)
      ensures other == kid
    {
      OneIs(t, other, ty, Active);
      OneIs(t, kid, ty, Active);
    }
  }

  /** Promotion makes the next key active and leaves a new next key, the other rows alone. */
  lemma PromoteMapHandsOver(t: Table, ty: KeyType, now: int, n1: NewKey, n2: NewKey)
    requires IndexesHold(t) && FreshKeys(t.Keys, n1, n2)
    ensures var t' := PromoteMap(t, ty, now, n1, n2);
            && (forall next :: Is(t, next, ty, Next) ==> Is(t', next, ty, Active))
            && (forall kid :: kid in t && !t[kid].state.Next? ==> kid in t' && t'[kid] == t[kid])
            && Has(t', ty, Next)
  {
    var next, t' := One(t, ty, Next), PromoteMap(t, ty, now, n1, n2);
    forall kid | Is(t, kid, ty, Next)
      ensures Is(t', kid, ty, Active)
    {
      OneIs(t, kid, ty, Next);
    }
    assert Is(t', if next.Some? then n1.kid else n2.kid, ty, Next);
  }

  /**
   * A rotation replaces the active key exactly when it has been active for 30 days; the replaced
   * key is retired as of now, the next key takes its place, and a next key exists afterwards.
   */
  lemma {:induction false} ReplacedExactlyWhenDue(t: Table, ty: KeyType, now: int, n1: NewKey, n2: NewKey, kid: string)
    requires Inv(t) && FreshKeys(t.Keys, n1, n2) && Is(t, kid, ty, Active)
    ensures var r := Rotate(t, ty, now, n1, n2, true);
            var since := if t[kid].activatedAt.Some? then t[kid].activatedAt.value else t[kid].createdAt;
            && r.Some? && Has(r.value, ty, Next)
            && (SoleActive(r.value, ty, kid) <==> now < since + 2_592_000_000)
            && (now >= since + 2_592_000_000 ==>
                  && kid in r.value && r.value[kid] == t[kid].(state := Retired, retiredAt := Some(now))
                  && forall next :: Is(t, next, ty, Next) ==> SoleActive(r.value, ty, next))
  {
    RotateNeverAborts(t, ty, now, n1, n2, true);
    RotateShape(t, ty, now, n1, n2);
    OneIs(t, kid, ty, Active);
    var t', r := RotateMap(t, ty, now, n1, n2), Rotate(t, ty, now, n1, n2, true).value;
    assert r == PruneRetired(t', ty, now);
    if RotationDue(t[kid], now) {
      var row := t[kid].(state := Retired, retiredAt := Some(now));
      DeactivateLeaves(t, kid, row);
      PromoteMapHandsOver(t[kid := row], ty, now, n1, n2);
      hide RotateMap, PromoteMap, Rotate, One;
      PruneSpares(t', ty, now, ty);
      assert kid in r && r[kid] == row;
      forall next | Is(t, next, ty, Next)
        ensures SoleActive(r, ty, next)
      {
        assert Is(t[kid := row], next, ty, Next);
        SoleBy(r, ty, next);
      }
    } else {
      assert Is(t', kid, ty, Active);
      assert Has(t, ty, Next) || Is(t', n1.kid, ty, Next);
      hide RotateMap, Rotate, One;
      PruneSpares(t', ty, now, ty);
      SoleBy(r, ty, kid);
    }
  }

  /** Pruning removes no active, next or just-retired row. */
  lemma PruneSpares(t: Table, ty: KeyType, now: int, other: KeyType)
    ensures var t' := PruneRetired(t, ty, now);
            && (forall kid :: kid in t && !t[kid].state.Retired? ==> kid in t' && t'[kid] == t[kid])
            && (forall kid :: kid in t && t[kid].retiredAt == Some(now) ==> kid in t' && t'[kid] == t[kid])
            && (Has(t, other, Next) ==> Has(t', other, Next))
  {
    if Has(t, other, Next) {
      var kid :| Is(t, kid, other, Next);
      assert Is(PruneRetired(t, ty, now), kid, other, Next);
    }
  }

  /** Revoking the active key hands over to the next key at once. */
  lemma {:induction false} RevokedActiveHandsOver(t: Table, kid: string, now: int, n1: NewKey, n2: NewKey)
    requires Inv(t) && FreshKeys(t.Keys, n1, n2) && kid in t && t[kid].state.Active?
    ensures var r := Revoke(t, kid, now, n1, n2);
            var ty := t[kid].keyType;
            && r.Some? && Has(r.value, ty, Active) && Has(r.value, ty, Next)
            && kid in r.value && r.value[kid] == t[kid].(state := Revoked, revokedAt := Some(now))
            && forall next :: Is(t, next, ty, Next) ==> SoleActive(r.value, ty, next)
  {
    var ty, row := t[kid].keyType, t[kid].(state := Revoked, revokedAt := Some(now));
    RevokeNeverAborts(t, kid, now, n1, n2);
    RevokeShape(t, kid, now, n1, n2);
    assert Is(t, kid, ty, Active);
    RevokeKeepsActive(t, kid, now, n1, n2, ty);
    DeactivateLeaves(t, kid, row);
    PromoteMapHandsOver(t[kid := row], ty, now, n1, n2);
    hide Revoke, PromoteMap, One;
    var r := Revoke(t, kid, now, n1, n2).value;
    forall next | Is(t, next, ty, Next)
      ensures SoleActive(r, ty, next)
    {
      assert Is(t[kid := row], next, ty, Next);
      SoleBy(r, ty, next);
    }
  }

  /** Once a type has been rotated, exactly one active key of it exists in every later state. */
  lemma {:induction false} OneActiveKeyForever(steps: seq<Step>, i: nat)
    requires i < |steps| && steps[i].RotateStep?
    requires FreshKeys(Run(FRESH, steps[..i], true).used, steps[i].n1, steps[i].n2)
    ensures exists kid :: SoleActive(Run(FRESH, steps, true).rows, steps[i].ty, kid)
    decreases |steps|
  {
    hide IndexesHold, Inv, Do;
    var before, last := steps[..|steps| - 1], steps[|steps| - 1];
    var s, ty := Run(FRESH, before, true), steps[i].ty;
    FreshIsGood();
    RunKeepsGood(FRESH, before, true);
    DoKeepsGood(s, last, true);
    if i == |steps| - 1 {
      assert steps[..i] == before;
    } else {
      assert before[..i] == steps[..i];
      OneActiveKeyForever(before, i);
      var was :| SoleActive(s.rows, ty, was);
      DoKeepsActive(s, last, ty);
    }
    ActiveIsSole(Run(FRESH, steps, true).rows, ty);
  }

  /** A revoked key stays revoked, and stays in the table. */
  lemma {:induction false} RevokedForever(s: System, steps: seq<Step>, kid: string)
    requires Good(s) && kid in s.rows && s.rows[kid].state.Revoked?
    ensures kid in Run(s, steps, true).rows && Run(s, steps, true).rows[kid].state.Revoked?
    decreases |steps|
  {
    hide IndexesHold, Inv, Do;
    if steps != [] {
      RevokedForever(s, steps[..|steps| - 1], kid);
      RunKeepsGood(s, steps[..|steps| - 1], true);
      DoAt(Run(s, steps[..|steps| - 1], true), steps[|steps| - 1], kid);
    }
  }

  // ---------------------------------------------------------------- acceptance

  /** The key lookup of `flexi.authorize_tenant`. */
  predicate Accepts(t: Table, kid: string, now: int) {
    && kid in t && t[kid].keyType.Hmac?
    && (t[kid].state.Active? || t[kid].state.Next?
        || (t[kid].state.Retired? && t[kid].retiredAt.Some? && t[kid].retiredAt.value > now - RETENTION))
  }

  /** In every reachable state a lookup accepts exactly the HMAC keys not revoked nor retired 48 hours ago. */
  lemma {:induction false} AcceptedKeysAre(steps: seq<Step>, kid: string, now: int)
    ensures var t := Run(FRESH, steps, true).rows;
            Accepts(t, kid, now) <==>
            && kid in t && t[kid].keyType == Hmac && t[kid].state != Revoked
            && (t[kid].state == Retired ==> t[kid].retiredAt.Some? && now - t[kid].retiredAt.value < 172_800_000)
  {
    hide Run;
  }

  /** After a rotation no key of the type retired over 48 hours ago is left. */
  lemma {:induction false} RotationPrunes(t: Table, ty: KeyType, now: int, n1: NewKey, n2: NewKey, kid: string)
    requires Rotate(t, ty, now, n1, n2, true).Some?
    ensures var r := Rotate(t, ty, now, n1, n2, true).value;
            kid in r && r[kid].keyType == ty && r[kid].state == Retired && r[kid].retiredAt.Some? ==>
              now - r[kid].retiredAt.value <= 172_800_000
  {
    hide RotateBody;
  }

  /** The key signs since m: active, or retired no earlier than m. */
  predicate ServedSince(t: Table, kid: string, secret: string, m: int) {
    && kid in t && t[kid].keyType.Hmac? && t[kid].secret == secret
    && (t[kid].state.Active? || (t[kid].state.Retired? && t[kid].retiredAt.Some? && t[kid].retiredAt.value >= m))
  }

  predicate RevokedIn(t: Table, kid: string) {
    kid in t && t[kid].state.Revoked?
  }

  lemma {:induction false} DoKeepsServing(s: System, step: Step, kid: string, secret: string, m: int)
    requires Good(s) && (ServedSince(s.rows, kid, secret, m) || RevokedIn(s.rows, kid)) && m <= s.now < m + RETENTION
    ensures var t := Do(s, step, true).rows; ServedSince(t, kid, secret, m) || RevokedIn(t, kid)
  {
    hide IndexesHold, Inv, Do;
    DoAt(s, step, kid);
  }

  /**
   * The key active when a token is minted is accepted for the next 48 hours, with the same
   * secret, across any rotations, prunings and revocations, unless it is itself revoked.
   */
  lemma {:induction false} SigningKeyStaysAccepted(s: System, steps: seq<Step>, kid: string)
    requires Good(s) && Is(s.rows, kid, Hmac, Active)
    requires Run(s, steps, true).now < s.now + RETENTION
    ensures var e := Run(s, steps, true);
            || RevokedIn(e.rows, kid)
            || (ServedSince(e.rows, kid, s.rows[kid].secret, s.now) && Accepts(e.rows, kid, e.now))
    decreases |steps|
  {
    hide IndexesHold, Inv, Do;
    if steps != [] {
      var before := steps[..|steps| - 1];
      RunKeepsGood(s, before, true);
      DoKeepsGood(Run(s, before, true), steps[|steps| - 1], true);
      SigningKeyStaysAccepted(s, before, kid);
      DoKeepsServing(Run(s, before, true), steps[|steps| - 1], kid, s.rows[kid].secret, s.now);
    }
  }

  // ---------------------------------------------------------------- pruning cannot be observed

  /** No lookup at now or later accepts the row. */
  predicate Dead(row: KeyRow, now: int) {
    row.state.Revoked? || (row.state.Retired? && row.retiredAt.Some? && row.retiredAt.value < now - RETENTION)
  }

  /** u is t plus dead rows. */
  ghost predicate Extends(t: Table, u: Table, now: int) {
    && (forall kid :: kid in t ==> kid in u && u[kid] == t[kid])
    && (forall kid :: kid in u && kid !in t ==> Dead(u[kid], now))
  }

  lemma SameOne(t: Table, u: Table, now: int, ty: KeyType, st: KeyState)
    requires Extends(t, u, now) && IndexesHold(u) && IndexesHold(t) && (st.Active? || st.Next?)
    ensures One(t, ty, st) == One(u, ty, st)
  {
    if Has(t, ty, st) {
      var kid :| Is(t, kid, ty, st);
      OneIs(t, kid, ty, st);
      OneIs(u, kid, ty, st);
    } else if Has(u, ty, st) {
      var kid :| Is(u, kid, ty, st);
      assert Is(t, kid, ty, st);
    }
  }

  lemma SetExtends(t: Table, u: Table, kid: string, row: KeyRow, now: int)
    requires Extends(t, u, now)
    ensures Extends(t[kid := row], u[kid := row], now)
  {
  }

  lemma PromoteExtends(t: Table, u: Table, ty: KeyType, now: int, n1: NewKey, n2: NewKey)
    requires Extends(t, u, now) && IndexesHold(t) && IndexesHold(u) && FreshKeys(u.Keys, n1, n2)
    ensures Extends(PromoteMap(t, ty, now, n1, n2), PromoteMap(u, ty, now, n1, n2), now)
  {
    SameOne(t, u, now, ty, Next);
    hide IndexesHold, Has, One;
    var next := One(t, ty, Next);
    if next.Some? {
      var row := t[next.value].(state := Active, activatedAt := Some(now));
      SetExtends(t, u, next.value, row, now);
      SetExtends(t[next.value := row], u[next.value := row], n1.kid, Row(n1, ty, Next), now);
    } else {
      SetExtends(t, u, n1.kid, Row(n1, ty, Active), now);
      SetExtends(t[n1.kid := Row(n1, ty, Active)], u[n1.kid := Row(n1, ty, Active)], n2.kid, Row(n2, ty, Next), now);
    }
  }

  lemma RotateExtends(t: Table, u: Table, ty: KeyType, now: int, n1: NewKey, n2: NewKey)
    requires Extends(t, u, now) && Inv(t) && Inv(u) && FreshKeys(u.Keys, n1, n2)
    ensures Extends(RotateMap(t, ty, now, n1, n2), RotateMap(u, ty, now, n1, n2), now)
  {
    SameOne(t, u, now, ty, Active);
    SameOne(t, u, now, ty, Next);
    var active := One(t, ty, Active);
    SetExtends(t, u, n1.kid, Row(n1, ty, Next), now);
    SetExtends(t, u, n1.kid, Row(n1, ty, Active), now);
    SetExtends(t[n1.kid := Row(n1, ty, Active)], u[n1.kid := Row(n1, ty, Active)], n2.kid, Row(n2, ty, Next), now);
    hide IndexesHold, Has, One, PromoteMap, Inv;
    if active.Some? {
      assert t[active.value] == u[active.value];
    }
    hide Extends;
    if active.Some? && RotationDue(t[active.value], now) {
      var row := t[active.value].(state := Retired, retiredAt := Some(now));
      SetExtends(t, u, active.value, row, now);
      DeactivateLeaves(t, active.value, row);
      DeactivateLeaves(u, active.value, row);
      PromoteExtends(t[active.value := row], u[active.value := row], ty, now, n1, n2);
    }
  }

  lemma RevokeExtends(t: Table, u: Table, kid: string, now: int, n1: NewKey, n2: NewKey)
    requires Extends(t, u, now) && Inv(t) && Inv(u) && FreshKeys(u.Keys, n1, n2) && kid in u
    ensures Extends(if kid in t then RevokeMap(t, kid, now, n1, n2) else t, RevokeMap(u, kid, now, n1, n2), now)
  {
    hide IndexesHold, Has, One, PromoteMap, Inv;
    if kid in t && t[kid].state.Active? {
      var row := t[kid].(state := Revoked, revokedAt := Some(now));
      DeactivateLeaves(t, kid, row);
      DeactivateLeaves(u, kid, row);
      PromoteExtends(t[kid := row], u[kid := row], t[kid].keyType, now, n1, n2);
    }
  }

  lemma PruneExtends(t: Table, u: Table, ty: KeyType, now: int)
    requires Extends(t, u, now)
    ensures Extends(PruneRetired(t, ty, now), u, now)
  {
  }

  /** The pruning and the keeping system side by side. */
  ghost predicate Alike(p: System, u: System) {
    Good(p) && Good(u) && p.now == u.now && p.used == u.used && Extends(p.rows, u.rows, p.now)
  }

  lemma {:induction false} DoKeepsAlike(p: System, u: System, step: Step)
    requires Alike(p, u)
    ensures Alike(Do(p, step, true), Do(u, step, false))
  {
    DoKeepsGood(p, step, true);
    DoKeepsGood(u, step, false);
    hide IndexesHold, Inv, Revoke, RotateBody, RotateMap, RevokeMap, PruneRetired;
    match step
    case Advance(_) =>
    case RotateStep(ty, n1, n2) =>
      if FreshKeys(p.used, n1, n2) {
        RotateShape(p.rows, ty, p.now, n1, n2);
        RotateShape(u.rows, ty, p.now, n1, n2);
        RotateExtends(p.rows, u.rows, ty, p.now, n1, n2);
        PruneExtends(RotateMap(p.rows, ty, p.now, n1, n2), RotateMap(u.rows, ty, p.now, n1, n2), ty, p.now);
      }
    case RevokeStep(kid, n1, n2) =>
      if FreshKeys(p.used, n1, n2) {
        if kid in p.rows { RevokeShape(p.rows, kid, p.now, n1, n2); }
        else { RevokeUnknown(p.rows, kid, p.now, n1, n2); }
        if kid in u.rows {
          RevokeShape(u.rows, kid, p.now, n1, n2);
          RevokeExtends(p.rows, u.rows, kid, p.now, n1, n2);
        } else {
          RevokeUnknown(u.rows, kid, p.now, n1, n2);
        }
      }
  }

  lemma AlikeAccept(p: System, u: System, kid: string, later: nat)
    requires Alike(p, u)
    ensures Accepts(p.rows, kid, p.now + later) <==> Accepts(u.rows, kid, u.now + later)
    ensures Accepts(p.rows, kid, p.now + later) ==> p.rows[kid] == u.rows[kid]
  {
    hide IndexesHold, Inv;
  }

  /**
   * Pruning is unobservable: after any run, and at any later time, a key lookup answers the same
   * as in a system that never prunes.
   */
  lemma {:induction false} PruningIsUnobservable(steps: seq<Step>, kid: string, later: nat)
    ensures var (p, u) := (Run(FRESH, steps, true), Run(FRESH, steps, false));
            && Alike(p, u)
            && (Accepts(p.rows, kid, p.now + later) <==> Accepts(u.rows, kid, u.now + later))
            && (Accepts(p.rows, kid, p.now + later) ==> p.rows[kid] == u.rows[kid])
    decreases |steps|
  {
    hide IndexesHold, Inv, Do;
    if steps != [] {
      var before := steps[..|steps| - 1];
      PruningIsUnobservable(before, kid, later);
      DoKeepsAlike(Run(FRESH, before, true), Run(FRESH, before, false), steps[|steps| - 1]);
    } else {
      FreshIsGood();
    }
    AlikeAccept(Run(FRESH, steps, true), Run(FRESH, steps, false), kid, later);
  }
}
