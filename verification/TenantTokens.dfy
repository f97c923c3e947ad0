/**
 * Tenant tokens: minted by kernel-core/src/auth/key_manager.rs, checked by the SQL function
 * `flexi.authorize_tenant`, parsed again in Rust by kernel-data/src/connection.rs around a
 * tenant-scoped transaction.  The keyed hash is a parameter, `mac`; its results are hexadecimal.
 */
module TenantTokens {
  import opened Prelude
  import opened Strings
  import opened KeyLifecycle

  const I64_LIMIT: int := 0x8000_0000_0000_0000

  type Mac = (string, string) -> string

  // ---------------------------------------------------------------- decimal numbers

  function Digit(d: int): char
    requires 0 <= d < 10
  {
    ("0123456789")[d]
  }

  function DigitsOf(n: nat): (r: string)
    ensures r != []
  {
    if n < 10 then [Digit(n)] else DigitsOf(n / 10) + [Digit(n % 10)]
  }

  function Format(n: int): string {
    if n < 0 then "-" + DigitsOf(-n) else DigitsOf(n)
  }

  function DigitValue(c: char): Option<nat> {
    if '0' <= c <= '9' then Some((c - '0') as nat) else None
  }

  function ParseDigits(s: string): Option<nat> {
    if s == [] then None
    else
      var last := DigitValue(s[|s| - 1]);
      if last.None? then None
      else if |s| == 1 then last
      else
        var front := ParseDigits(s[..|s| - 1]);
        if front.None? then None else Some(front.value * 10 + last.value)
  }

  /** A cast to bigint: an optional sign and digits, within range. */
  function ParseBigint(s: string): Option<int> {
    if s == [] then None
    else
      var negative := s[0] == '-';
      var digits := ParseDigits(if s[0] == '-' || s[0] == '+' then s[1..] else s);
      if digits.None? then None
      else
        var n: int := if negative then 0 - digits.value else digits.value;
        if -I64_LIMIT <= n < I64_LIMIT then Some(n) else None
  }

  lemma DigitValueOf(d: int)
    requires 0 <= d < 10
    ensures '0' <= Digit(d) <= '9' && DigitValue(Digit(d)) == Some(d)
  {
  }

  lemma {:induction false} DigitsRoundTrip(n: nat)
    ensures ParseDigits(DigitsOf(n)) == Some(n)
    ensures forall c :: c in DigitsOf(n) ==> '0' <= c <= '9'
  {
    DigitValueOf(n % 10);
    if n >= 10 {
      DigitsRoundTrip(n / 10);
      var s := DigitsOf(n);
      assert s[..|s| - 1] == DigitsOf(n / 10) && s[|s| - 1] == Digit(n % 10);
      hide Digit, DigitValue, DigitsOf;
    }
  }

  lemma ParseNegative(digits: string, n: nat)
    requires ParseDigits(digits) == Some(n) && n <= I64_LIMIT
    ensures ParseBigint("-" + digits) == Some(-(n as int))
  {
    hide ParseDigits;
    assert ("-" + digits)[1..] == digits;
  }

  lemma {:induction false} ParsePlain(digits: string, n: nat)
    requires digits != [] && (forall c :: c in digits ==> '0' <= c <= '9')
    requires ParseDigits(digits) == Some(n) && n < I64_LIMIT
    ensures ParseBigint(digits) == Some(n)
  {
    hide ParseDigits;
    assert digits[0] in digits;
  }

  lemma BigintRoundTrip(n: int)
    requires -I64_LIMIT <= n < I64_LIMIT
    ensures ParseBigint(Format(n)) == Some(n)
    ensures ':' !in Format(n) && Format(n) != []
  {
    hide DigitsOf, ParseDigits, ParseBigint;
    if n < 0 {
      DigitsRoundTrip(-n);
      ParseNegative(DigitsOf(-n), -n);
    } else {
      DigitsRoundTrip(n);
      ParsePlain(DigitsOf(n), n);
    }
  }

  // ---------------------------------------------------------------- minting and parsing

  /** The signed part: version, key id, timestamp, nonce and tenant. */
  function Message(kid: string, ts: string, nonce: string, tenant: string): string {
    Join(["v2", kid, ts, nonce, tenant], ':')
  }

  /** Whole seconds of the application clock. */
  function Timestamp(ms: int): int { ms / 1000 }

  function Mint(mac: Mac, secret: string, kid: string, ms: int, nonce: string, tenant: string): string {
    var ts := Format(Timestamp(ms));
    Join(["v2", kid, ts, nonce, tenant, mac(secret, Message(kid, ts, nonce, tenant))], ':')
  }

  /** Where the first separator stands, or the length. */
  function FirstColon(s: string): (i: nat)
    ensures i <= |s| && ':' !in s[..i] && (i < |s| ==> s[i] == ':')
  {
    if s == [] || s[0] == ':' then 0
    else
      var i := FirstColon(s[1..]);
      assert s[..i + 1] == [s[0]] + s[1..][..i];
      i + 1
  }

  /** The splitting iterator: the text it has not cut yet, or None once it is exhausted. */
  type Parts = Option<string>

  /** `next()`: cuts at the first separator. */
  function NextPart(it: Parts): (Option<string>, Parts) {
    if it.None? then (None, None)
    else
      var (s, i) := (it.value, FirstColon(it.value));
      if i == |s| then (Some(s), None) else (Some(s[..i]), Some(s[i + 1..]))
  }

  /** The Rust parser of a release build; a "dev-token:" prefix is refused. */
  function ParseTenant(token: string): Option<string> {
    if |token| >= 10 && token[..10] == "dev-token:" then None
    else
      var (ver, it1) := NextPart(Some(token));
      var (kid, it2) := NextPart(it1);
      var (ts, it3) := NextPart(it2);
      var (nonce, it4) := NextPart(it3);
      var (tenant, it5) := NextPart(it4);
      var (sig, it6) := NextPart(it5);
      if ver.None? || kid.None? || ts.None? || nonce.None? || tenant.None? || sig.None? then None
      else if || ver.value != "v2" || NextPart(it6).0.Some? || kid.value == [] || ts.value == []
              || nonce.value == [] || tenant.value == [] || sig.value == [] then None
      else tenant
  }

  /** What an iterator has still to yield. */
  function Remaining(it: Parts): seq<string> {
    if it.None? then [] else Split(it.value, ':')
  }

  /** One cut yields the first of the split parts and leaves the others. */
  lemma NextPartIsSplit(it: Parts)
    ensures var (part, rest) := NextPart(it);
            if it.None? then part.None? && Remaining(rest) == []
            else part.Some? && Remaining(it) == [part.value] + Remaining(rest)
  {
    if it.Some? {
      var (s, i) := (it.value, FirstColon(it.value));
      if i == |s| {
        assert s[..i] == s;
        SplitPart(s, ':');
      } else {
        assert s == s[..i] + [':'] + s[i + 1..];
        SplitAfterPart(s[..i], ':', s[i + 1..]);
      }
    }
  }

  /** Six cuts, and a seventh that fails, take exactly the tokens of six parts. */
  lemma ParserTakesSixParts(token: string)
    requires !(|token| >= 10 && token[..10] == "dev-token:")
    ensures var p := Split(token, ':');
            ParseTenant(token) ==
            if |p| == 6 && p[0] == "v2" && p[1] != [] && p[2] != [] && p[3] != [] && p[4] != [] && p[5] != []
            then Some(p[4]) else None
  {
    hide Split, NextPart;
    var it0: Parts := Some(token);
    var it1 := NextPart(it0).1;
    var it2 := NextPart(it1).1;
    var it3 := NextPart(it2).1;
    var it4 := NextPart(it3).1;
    var it5 := NextPart(it4).1;
    var it6 := NextPart(it5).1;
    NextPartIsSplit(it0);
    NextPartIsSplit(it1);
    NextPartIsSplit(it2);
    NextPartIsSplit(it3);
    NextPartIsSplit(it4);
    NextPartIsSplit(it5);
    NextPartIsSplit(it6);
  }

  ghost predicate Hexadecimal(mac: Mac) {
    forall k, m :: ':' !in mac(k, m) && mac(k, m) != []
  }

  predicate Field(s: string) {
    s != [] && ':' !in s
  }

  // ---------------------------------------------------------------- authorisation

  datatype AuthError =
    | MissingToken
    | InvalidFormat
    | UnsupportedVersion
    | BadTimestamp
    | Expired
    | UnknownKey
    | InvalidSignature
    | NonceUsed
    | SecretNotSet

  /** The transaction-local settings flexi.current_tenant and flexi.ctx_sig. */
  datatype Session = Session(tenant: string, ctxSig: string)

  /** nonces: the committed nonce table; committed: the nonce of each committed transaction. */
  datatype Db = Db(rows: Table, nonces: set<string>, secret: Option<string>, committed: seq<string>)

  /** The database clock in seconds, rounded as a cast to bigint rounds. */
  function NowSeconds(ms: int): int { (ms + 500) / 1000 }

  /** The nonce a well-formed token carries. */
  function NonceOf(token: string): string {
    var p := Split(token, ':');
    if |p| == 6 then p[3] else []
  }

  /** `flexi.authorize_tenant`: the settings it leaves; the nonce it inserts is NonceOf(token). */
  function Authorize(mac: Mac, db: Db, token: string, now: int): Result<Session, AuthError> {
    if token == [] then Err(MissingToken)
    else
      var p := Split(token, ':');
      if |p| != 6 then Err(InvalidFormat)
      else if p[0] != "v2" then Err(UnsupportedVersion)
      else if ParseBigint(p[2]).None? then Err(BadTimestamp)
      else if !(NowSeconds(now) - 30 <= ParseBigint(p[2]).value <= NowSeconds(now) + 30) then Err(Expired)
      else if !Accepts(db.rows, p[1], now) then Err(UnknownKey)
      else if p[5] != mac(db.rows[p[1]].secret, Message(p[1], p[2], p[3], p[4])) then Err(InvalidSignature)
      else if p[3] in db.nonces then Err(NonceUsed)
      else if db.secret.None? || db.secret.value == [] then Err(SecretNotSet)
      else Ok(Session(p[4], mac(db.secret.value, p[4])))
  }

  datatype ContextError = ContextSecretNotSet | ContextForged

  /** `flexi.authorized_tenant_id`, which row-level security reads; no tenant is SQL's NULL. */
  function AuthorizedTenant(mac: Mac, db: Db, s: Session): Result<Option<string>, ContextError> {
    if s.tenant == [] then Ok(None)
    else if db.secret.None? || db.secret.value == [] then Err(ContextSecretNotSet)
    else if s.ctxSig != mac(db.secret.value, s.tenant) then Err(ContextForged)
    else Ok(Some(s.tenant))
  }

  // ---------------------------------------------------------------- tenant transactions

  datatype CommitOutcome = Acknowledged | LostButApplied | LostAndUndone

  datatype TxResult =
    | AuthorizationFailed(error: AuthError)
    | TokenNotParsed
    | TenantMismatch
    | ClosureFailed(session: Session)
    | Committed(session: Session)
    | CommitUnknown(session: Session)

  /** The closure ran, under these settings. */
  predicate ClosureRan(r: TxResult) {
    r.ClosureFailed? || r.Committed? || r.CommitUnknown?
  }

  function Applied(db: Db, nonce: string): Db {
    db.(nonces := db.nonces + {nonce}, committed := db.committed + [nonce])
  }

  /** `with_tenant_tx`: authorise, compare tenants, run the closure, commit or roll back. */
  function TenantTx(mac: Mac, db: Db, tenant: string, token: string, now: int,
                    closureOk: bool, commit: CommitOutcome): (Db, TxResult) {
    var auth := Authorize(mac, db, token, now);
    if auth.Err? then (db, AuthorizationFailed(auth.error))
    else
      var parsed := ParseTenant(token);
      if parsed.None? then (db, TokenNotParsed)
      else if parsed.value != tenant then (db, TenantMismatch)
      else if !closureOk then (db, ClosureFailed(auth.value))
      else
        match commit
        case Acknowledged => (Applied(db, NonceOf(token)), Committed(auth.value))
        case LostButApplied => (Applied(db, NonceOf(token)), CommitUnknown(auth.value))
        case LostAndUndone => (db, CommitUnknown(auth.value))
  }

  /** The database object; a transaction works on `pending` and publishes it by committing. */
  class TenantDatabase {
    var rows: Table
    var nonces: set<string>
    var secret: Option<string>
    ghost var committed: seq<string>

    ghost function View(): Db
      reads this
    {
      Db(rows, nonces, secret, committed)
    }

    method WithTenantTx(mac: Mac, tenant: string, token: string, now: int, closureOk: bool, commit: CommitOutcome)
      returns (r: TxResult)
      modifies this
      ensures (View(), r) == TenantTx(mac, old(View()), tenant, token, now, closureOk, commit)
    {
      hide ParseTenant;
      var auth := Authorize(mac, Db(rows, nonces, secret, []), token, now);
      if auth.Err? { return AuthorizationFailed(auth.error); }
      var pending := nonces + {NonceOf(token)};
      var parsed := ParseTenant(token);
      if parsed.None? { return TokenNotParsed; }
      if parsed.value != tenant { return TenantMismatch; }
      if !closureOk { return ClosureFailed(auth.value); }
      if commit != LostAndUndone {
        nonces := pending;
        committed := committed + [NonceOf(token)];
      }
      return if commit == Acknowledged then Committed(auth.value) else CommitUnknown(auth.value);
    }
  }

  // ---------------------------------------------------------------- what is accepted

  /** The digits of a non-negative number, most significant first, leading zeros allowed. */
  ghost predicate Denotes(digits: string, n: nat) {
    if |digits| == 0 then n == 0
    else
      var last := digits[|digits| - 1];
      && '0' <= last <= '9' && n % 10 == (last - '0') as int
      && Denotes(digits[..|digits| - 1], n / 10)
  }

  lemma {:induction false} DigitsDenote(digits: string, n: nat)
    requires digits != []
    ensures ParseDigits(digits) == Some(n) <==> Denotes(digits, n)
  {
    var front := digits[..|digits| - 1];
    if |digits| == 1 {
      assert front == [];
      assert Denotes(front, n / 10) <==> n / 10 == 0;
    } else {
      DigitsDenote(front, n / 10);
      if ParseDigits(front).Some? {
        var m := ParseDigits(front).value;
        if ParseDigits(digits) == Some(n) { assert n / 10 == m && n % 10 == n - 10 * m; }
      }
    }
  }

  /** The text is an optional sign and one or more digits, and stands for n, within range. */
  ghost predicate IsBigint(s: string, n: int) {
    && -I64_LIMIT <= n < I64_LIMIT
    && ((s != [] && s[0] != '-' && s[0] != '+' && n >= 0 && Denotes(s, n))
        || (|s| > 1 && s[0] == '+' && n >= 0 && Denotes(s[1..], n))
        || (|s| > 1 && s[0] == '-' && n <= 0 && Denotes(s[1..], -n)))
  }

  lemma {:induction false} BigintExactly(s: string, n: int)
    ensures ParseBigint(s) == Some(n) <==> IsBigint(s, n)
  {
    if s != [] {
      var signed := s[0] == '-' || s[0] == '+';
      var digits := if signed then s[1..] else s;
      var m: nat := if n >= 0 then n else -n;
      if digits != [] {
        DigitsDenote(digits, m);
        hide ParseDigits, Denotes;
      }
    }
  }

  /**
   * A genuine token: m:mac(secret, m), where m is v2:kid:ts:nonce:tenant, the key is an HMAC key the
   * lookup accepts with that secret, ts is within 30 seconds of the database clock and the nonce is unused.
   */
  ghost predicate Genuine(mac: Mac, db: Db, token: string, now: int, kid: string, ts: string, nonce: string,
                          tenant: string)
  {
    var m := "v2" + ":" + kid + ":" + ts + ":" + nonce + ":" + tenant;
    && ':' !in kid && ':' !in ts && ':' !in nonce && ':' !in tenant
    && Accepts(db.rows, kid, now)
    && token == m + ":" + mac(db.rows[kid].secret, m)
    && (exists n :: IsBigint(ts, n) && -30 <= n - NowSeconds(now) <= 30)
    && nonce !in db.nonces
  }

  lemma MessageIs(kid: string, ts: string, nonce: string, tenant: string)
    ensures Message(kid, ts, nonce, tenant) == "v2" + ":" + kid + ":" + ts + ":" + nonce + ":" + tenant
  {
    var p := ["v2", kid, ts, nonce, tenant];
    assert p[1..] == [kid, ts, nonce, tenant] && p[1..][1..] == [ts, nonce, tenant];
    assert p[1..][1..][1..] == [nonce, tenant] && p[1..][1..][1..][1..] == [tenant];
    assert Join(p[1..][1..][1..], ':') == nonce + ":" + tenant;
    assert Join(p[1..][1..], ':') == ts + ":" + Join(p[1..][1..][1..], ':');
    assert Join(p[1..], ':') == kid + ":" + Join(p[1..][1..], ':');
  }

  /** A token of six parts is its first five joined, a separator and the last. */
  lemma SixParts(p: seq<string>)
    requires |p| == 6
    ensures Join(p, ':') == Join(p[..5], ':') + ":" + p[5]
  {
    JoinConcat(p[..5], p[5..], ':');
    assert p == p[..5] + p[5..] && p[5..] == [p[5]];
  }

  /** Whatever is presented: an accepted token is genuine, and its own fields are what is set. */
  lemma {:induction false} AcceptedTokenIsGenuine(mac: Mac, db: Db, token: string, now: int)
    requires Authorize(mac, db, token, now).Ok?
    ensures var p := Split(token, ':');
            && |p| == 6 && Genuine(mac, db, token, now, p[1], p[2], p[3], p[4])
            && db.secret.Some? && db.secret.value != []
            && Authorize(mac, db, token, now).value == Session(p[4], mac(db.secret.value, p[4]))
  {
    var p := Split(token, ':');
    JoinSplit(token, ':');
    SixParts(p);
    assert p[..5] == ["v2", p[1], p[2], p[3], p[4]];
    MessageIs(p[1], p[2], p[3], p[4]);
    BigintExactly(p[2], ParseBigint(p[2]).value);
    hide Join, Split, ParseBigint, IsBigint;
  }

  lemma {:induction false} GenuineTokenIsAccepted(mac: Mac, db: Db, token: string, now: int, kid: string, ts: string,
                                                  nonce: string, tenant: string)
    requires Hexadecimal(mac) && Genuine(mac, db, token, now, kid, ts, nonce, tenant)
    requires db.secret.Some? && db.secret.value != []
    ensures Authorize(mac, db, token, now) == Ok(Session(tenant, mac(db.secret.value, tenant)))
  {
    var m := Message(kid, ts, nonce, tenant);
    var p := ["v2", kid, ts, nonce, tenant, mac(db.rows[kid].secret, m)];
    MessageIs(kid, ts, nonce, tenant);
    SixParts(p);
    assert p[..5] == ["v2", kid, ts, nonce, tenant];
    assert ':' !in "v2";
    SplitJoin(p, ':');
    var n :| IsBigint(ts, n) && -30 <= n - NowSeconds(now) <= 30;
    BigintExactly(ts, n);
    assert token == Join(p, ':') && token != [];
    hide Join, Split, ParseBigint, IsBigint;
  }

  /** Acceptance, exactly, for every token: it is genuine and the internal secret is set. */
  lemma {:induction false} AcceptedExactlyWhenGenuine(mac: Mac, db: Db, token: string, now: int)
    requires Hexadecimal(mac)
    ensures Authorize(mac, db, token, now).Ok? <==>
            && db.secret.Some? && db.secret.value != []
            && exists kid, ts, nonce, tenant :: Genuine(mac, db, token, now, kid, ts, nonce, tenant)
  {
    hide Genuine, Authorize;
    if Authorize(mac, db, token, now).Ok? { AcceptedTokenIsGenuine(mac, db, token, now); }
    if kid, ts, nonce, tenant :| db.secret.Some? && db.secret.value != []
                                 && Genuine(mac, db, token, now, kid, ts, nonce, tenant) {
      GenuineTokenIsAccepted(mac, db, token, now, kid, ts, nonce, tenant);
    }
  }

  /** No second signature: accepted tokens that agree up to the signature are the same token. */
  lemma {:induction false} SignatureIsUnique(mac: Mac, db: Db, a: string, b: string, now: int, later: int)
    requires Authorize(mac, db, a, now).Ok? && Authorize(mac, db, b, later).Ok?
    requires |Split(a, ':')| == |Split(b, ':')| == 6 && Split(a, ':')[..5] == Split(b, ':')[..5]
    ensures a == b
  {
    var (p, q) := (Split(a, ':'), Split(b, ':'));
    AcceptedTokenIsGenuine(mac, db, a, now);
    AcceptedTokenIsGenuine(mac, db, b, later);
    assert p[..5][1] == q[..5][1] && p[..5][2] == q[..5][2] && p[..5][3] == q[..5][3] && p[..5][4] == q[..5][4];
    hide Authorize, Split;
  }

  /** The 30 seconds on the clock, in milliseconds between minting and presenting. */
  lemma WindowInMilliseconds(minted: int, now: int)
    ensures -30500 <= now - minted <= 29500 ==> -30 <= Timestamp(minted) - NowSeconds(now) <= 30
    ensures now - minted <= -31500 || now - minted >= 30500 ==>
              !(-30 <= Timestamp(minted) - NowSeconds(now) <= 30)
  {
  }

  // ---------------------------------------------------------------- results

  lemma DevTokensAreNotV2(token: string)
    requires |token| >= 10 && token[..10] == "dev-token:"
    ensures Split(token, ':')[0] == "dev-token"
  {
    assert token == "dev-token" + [':'] + token[10..];
    SplitAfterPart("dev-token", ':', token[10..]);
  }

  /**
   * On every token the database accepts, the two parsers name the same tenant, and the Rust one
   * refuses exactly the tokens with an empty field.
   */
  lemma {:induction false} ParsersAgree(mac: Mac, db: Db, token: string, now: int)
    requires Authorize(mac, db, token, now).Ok?
    ensures var p := Split(token, ':');
            && |p| == 6 && Authorize(mac, db, token, now).value.tenant == p[4]
            && (ParseTenant(token).Some? <==> p[1] != [] && p[2] != [] && p[3] != [] && p[4] != [] && p[5] != [])
            && (ParseTenant(token).Some? ==> ParseTenant(token).value == p[4])
  {
    if |token| >= 10 && token[..10] == "dev-token:" {
      DevTokensAreNotV2(token);
      assert false;
    }
    ParserTakesSixParts(token);
    hide ParseTenant;
  }

  /**
   * Whenever the closure runs, the tenant set inside the database, the tenant row-level security
   * reads, the tenant parsed in Rust and the caller's tenant are one and the same.
   */
  lemma {:induction false} ClosureSeesOneTenant(mac: Mac, db: Db, tenant: string, token: string, now: int,
                             closureOk: bool, commit: CommitOutcome)
    ensures var r := TenantTx(mac, db, tenant, token, now, closureOk, commit).1;
            ClosureRan(r) ==>
              && r.session.tenant == tenant && ParseTenant(token) == Some(tenant)
              && AuthorizedTenant(mac, db, r.session) == Ok(Some(tenant))
  {
    hide ParseTenant;
    if Authorize(mac, db, token, now).Ok? { ParsersAgree(mac, db, token, now); }
  }

  /**
   * When the closure runs and when its work stays, exactly: the token is authorised, names the
   * caller's tenant and has no empty field; and then the closure succeeds and the commit takes effect.
   * Nothing else changes the database.
   */
  lemma {:induction false} TxTakesEffectExactlyWhen(mac: Mac, db: Db, tenant: string, token: string, now: int,
                                                    closureOk: bool, commit: CommitOutcome)
    ensures var (e, r) := TenantTx(mac, db, tenant, token, now, closureOk, commit);
            var p := Split(token, ':');
            && (ClosureRan(r) <==> Authorize(mac, db, token, now).Ok? && p[4] == tenant
                                   && p[1] != [] && p[2] != [] && p[3] != [] && p[4] != [] && p[5] != [])
            && (r.Committed? <==> ClosureRan(r) && closureOk && commit == Acknowledged)
            && (if ClosureRan(r) && closureOk && commit != LostAndUndone
                then e == db.(nonces := db.nonces + {p[3]}, committed := db.committed + [p[3]]) else e == db)
  {
    hide ParseTenant;
    if Authorize(mac, db, token, now).Ok? { ParsersAgree(mac, db, token, now); }
  }

  /** Row-level security reads a tenant exactly from settings that carry that tenant's own signature. */
  lemma TenantIsReadExactlyWhenSigned(mac: Mac, db: Db, s: Session, tenant: string)
    ensures AuthorizedTenant(mac, db, s) == Ok(Some(tenant)) <==>
            && tenant != [] && s.tenant == tenant && db.secret.Some? && db.secret.value != []
            && s.ctxSig == mac(db.secret.value, tenant)
    ensures AuthorizedTenant(mac, db, s) == Ok(None) <==> s.tenant == []
  {
  }

  /** Why a token is refused: it is absent, or it is genuine but for a nonce already used. */
  lemma {:induction false} RefusalsAre(mac: Mac, db: Db, token: string, now: int)
    requires Hexadecimal(mac)
    ensures Authorize(mac, db, token, now) == Err(MissingToken) <==> token == []
    ensures Authorize(mac, db, token, now) == Err(NonceUsed) ==> NonceOf(token) in db.nonces
    ensures NonceOf(token) in db.nonces
            && Authorize(mac, db.(nonces := db.nonces - {NonceOf(token)}), token, now).Ok? ==>
              Authorize(mac, db, token, now) == Err(NonceUsed)
  {
  }

  /** A minted token splits back into the fields it was made from. */
  lemma MintRoundTrip(mac: Mac, secret: string, kid: string, ms: int, nonce: string, tenant: string)
    requires Hexadecimal(mac) && Field(kid) && Field(nonce) && Field(tenant)
    requires -I64_LIMIT <= Timestamp(ms) < I64_LIMIT
    ensures var token := Mint(mac, secret, kid, ms, nonce, tenant);
            var ts := Format(Timestamp(ms));
            && token != []
            && Split(token, ':') == ["v2", kid, ts, nonce, tenant, mac(secret, Message(kid, ts, nonce, tenant))]
            && ParseBigint(ts) == Some(Timestamp(ms))
            && ParseTenant(token) == Some(tenant)
  {
    var ts := Format(Timestamp(ms));
    BigintRoundTrip(Timestamp(ms));
    var parts := ["v2", kid, ts, nonce, tenant, mac(secret, Message(kid, ts, nonce, tenant))];
    assert ':' !in "v2";
    SplitJoin(parts, ':');
    var token := Mint(mac, secret, kid, ms, nonce, tenant);
    assert token == Join(parts, ':');
    assert token == [] ==> Split(token, ':') == [[]];
    assert |Split(token, ':')| == 6 && Split(token, ':')[0] == "v2";
    if |token| >= 10 && token[..10] == "dev-token:" {
      DevTokensAreNotV2(token);
      assert false;
    }
    ParserTakesSixParts(token);
    hide ParseTenant;
  }

  /**
   * A token minted under the active key is accepted, at any later moment and across any
   * rotations, prunings and revocations, exactly when its timestamp is within 30 seconds, its key
   * has not been revoked, its nonce has not been consumed and the internal secret is set.
   */
  lemma MintedTokenAcceptedExactly(mac: Mac, s: System, steps: seq<Step>, db: Db, kid: string,
                                   nonce: string, tenant: string)
    requires Hexadecimal(mac) && Field(kid) && Field(nonce) && Field(tenant)
    requires Good(s) && Is(s.rows, kid, Hmac, Active) && -I64_LIMIT <= Timestamp(s.now) < I64_LIMIT
    requires db.rows == Run(s, steps, true).rows
    ensures var now := Run(s, steps, true).now;
            var r := Authorize(mac, db, Mint(mac, s.rows[kid].secret, kid, s.now, nonce, tenant), now);
            && (r.Ok? <==>
                  && NowSeconds(now) - 30 <= Timestamp(s.now) <= NowSeconds(now) + 30
                  && !RevokedIn(db.rows, kid) && nonce !in db.nonces
                  && db.secret.Some? && db.secret.value != [])
            && (r.Ok? ==> r.value.tenant == tenant)
  {
    hide Run, Good;
    MintRoundTrip(mac, s.rows[kid].secret, kid, s.now, nonce, tenant);
    var now := Run(s, steps, true).now;
    if NowSeconds(now) - 30 <= Timestamp(s.now) <= NowSeconds(now) + 30 {
      assert now < s.now + RETENTION;
      SigningKeyStaysAccepted(s, steps, kid);
    }
  }

  // ---------------------------------------------------------------- nonces over runs

  /** A transaction, with the key table and the internal secret it finds. */
  datatype Request = Request(tenant: string, token: string, now: int, closureOk: bool, commit: CommitOutcome,
                             rows: Table, secret: Option<string>)

  ghost function RunRequests(mac: Mac, db: Db, requests: seq<Request>): Db {
    if requests == [] then db
    else
      var r := requests[|requests| - 1];
      var before := RunRequests(mac, db, requests[..|requests| - 1]).(rows := r.rows, secret := r.secret);
      TenantTx(mac, before, r.tenant, r.token, r.now, r.closureOk, r.commit).0
  }

  predicate NoRepeats(s: seq<string>) {
    forall i, j :: 0 <= i < j < |s| ==> s[i] != s[j]
  }

  /** No nonce was committed twice, and every committed one is consumed. */
  ghost predicate NoncesOnce(db: Db) {
    NoRepeats(db.committed) && forall n :: n in db.committed ==> n in db.nonces
  }

  /** A token whose nonce is consumed is not authorised. */
  lemma NonceIsNew(mac: Mac, db: Db, token: string, now: int)
    requires Authorize(mac, db, token, now).Ok?
    ensures NonceOf(token) !in db.nonces
  {
  }

  /** A transaction commits at most its own nonce, which was not consumed before. */
  lemma CommitsNewNonce(mac: Mac, db: Db, tenant: string, token: string, now: int,
                        closureOk: bool, commit: CommitOutcome)
    requires NoncesOnce(db)
    ensures var e := TenantTx(mac, db, tenant, token, now, closureOk, commit).0;
            NoncesOnce(e) && db.nonces <= e.nonces && db.committed <= e.committed
  {
    hide ParseTenant, Authorize;
    if Authorize(mac, db, token, now).Ok? { NonceIsNew(mac, db, token, now); }
  }

  /**
   * In every run of transactions, whatever tokens are presented, however commits turn out and
   * however keys and secret change from one transaction to the next: no two committed transactions
   * used the same nonce, and a nonce once consumed stays consumed.
   */
  lemma {:induction false} OneCommitPerNonce(mac: Mac, db: Db, requests: seq<Request>)
    requires NoncesOnce(db)
    ensures var e := RunRequests(mac, db, requests);
            NoncesOnce(e) && db.nonces <= e.nonces && db.committed <= e.committed
  {
    if requests != [] {
      hide TenantTx;
      OneCommitPerNonce(mac, db, requests[..|requests| - 1]);
      var r := requests[|requests| - 1];
      var before := RunRequests(mac, db, requests[..|requests| - 1]).(rows := r.rows, secret := r.secret);
      CommitsNewNonce(mac, before, r.tenant, r.token, r.now, r.closureOk, r.commit);
    }
  }
}
