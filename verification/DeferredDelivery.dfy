/**
 * The caller side of the out-of-order protocol (kernel-data/src/event/types.rs, `poll`):
 * deliveries that are not next are buffered, and the buffer is offered again after every
 * advance, until a whole pass over it advances nothing.
 */
module DeferredDelivery {
  import opened Prelude
  import opened EventTypes
  import opened GapTracking

  datatype Caller = Caller(tracker: Tracker, buffer: seq<Delivery>, applied: seq<Delivery>)

  datatype Arrival = Arrival(d: Delivery, now: int)

  function Offer(c: Caller, d: Delivery, now: int): (r: Caller)
    ensures |r.buffer| + |r.applied| <= |c.buffer| + |c.applied| + 1
    ensures |c.applied| <= |r.applied|
  {
    var (t, resolution) := Observe(c.tracker, d, now);
    match resolution
    case Ok(Apply) => Caller(t, c.buffer, c.applied + [d])
    case Ok(GapFound(_)) => Caller(t, c.buffer + [d], c.applied)
    case Ok(Deferred(_)) => Caller(t, c.buffer + [d], c.applied)
    case _ => c.(tracker := t)
  }

  /** One pass: every delivery of todo is offered once, in order. */
  function Refeed(c: Caller, todo: seq<Delivery>, now: int): (r: Caller)
    ensures |r.buffer| + |r.applied| <= |c.buffer| + |c.applied| + |todo|
    ensures |c.applied| <= |r.applied|
    decreases |todo|
  {
    if todo == [] then c else Refeed(Offer(c, todo[0], now), todo[1..], now)
  }

  /** Passes over the buffer until one advances nothing; each productive pass shrinks it. */
  function Settle(c: Caller, now: int): Caller
    decreases |c.buffer|
  {
    var r := Refeed(c.(buffer := []), c.buffer, now);
    if |r.applied| > |c.applied| then Settle(r, now) else r
  }

  function Receive(c: Caller, a: Arrival): Caller {
    var r := Offer(c, a.d, a.now);
    if |r.applied| > |c.applied| then Settle(r, a.now) else r
  }

  function ReceiveAll(c: Caller, arrivals: seq<Arrival>): Caller {
    if arrivals == [] then c
    else Receive(ReceiveAll(c, arrivals[..|arrivals| - 1]), arrivals[|arrivals| - 1])
  }

  function Start(key: ScopedKey, start: U64): Caller {
    Caller(New(key, start), [], [])
  }

  // ---------------------------------------------------------------- what the outcome must be

  /** The delivery belongs to the key and carries sequence n. */
  predicate Carries(d: Delivery, key: ScopedKey, n: int) {
    d.event.Key() == key && d.event.Seq().Some? && d.event.Seq().value == n
  }

  ghost predicate Present(arrivals: seq<Arrival>, key: ScopedKey, n: int) {
    exists i :: 0 <= i < |arrivals| && Carries(arrivals[i].d, key, n)
  }

  /** n ends the longest contiguous run from start; no tracker can move past the last U64. */
  ghost predicate EndsRun(arrivals: seq<Arrival>, key: ScopedKey, start: int, n: int) {
    && start <= n
    && (forall m :: start <= m < n ==> Present(arrivals, key, m))
    && (n == U64_MAX || !Present(arrivals, key, n))
  }

  // ---------------------------------------------------------------- proof

  ghost predicate Waiting(ds: seq<Delivery>, key: ScopedKey, n: int) {
    exists d :: d in ds && Carries(d, key, n)
  }

  ghost predicate Buffers(ds: seq<Delivery>, key: ScopedKey, seen: set<int>) {
    forall d :: d in ds ==> d.event.Key() == key && d.event.Seq().Some? && d.event.Seq().value in seen
  }

  ghost predicate AppliedInOrder(ds: seq<Delivery>, key: ScopedKey, start: int) {
    forall i :: 0 <= i < |ds| ==> Carries(ds[i], key, start + i)
  }

  /** Everything seen is applied, buffered, still to be offered, or the unreachable last U64. */
  ghost predicate Covers(c: Caller, todo: seq<Delivery>, seen: set<int>) {
    forall n :: n in seen ==>
      n < c.tracker.expected || n == U64_MAX || Waiting(c.buffer, c.tracker.key, n) || Waiting(todo, c.tracker.key, n)
  }

  ghost predicate Inv(c: Caller, todo: seq<Delivery>, key: ScopedKey, start: int, seen: set<int>) {
    && Consistent(c.tracker) && c.tracker.key == key && !c.tracker.state.RebuildRequired?
    && c.tracker.expected == start + |c.applied|
    && AppliedInOrder(c.applied, key, start)
    && Buffers(c.buffer, key, seen) && Buffers(todo, key, seen)
    && Covers(c, todo, seen)
    && (forall m :: start <= m < c.tracker.expected ==> m in seen)
  }

  /** Nothing in the buffer is next. */
  ghost predicate Settled(c: Caller) {
    c.tracker.expected == U64_MAX || !Waiting(c.buffer, c.tracker.key, c.tracker.expected)
  }

  lemma OfferKeeps(c: Caller, d: Delivery, todo: seq<Delivery>, now: int,
                   key: ScopedKey, start: int, seen: set<int>)
    requires Inv(c, [d] + todo, key, start, seen)
    ensures Inv(Offer(c, d, now), todo, key, start, seen)
  {
    assert d in [d] + todo;
    var r := Offer(c, d, now);
    forall e | e in todo
      ensures e in [d] + todo
    {
    }
    var n := d.event.Seq().value;
    forall m | m in seen && !(m < r.tracker.expected) && m != U64_MAX
      ensures Waiting(r.buffer, key, m) || Waiting(todo, key, m)
    {
      if Waiting(c.buffer, key, m) {
        var e :| e in c.buffer && Carries(e, key, m);
        assert e in r.buffer;
      } else {
        var e :| e in [d] + todo && Carries(e, key, m);
        if e !in todo {
          assert e == d && m == n;
          assert d in r.buffer;
        }
      }
    }
  }

  lemma {:induction false} RefeedKeeps(c: Caller, todo: seq<Delivery>, now: int,
                                       key: ScopedKey, start: int, seen: set<int>)
    requires Inv(c, todo, key, start, seen)
    ensures Inv(Refeed(c, todo, now), [], key, start, seen)
    ensures |Refeed(c, todo, now).applied| == |c.applied| && Settled(c) ==> Settled(Refeed(c, todo, now))
    decreases |todo|
  {
    if todo != [] {
      assert todo == [todo[0]] + todo[1..];
      OfferKeeps(c, todo[0], todo[1..], now, key, start, seen);
      var r := Offer(c, todo[0], now);
      RefeedKeeps(r, todo[1..], now, key, start, seen);
      if |Refeed(c, todo, now).applied| == |c.applied| && Settled(c) {
        assert todo[0] in todo;
        assert r.tracker.expected == c.tracker.expected;
        assert forall d :: d in r.buffer ==> d in c.buffer || d == todo[0];
        assert Settled(r);
      }
    }
  }

  lemma {:induction false} SettleKeeps(c: Caller, now: int, key: ScopedKey, start: int, seen: set<int>)
    requires Inv(c, [], key, start, seen)
    ensures Inv(Settle(c, now), [], key, start, seen) && Settled(Settle(c, now))
    decreases |c.buffer|
  {
    var emptied := c.(buffer := []);
    assert Inv(emptied, c.buffer, key, start, seen);
    RefeedKeeps(emptied, c.buffer, now, key, start, seen);
    var r := Refeed(emptied, c.buffer, now);
    if |r.applied| > |c.applied| {
      SettleKeeps(r, now, key, start, seen);
    }
  }

  ghost function Seen(arrivals: seq<Arrival>, key: ScopedKey): set<int> {
    set i | 0 <= i < |arrivals| && arrivals[i].d.event.Key() == key && arrivals[i].d.event.Seq().Some?
      :: arrivals[i].d.event.Seq().value
  }

  lemma ReceiveKeeps(c: Caller, a: Arrival, key: ScopedKey, start: int, seen: set<int>)
    requires Inv(c, [], key, start, seen) && Settled(c)
    requires a.d.event.Key() == key && a.d.event.Seq().Some?
    ensures Inv(Receive(c, a), [], key, start, seen + {a.d.event.Seq().value}) && Settled(Receive(c, a))
  {
    var more := seen + {a.d.event.Seq().value};
    assert Carries(a.d, key, a.d.event.Seq().value) && a.d in [a.d];
    assert Inv(c, [a.d], key, start, more);
    assert [a.d] + [] == [a.d];
    OfferKeeps(c, a.d, [], a.now, key, start, more);
    var r := Offer(c, a.d, a.now);
    if |r.applied| > |c.applied| {
      SettleKeeps(r, a.now, key, start, more);
    } else {
      assert forall d :: d in r.buffer ==> d in c.buffer || d == a.d;
    }
  }

  lemma SeenStep(arrivals: seq<Arrival>, key: ScopedKey)
    requires arrivals != []
    ensures var (before, e) := (arrivals[..|arrivals| - 1], arrivals[|arrivals| - 1].d.event);
            Seen(arrivals, key) ==
            Seen(before, key) + if e.Key() == key && e.Seq().Some? then {e.Seq().value} else {}
  {
    var (before, e) := (arrivals[..|arrivals| - 1], arrivals[|arrivals| - 1].d.event);
    forall n | n in Seen(before, key)
      ensures n in Seen(arrivals, key)
    {
      var i :| 0 <= i < |before| && before[i].d.event.Key() == key && before[i].d.event.Seq().Some?
               && before[i].d.event.Seq().value == n;
      assert arrivals[i] == before[i];
    }
  }

  lemma {:induction false} ReceiveAllKeeps(key: ScopedKey, start: U64, arrivals: seq<Arrival>)
    ensures var c := ReceiveAll(Start(key, start), arrivals);
            Inv(c, [], key, start, Seen(arrivals, key)) && Settled(c)
  {
    if arrivals != [] {
      var before, last := arrivals[..|arrivals| - 1], arrivals[|arrivals| - 1];
      ReceiveAllKeeps(key, start, before);
      SeenStep(arrivals, key);
      var c := ReceiveAll(Start(key, start), before);
      if last.d.event.Key() == key && last.d.event.Seq().Some? {
        ReceiveKeeps(c, last, key, start, Seen(before, key));
      } else {
        assert Seen(before, key) + {} == Seen(before, key);
        assert Offer(c, last.d, last.now) == c;
      }
    }
  }

  lemma SeenIsPresent(arrivals: seq<Arrival>, key: ScopedKey, n: int)
    ensures n in Seen(arrivals, key) <==> Present(arrivals, key, n)
  {
    if n in Seen(arrivals, key) {
      var i :| 0 <= i < |arrivals| && arrivals[i].d.event.Key() == key && arrivals[i].d.event.Seq().Some?
               && arrivals[i].d.event.Seq().value == n;
      assert Carries(arrivals[i].d, key, n);
    }
  }

  /**
   * Confluence.  For every arrival order, with duplicates, foreign keys and missing numbers, the
   * caller ends having applied exactly the longest contiguous run from start that arrived, one
   * delivery per sequence, in order; whatever is left in the buffer is not next.
   */
  lemma {:induction false} AppliesLongestRun(key: ScopedKey, start: U64, arrivals: seq<Arrival>)
    ensures var c := ReceiveAll(Start(key, start), arrivals);
            && EndsRun(arrivals, key, start, c.tracker.expected)
            && |c.applied| == c.tracker.expected - start
            && AppliedInOrder(c.applied, key, start)
            && Settled(c)
  {
    ReceiveAllKeeps(key, start, arrivals);
    forall n
      ensures n in Seen(arrivals, key) <==> Present(arrivals, key, n)
    {
      SeenIsPresent(arrivals, key, n);
    }
  }

  lemma RunEndIsUnique(key: ScopedKey, start: int, a: seq<Arrival>, b: seq<Arrival>, m: int, n: int)
    requires forall k :: Present(a, key, k) <==> Present(b, key, k)
    requires EndsRun(a, key, start, m) && EndsRun(b, key, start, n) && m <= U64_MAX && n <= U64_MAX
    ensures m == n
  {
    assert m < n ==> Present(b, key, m);
    assert n < m ==> Present(a, key, n);
  }

  /** The outcome is determined by which sequences arrived, so arrival order cannot matter. */
  lemma {:induction false} OrderDoesNotMatter(key: ScopedKey, start: U64, a: seq<Arrival>, b: seq<Arrival>)
    requires forall n :: Present(a, key, n) <==> Present(b, key, n)
    ensures var (ca, cb) := (ReceiveAll(Start(key, start), a), ReceiveAll(Start(key, start), b));
            && ca.tracker.expected == cb.tracker.expected
            && |ca.applied| == |cb.applied|
            && forall i :: 0 <= i < |ca.applied| ==>
                 Carries(ca.applied[i], key, start + i) && Carries(cb.applied[i], key, start + i)
  {
    AppliesLongestRun(key, start, a);
    AppliesLongestRun(key, start, b);
    RunEndIsUnique(key, start, a, b, ReceiveAll(Start(key, start), a).tracker.expected,
                   ReceiveAll(Start(key, start), b).tracker.expected);
  }
}
