/**
 * The sharded stream consumer (kernel-data/src/event/redis_consumer.rs).
 *
 * A shard is a stream with one consumer group: `last` entries have been handed out and those not
 * acknowledged are pending.  Redis may lose the group at any time; the consumer recreates it.
 */
module StreamConsumer {
  import opened Prelude

  const SHARDS: nat := 64
  const USIZE: nat := 0x1_0000_0000_0000_0000

  datatype Entry = Entry(payload: string, decodes: bool)

  datatype Group = Group(last: nat, pending: set<nat>)

  /** acked: the entries a caller acknowledged while the group existed. */
  datatype Shard = Shard(entries: seq<Entry>, group: Option<Group>, acked: set<nat>)

  // ---------------------------------------------------------------- commands

  function Publish(s: Shard, e: Entry): Shard {
    s.(entries := s.entries + [e])
  }

  /** XGROUP CREATE at a start position; an existing group is kept. */
  function CreateGroup(s: Shard, start: nat): Shard {
    if s.group.Some? then s else s.(group := Some(Group(start, {})))
  }

  function LoseGroup(s: Shard): Shard {
    s.(group := None)
  }

  /** The indices from lo up to hi, in order. */
  function Indices(lo: nat, hi: nat): (r: seq<nat>)
    requires lo <= hi
    ensures |r| == hi - lo
    ensures forall i :: i in r <==> lo <= i < hi
    decreases hi - lo
  {
    if lo == hi then [] else [lo] + Indices(lo + 1, hi)
  }

  /** XREADGROUP ">": hands out up to count entries after `last` and makes them pending. */
  function ReadNew(s: Shard, count: nat): (r: (Shard, seq<nat>))
    requires s.group.Some?
    ensures |r.1| <= count
  {
    var g := s.group.value;
    var n := if g.last >= |s.entries| then 0 else if g.last + count <= |s.entries| then count else |s.entries| - g.last;
    var ids := Indices(g.last, g.last + n);
    (s.(group := Some(Group(g.last + n, g.pending + set i | i in ids))), ids)
  }

  /** XACK: fails without a group, and succeeds without effect on an entry that is not pending. */
  function Acknowledge(s: Shard, i: nat): (Shard, bool) {
    if s.group.None? then (s, false)
    else if i !in s.group.value.pending then (s, true)
    else (s.(group := Some(s.group.value.(pending := s.group.value.pending - {i})), acked := s.acked + {i}), true)
  }

  predicate Ascending(s: seq<nat>) {
    forall a, b :: 0 <= a < b < |s| ==> s[a] < s[b]
  }

  /**
   * XAUTOCLAIM: scans the pending entries from a cursor, at most `budget` of them, and claims up to
   * `count` that are idle for long enough.  The new cursor is the first pending entry not
   * scanned; None is "0-0".
   */
  function AutoClaim(g: Group, idle: nat -> bool, from: nat, budget: nat, count: nat): (r: (seq<nat>, Option<nat>))
    ensures |r.0| <= count
    ensures forall j :: j in r.0 ==> from <= j && j in g.pending && idle(j)
    ensures r.1.Some? ==> from <= r.1.value < g.last && (budget > 0 && count > 0 ==> from < r.1.value)
    ensures Ascending(r.0)
    ensures forall k :: 0 <= k < |r.0| ==> from <= r.0[k] && (r.1.Some? ==> r.0[k] < r.1.value)
    ensures forall j :: from <= j < g.last && (r.1.Some? ==> j < r.1.value) && j in g.pending && idle(j) ==> j in r.0
    decreases g.last - from
  {
    if from >= g.last then ([], None)
    else if from !in g.pending then AutoClaim(g, idle, from + 1, budget, count)
    else if budget == 0 || count == 0 then ([], Some(from))
    else if idle(from) then
      var rest := AutoClaim(g, idle, from + 1, budget - 1, count - 1);
      ([from] + rest.0, rest.1)
    else AutoClaim(g, idle, from + 1, budget - 1, count)
  }

  // ---------------------------------------------------------------- conservation

  /** Every entry handed out is pending or was acknowledged. */
  ghost predicate Conserved(s: Shard) {
    s.group.Some? ==>
      && s.group.value.last <= |s.entries|
      && (forall i :: 0 <= i < s.group.value.last ==> i in s.group.value.pending || i in s.acked)
      && (forall i :: i in s.group.value.pending ==> i < s.group.value.last)
  }

  datatype Event =
    | Published(entry: Entry)
    | GroupEnsured
    | GroupLost
    | Read(count: nat)
    | Acked(index: nat)

  function Next(s: Shard, e: Event): Shard {
    match e
    case Published(entry) => Publish(s, entry)
    case GroupEnsured => CreateGroup(s, 0)
    case GroupLost => LoseGroup(s)
    case Read(count) => if s.group.None? then s else ReadNew(s, count).0
    case Acked(i) => Acknowledge(s, i).0
  }

  const NEW_SHARD := Shard([], None, {})

  ghost function Run(events: seq<Event>): Shard {
    if events == [] then NEW_SHARD else Next(Run(events[..|events| - 1]), events[|events| - 1])
  }

  /** An acknowledgement takes exactly its entry from the pending ones; it fails iff there is no group. */
  lemma AcknowledgesExactly(s: Shard, i: nat, j: nat)
    ensures var (after, ok) := Acknowledge(s, i);
            && (ok <==> s.group.Some?)
            && (PendingIn(after, j) <==> PendingIn(s, j) && j != i)
            && (j in after.acked <==> j in s.acked || (j == i && PendingIn(s, i)))
            && after.entries == s.entries
  {
  }

  lemma ReadConserves(s: Shard, count: nat)
    requires Conserved(s) && s.group.Some?
    ensures Conserved(ReadNew(s, count).0)
  {
  }

  predicate PendingIn(s: Shard, i: nat) {
    s.group.Some? && i in s.group.value.pending
  }

  /** Some call of the run acknowledged i while it was pending; other calls acknowledge nothing. */
  ghost predicate AckedIn(events: seq<Event>, i: nat) {
    exists k :: 0 <= k < |events| && events[k] == Acked(i) && PendingIn(Run(events[..k]), i)
  }

  lemma {:induction false} RunConserves(events: seq<Event>)
    ensures Conserved(Run(events))
    ensures forall i :: i in Run(events).acked ==> AckedIn(events, i)
  {
    if events != [] {
      var before, last := events[..|events| - 1], events[|events| - 1];
      RunConserves(before);
      var s := Run(before);
      if last.Read? && s.group.Some? { ReadConserves(s, last.count); }
      forall i | i in Run(events).acked
        ensures AckedIn(events, i)
      {
        if i in s.acked {
          var k :| 0 <= k < |before| && before[k] == Acked(i) && PendingIn(Run(before[..k]), i);
          assert before[..k] == events[..k] && events[k] == Acked(i);
        } else {
          assert events[|events| - 1] == Acked(i) && PendingIn(s, i);
        }
      }
    }
  }

  /**
   * At least once.  In every reachable state, and once a missing group is recreated from the start,
   * every published entry is still to be handed out, is pending, or was acknowledged by a caller
   * while it was pending: losing the group loses nothing.
   */
  lemma {:induction false} EveryEntryIsAccountedFor(events: seq<Event>, i: nat)
    requires i < |Run(events).entries|
    ensures var g := CreateGroup(Run(events), 0).group.value;
            i >= g.last || i in g.pending || AckedIn(events, i)
  {
    RunConserves(events);
  }

  /**
   * The recovery start position, exactly: recreating a lost group at position n conserves every
   * entry if and only if all entries before n were acknowledged and n does not exceed the stream.
   * The default "0" always does; "$" is n = the stream length.
   */
  lemma RecreateConservesExactly(s: Shard, n: nat)
    requires s.group.None?
    ensures Conserved(CreateGroup(s, n)) <==> n <= |s.entries| && forall i :: 0 <= i < n ==> i in s.acked
  {
    assert CreateGroup(s, n).group == Some(Group(n, {}));
  }

  // ---------------------------------------------------------------- rotation

  /** The shard at an offset of the scan that starts at the counter's value. */
  function ShardAt(counter: nat, offset: nat): (r: nat)
    ensures r < SHARDS
  {
    (counter % SHARDS + offset) % SHARDS
  }

  /** The counter after k draws of a wrapping machine word. */
  function Drawn(counter: nat, k: nat): nat {
    (counter + k) % USIZE
  }

  /** Within one round of 64, equal remainders after the same offset are equal. */
  lemma OffsetIsUnique(c: nat, j: nat, k: nat)
    requires j < 64 && k < 64 && (c + j) % 64 == (c + k) % 64
    ensures j == k
  {
    var p, q := (c + j) / 64, (c + k) / 64;
    assert j - k == 64 * (p - q);
  }

  lemma WrapKeepsShard(x: nat)
    ensures (x % USIZE) % SHARDS == x % SHARDS
  {
    var q := x / USIZE;
    assert x == q * USIZE + x % USIZE;
    assert USIZE == 64 * 0x400_0000_0000_0000;
    assert x == 64 * (0x400_0000_0000_0000 * q) + x % USIZE;
  }

  /** The scan from any start visits every shard. */
  lemma ScanReaches(start: nat, shard: nat) returns (offset: nat)
    requires shard < SHARDS
    ensures offset < SHARDS && ShardAt(start, offset) == shard
  {
    offset := (shard + SHARDS - start % SHARDS) % SHARDS;
  }

  /** Of 64 draws, draw k starts at the shard and no other does. */
  ghost predicate OnlyDraw(counter: nat, shard: nat, k: nat) {
    && k < 64
    && Drawn(counter, k) % SHARDS == shard
    && forall j: nat :: j < 64 && Drawn(counter, j) % SHARDS == shard ==> j == k
  }

  /**
   * Any 64 consecutive draws start at every shard exactly once, across the wrap of the counter
   * as well, because 64 divides the range of the word.
   */
  lemma DrawsCoverEveryShard(counter: nat, shard: nat)
    requires shard < 64
    ensures exists k: nat :: OnlyDraw(counter, shard, k)
  {
    var k := ScanReaches(counter, shard);
    WrapKeepsShard(counter + k);
    DrawIsOnly(counter, shard, k);
  }

  lemma {:induction false} DrawIsOnly(counter: nat, shard: nat, k: nat)
    requires k < SHARDS && (counter + k) % SHARDS == shard && Drawn(counter, k) % SHARDS == shard
    ensures OnlyDraw(counter, shard, k)
  {
    forall j: nat | j < SHARDS && Drawn(counter, j) % SHARDS == shard
      ensures j == k
    {
      WrapKeepsShard(counter + j);
      OffsetIsUnique(counter, j, k);
    }
  }

  // ---------------------------------------------------------------- polling

  /** How one read turns out; a lost reply comes after the entries became pending. */
  datatype ReadOutcome = Replied | ReplyLost | Refused

  datatype Delivery = Delivery(shard: nat, index: nat)

  function Deliveries(shard: nat, ids: seq<nat>): (r: seq<Delivery>)
    ensures |r| == |ids| && forall k :: 0 <= k < |ids| ==> r[k] == Delivery(shard, ids[k])
    ensures forall d :: d in r <==> d.shard == shard && d.index in ids
  {
    if ids == [] then [] else
      assert ids == [ids[0]] + ids[1..];
      [Delivery(shard, ids[0])] + Deliveries(shard, ids[1..])
  }

  /** At most the first n; `truncate` is this. */
  function Take<T>(s: seq<T>, n: nat): seq<T> {
    if |s| <= n then s else s[..n]
  }

  predicate Distinct(s: seq<Delivery>) {
    forall a, b :: 0 <= a < b < |s| ==> s[a] != s[b]
  }

  predicate AllDecode(entries: seq<Entry>, ids: seq<nat>) {
    forall k :: 0 <= k < |ids| ==> ids[k] < |entries| && entries[ids[k]].decodes
  }

  // ---------------------------------------------------------------- what there is to read

  ghost predicate Decodable(entries: seq<Entry>) {
    forall i :: 0 <= i < |entries| ==> entries[i].decodes
  }

  /** The entries not handed out yet, all of them if the group is missing. */
  function Unread(s: Shard): (r: seq<nat>)
    ensures var last := CreateGroup(s, 0).group.value.last;
            forall i :: i in r <==> last <= i < |s.entries|
  {
    var last := CreateGroup(s, 0).group.value.last;
    if last <= |s.entries| then Indices(last, |s.entries|) else []
  }

  lemma {:induction false} IndicesTake(lo: nat, mid: nat, hi: nat)
    requires lo <= mid <= hi
    ensures Indices(lo, hi)[..mid - lo] == Indices(lo, mid)
    decreases mid - lo
  {
    if lo < mid {
      IndicesTake(lo + 1, mid, hi);
      assert Indices(lo, hi)[1..] == Indices(lo + 1, hi);
    }
  }

  /** An entry that is published is the one more to be read. */
  lemma PublishedEntryIsUnread(s: Shard, e: Entry, i: nat)
    requires Conserved(s)
    ensures i in Unread(Publish(s, e)) <==> i in Unread(s) || i == |s.entries|
    ensures Publish(s, e).entries == s.entries + [e] && Publish(s, e).group == s.group
  {
  }

  /** A read takes exactly the first entries not handed out, as many as asked for if there are. */
  lemma ReadNewTakes(s: Shard, count: nat)
    requires s.group.Some?
    ensures ReadNew(s, count).1 == Take(Unread(s), count)
    ensures ReadNew(s, count).0.entries == s.entries
  {
    var g := s.group.value;
    if g.last <= |s.entries| {
      var n := if g.last + count <= |s.entries| then count else |s.entries| - g.last;
      IndicesTake(g.last, g.last + n, |s.entries|);
    }
  }

  lemma UnreadDecodes(s: Shard, count: nat)
    requires Decodable(s.entries)
    ensures AllDecode(s.entries, Take(Unread(s), count))
  {
    var ids := Take(Unread(s), count);
    forall k | 0 <= k < |ids|
      ensures ids[k] < |s.entries| && s.entries[ids[k]].decodes
    {
      assert ids[k] == Unread(s)[k] && Unread(s)[k] in Unread(s);
    }
  }

  /** A shard with nothing to read has nothing after a read. */
  lemma ReadLeavesNothing(s: Shard, count: nat)
    requires s.group.Some? && Conserved(s) && Unread(s) == []
    ensures Unread(ReadNew(s, count).0) == []
  {
    var last := s.group.value.last;
    assert last < |s.entries| ==> last in Unread(s);
  }

  /** What a blocking read of one entry finds at a shard that had nothing to read. */
  lemma ArrivalIsRead(s: Shard, arriving: seq<Entry>)
    requires Conserved(s) && Unread(s) == []
    ensures Take(Unread(s.(entries := s.entries + arriving)), 1) == if arriving == [] then [] else [|s.entries|]
  {
    var last := CreateGroup(s, 0).group.value.last;
    assert last < |s.entries| ==> last in Unread(s);
    assert last == |s.entries|;
  }

  lemma TakeOfPrefix(a: seq<Delivery>, b: seq<Delivery>, n: nat)
    requires a <= b && |a| >= n
    ensures Take(a, n) == Take(b, n) && |Take(a, n)| == n
  {
  }

  lemma CreateKeepsUnread(s: Shard)
    ensures Unread(CreateGroup(s, 0)) == Unread(s) && CreateGroup(s, 0).entries == s.entries
  {
  }

  /** What the first k shards of a scan hold, in the order of the scan. */
  ghost function Backlog(shards: seq<Shard>, start: nat, k: nat): seq<Delivery>
    requires |shards| == SHARDS
  {
    if k == 0 then []
    else
      var shard := ShardAt(start, k - 1);
      Backlog(shards, start, k - 1) + Deliveries(shard, Unread(shards[shard]))
  }

  lemma {:induction false} BacklogGrows(shards: seq<Shard>, start: nat, k: nat, n: nat)
    requires |shards| == SHARDS && k <= n
    ensures Backlog(shards, start, k) <= Backlog(shards, start, n)
  {
    hide ShardAt, Unread, Deliveries;
    if k < n { BacklogGrows(shards, start, k, n - 1); }
  }

  lemma {:induction false} BacklogOf(shards: seq<Shard>, start: nat, k: nat, d: Delivery)
    requires |shards| == SHARDS
    ensures d in Backlog(shards, start, k) <==>
            exists j: nat :: j < k && ScansAt(start, j, d.shard) && d.index in Unread(shards[ShardAt(start, j)])
  {
    hide ShardAt, Unread, Deliveries;
    if k > 0 {
      BacklogOf(shards, start, k - 1, d);
      var more := Deliveries(ShardAt(start, k - 1), Unread(shards[ShardAt(start, k - 1)]));
      assert Backlog(shards, start, k) == Backlog(shards, start, k - 1) + more;
      hide Backlog;
      if d in more { assert ScansAt(start, k - 1, d.shard); }
      if j: nat :| j < k && ScansAt(start, j, d.shard) && d.index in Unread(shards[ShardAt(start, j)]) {
        assert j == k - 1 ==> d in Deliveries(ShardAt(start, j), Unread(shards[ShardAt(start, j)]));
      }
    }
  }

  predicate ScansAt(start: nat, j: nat, shard: nat) {
    ShardAt(start, j) == shard
  }

  /** The backlog of a whole scan is every entry not handed out, of every shard. */
  lemma {:induction false} BacklogIsEverything(shards: seq<Shard>, start: nat, d: Delivery)
    requires |shards| == SHARDS
    ensures d in Backlog(shards, start, SHARDS) <==> d.shard < SHARDS && d.index in Unread(shards[d.shard])
  {
    BacklogOf(shards, start, SHARDS, d);
    if d.shard < SHARDS {
      var j := ScanReaches(start, d.shard);
      assert ScansAt(start, j, d.shard);
    }
  }

  lemma EmptyBacklog(shards: seq<Shard>, start: nat, shard: nat)
    requires |shards| == SHARDS && shard < SHARDS && Backlog(shards, start, SHARDS) == []
    ensures Unread(shards[shard]) == []
  {
    if Unread(shards[shard]) != [] {
      var i := Unread(shards[shard])[0];
      assert i in Unread(shards[shard]);
      BacklogIsEverything(shards, start, Delivery(shard, i));
      assert false;
    }
  }

  /** A scan offset names a shard no other offset names. */
  lemma OffsetsAreDistinct(start: nat, j: nat, k: nat)
    requires j < SHARDS && k < SHARDS && ShardAt(start, j) == ShardAt(start, k)
    ensures j == k
  {
    OffsetIsUnique(start % SHARDS, j, k);
  }

  /** One more shard: the room left is filled from its unread entries. */
  lemma TakeMore(shards: seq<Shard>, start: nat, k: nat, max: nat)
    requires |shards| == SHARDS && |Backlog(shards, start, k)| < max
    ensures var (b, shard) := (Backlog(shards, start, k), ShardAt(start, k));
            b + Deliveries(shard, Take(Unread(shards[shard]), max - |b|)) == Take(Backlog(shards, start, k + 1), max)
  {
    hide ShardAt, Unread, Deliveries;
    var (b, shard) := (Backlog(shards, start, k), ShardAt(start, k));
    var u := Unread(shards[shard]);
    assert Backlog(shards, start, k + 1) == b + Deliveries(shard, u);
    hide Backlog;
    var all, some := Deliveries(shard, u), Deliveries(shard, Take(u, max - |b|));
    assert some == Take(all, max - |b|);
  }

  // ---------------------------------------------------------------- what a poll does to the shards

  /** Entries stay, pending entries stay pending, and a shard read to its end stays so. */
  ghost predicate Kept(a: seq<Shard>, b: seq<Shard>) {
    && |a| == |b| == SHARDS
    && (forall s :: 0 <= s < SHARDS ==> b[s].entries == a[s].entries && (Unread(a[s]) == [] ==> Unread(b[s]) == []))
    && (forall s, i: nat :: 0 <= s < SHARDS && PendingIn(a[s], i) ==> PendingIn(b[s], i))
  }

  /** The deliveries are pending, and everything that became pending is among them. */
  ghost predicate Handed(a: seq<Shard>, b: seq<Shard>, ds: seq<Delivery>)
    requires |a| == |b| == SHARDS
  {
    && (forall d :: d in ds ==> d.shard < SHARDS && PendingIn(b[d.shard], d.index))
    && (forall s, i: nat :: 0 <= s < SHARDS && PendingIn(b[s], i) && !PendingIn(a[s], i) ==> Delivery(s, i) in ds)
  }

  /** Only the given shard was read. */
  ghost predicate ReadOnly(a: seq<Shard>, b: seq<Shard>, shard: nat)
    requires |a| == |b| == SHARDS
  {
    forall s :: 0 <= s < SHARDS && s != shard ==> Unread(b[s]) == Unread(a[s])
  }

  lemma KeptThen(a: seq<Shard>, b: seq<Shard>, c: seq<Shard>)
    requires Kept(a, b) && Kept(b, c)
    ensures Kept(a, c)
  {
    hide Unread, PendingIn;
  }

  lemma HandedThen(a: seq<Shard>, b: seq<Shard>, c: seq<Shard>, ds: seq<Delivery>, more: seq<Delivery>)
    requires Kept(a, b) && Kept(b, c) && Handed(a, b, ds) && Handed(b, c, more)
    ensures Handed(a, c, ds + more)
  {
    hide Unread, PendingIn;
    forall d | d in ds + more
      ensures d.shard < SHARDS && PendingIn(c[d.shard], d.index)
    {
      if d in ds { assert PendingIn(b[d.shard], d.index); }
    }
    forall s, i: nat | 0 <= s < SHARDS && PendingIn(c[s], i) && !PendingIn(a[s], i)
      ensures Delivery(s, i) in ds + more
    {
      if PendingIn(b[s], i) { assert Delivery(s, i) in ds; } else { assert Delivery(s, i) in more; }
    }
  }

  /** Creating missing groups hands out nothing and leaves what there is to read. */
  lemma CreatingKeeps(a: seq<Shard>, b: seq<Shard>)
    requires |a| == |b| == SHARDS && forall s :: 0 <= s < SHARDS ==> b[s] == CreateGroup(a[s], 0)
    ensures Kept(a, b) && Handed(a, b, []) && forall s :: 0 <= s < SHARDS ==> Unread(b[s]) == Unread(a[s])
  {
    forall s | 0 <= s < SHARDS
      ensures b[s].entries == a[s].entries && Unread(b[s]) == Unread(a[s])
      ensures forall i: nat :: PendingIn(b[s], i) <==> PendingIn(a[s], i)
    {
      CreateKeepsUnread(a[s]);
    }
    hide Unread, PendingIn, CreateGroup;
  }

  /** One read of a shard with a group. */
  lemma ReadingKeeps(a: seq<Shard>, shard: nat, count: nat)
    requires |a| == SHARDS && shard < SHARDS && a[shard].group.Some? && Conserved(a[shard])
    ensures var (after, ids) := ReadNew(a[shard], count);
            var b := a[shard := after];
            Kept(a, b) && ReadOnly(a, b, shard) && Handed(a, b, Deliveries(shard, ids))
  {
    ReadNewTakes(a[shard], count);
    if Unread(a[shard]) == [] { ReadLeavesNothing(a[shard], count); }
    var (after, ids) := ReadNew(a[shard], count);
    assert forall i: nat :: PendingIn(after, i) <==> PendingIn(a[shard], i) || i in ids;
    hide Unread, ReadNew, PendingIn, Deliveries;
  }

  /** Entries that arrive change no pending entry. */
  lemma ArrivingHandsOutNothing(a: seq<Shard>, shard: nat, arriving: seq<Entry>)
    requires |a| == SHARDS && shard < SHARDS
    ensures var b := a[shard := a[shard].(entries := a[shard].entries + arriving)];
            forall s, i: nat :: 0 <= s < SHARDS ==> (PendingIn(b[s], i) <==> PendingIn(a[s], i))
  {
  }

  lemma Unchanged(a: seq<Shard>, shard: nat)
    requires |a| == SHARDS
    ensures Kept(a, a) && Handed(a, a, []) && ReadOnly(a, a, shard)
  {
  }

  lemma KeptEntries(a: seq<Shard>, b: seq<Shard>, shard: nat)
    requires Kept(a, b) && shard < SHARDS
    ensures b[shard].entries == a[shard].entries
  {
  }

  lemma ReadOnlyThen(a: seq<Shard>, b: seq<Shard>, c: seq<Shard>, shard: nat)
    requires |a| == |b| == |c| == SHARDS && ReadOnly(b, c, shard)
    requires forall s :: 0 <= s < SHARDS ==> Unread(b[s]) == Unread(a[s])
    ensures ReadOnly(a, c, shard)
  {
    hide Unread;
  }

  /** Reading the shard of one offset leaves those of the later offsets. */
  lemma UnreadAhead(a: seq<Shard>, b: seq<Shard>, start: nat, offset: nat)
    requires |a| == |b| == SHARDS && offset < SHARDS && ReadOnly(a, b, ShardAt(start, offset))
    ensures forall k: nat :: offset < k < SHARDS ==> Unread(b[ShardAt(start, k)]) == Unread(a[ShardAt(start, k)])
  {
    hide Unread, ShardAt;
    forall k: nat | offset < k < SHARDS
      ensures ShardAt(start, k) != ShardAt(start, offset)
    {
      if ShardAt(start, k) == ShardAt(start, offset) { OffsetsAreDistinct(start, offset, k); }
    }
  }

  /** The pending idle entries before the cursor are claimed, in order, and nothing else is. */
  ghost predicate ClaimedBefore(g: Group, idle: nat -> bool, cursor: nat, claimed: seq<nat>) {
    && Ascending(claimed) && (forall k :: 0 <= k < |claimed| ==> claimed[k] < cursor)
    && (forall i :: i in claimed ==> i in g.pending && idle(i))
    && (forall i: nat :: i < cursor && i in g.pending && idle(i) ==> i in claimed)
  }

  lemma NothingClaimedYet(s: Shard, g: Group, idle: nat -> bool)
    ensures ClaimedBefore(g, idle, 0, []) && AllDecode(s.entries, [])
  {
  }

  /** A page of XAUTOCLAIM carries the claims on to its new cursor. */
  lemma PageClaims(s: Shard, g: Group, idle: nat -> bool, cursor: nat, claimed: seq<nat>, page: nat)
    requires page > 0 && cursor <= g.last && ClaimedBefore(g, idle, cursor, claimed)
    requires Conserved(s) && s.group == Some(g) && AllDecode(s.entries, claimed)
    ensures var (ids, next) := AutoClaim(g, idle, cursor, 10 * page, page);
            var onto := if next.None? then g.last else next.value;
            && |ids| <= page && cursor <= onto <= g.last && (cursor < g.last ==> cursor < onto)
            && ClaimedBefore(g, idle, onto, claimed + ids)
            && (AllDecode(s.entries, ids) ==> AllDecode(s.entries, claimed + ids))
            && (Decodable(s.entries) ==> AllDecode(s.entries, ids))
  {
    var (ids, next) := AutoClaim(g, idle, cursor, 10 * page, page);
    hide AutoClaim;
    PendingDecode(s, ids);
    assert forall k :: 0 <= k < |ids| ==> ids[k] in ids;
  }

  lemma ClaimedMeans(s: Shard, g: Group, idle: nat -> bool, cursor: nat, claimed: seq<nat>)
    requires Conserved(s) && s.group == Some(g) && ClaimedBefore(g, idle, cursor, claimed)
    ensures Ascending(claimed) && forall i :: i in claimed ==> PendingIn(s, i) && idle(i)
    ensures cursor >= g.last ==> forall i: nat :: PendingIn(s, i) && idle(i) ==> i in claimed
  {
  }

  lemma PendingDecode(s: Shard, ids: seq<nat>)
    requires Conserved(s) && s.group.Some? && forall i :: i in ids ==> i in s.group.value.pending
    ensures Decodable(s.entries) ==> AllDecode(s.entries, ids)
  {
    assert forall k :: 0 <= k < |ids| ==> ids[k] in ids;
  }

  lemma NothingClaimed(start: nat)
    ensures Distinct([]) && ScannedBefore(start, 0, [])
  {
  }

  ghost predicate Visited(start: nat, offset: nat, shard: nat) {
    exists k: nat :: k < offset && ScansAt(start, k, shard)
  }

  /** The deliveries are of shards the scan visited before the offset. */
  ghost predicate ScannedBefore(start: nat, offset: nat, ds: seq<Delivery>) {
    forall a :: 0 <= a < |ds| ==> Visited(start, offset, ds[a].shard)
  }

  lemma VisitsOnce(start: nat, offset: nat, shard: nat)
    requires offset < SHARDS
    ensures Visited(start, offset, shard) ==> shard != ShardAt(start, offset) && Visited(start, offset + 1, shard)
    ensures Visited(start, offset + 1, ShardAt(start, offset))
  {
    hide ShardAt;
    if Visited(start, offset, shard) {
      var k: nat :| k < offset && ScansAt(start, k, shard);
      assert k < offset + 1 && ScansAt(start, k, shard);
      if shard == ShardAt(start, offset) {
        OffsetsAreDistinct(start, k, offset);
        assert false;
      }
    }
    assert ScansAt(start, offset, ShardAt(start, offset));
  }

  lemma MoreAreDistinct(start: nat, offset: nat, ds: seq<Delivery>, ids: seq<nat>)
    requires offset < SHARDS && Distinct(ds) && ScannedBefore(start, offset, ds) && Ascending(ids)
    ensures var all := ds + Deliveries(ShardAt(start, offset), ids);
            Distinct(all) && ScannedBefore(start, offset + 1, all)
  {
    hide ShardAt, Visited, Deliveries;
    forall shard: nat
      ensures Visited(start, offset, shard) ==> shard != ShardAt(start, offset) && Visited(start, offset + 1, shard)
    {
      VisitsOnce(start, offset, shard);
    }
    VisitsOnce(start, offset, 0);
  }

  /** Every read is answered, and every entry decodes. */
  ghost predicate Clean(shards: seq<Shard>, outcome: nat -> ReadOutcome) {
    (forall n :: outcome(n) == Replied) && forall s :: 0 <= s < |shards| ==> Decodable(shards[s].entries)
  }

  class Consumer {
    var shards: seq<Shard>
    var counter: nat

    ghost predicate Valid()
      reads this
    {
      |shards| == SHARDS && counter < USIZE && forall s :: 0 <= s < SHARDS ==> Conserved(shards[s])
    }

    /** Creates the group of every shard that has none, from the start of the stream. */
    method EnsureGroups()
      requires Valid()
      modifies this`shards
      ensures Valid()
      ensures forall s :: 0 <= s < SHARDS ==> shards[s] == CreateGroup(old(shards)[s], 0)
    {
      for i := 0 to SHARDS
        invariant |shards| == SHARDS
        invariant forall s :: 0 <= s < i ==> shards[s] == CreateGroup(old(shards)[s], 0)
        invariant forall s :: i <= s < SHARDS ==> shards[s] == old(shards)[s]
      {
        shards := shards[i := CreateGroup(shards[i], 0)];
      }
    }

    /**
     * One group read with recovery from a missing group.  A read that is answered and decodes
     * returns exactly the first entries not handed out, up to count.
     */
    method ReadShard(shard: nat, count: nat, outcome: ReadOutcome) returns (r: Option<seq<nat>>)
      requires Valid() && shard < SHARDS
      modifies this`shards
      ensures Valid()
      ensures Kept(old(shards), shards) && ReadOnly(old(shards), shards, shard)
      ensures outcome == Replied && Decodable(old(shards)[shard].entries) ==>
                r == Some(Take(Unread(old(shards)[shard]), count))
      ensures outcome != Replied ==> r.None?
      ensures r.Some? ==> |r.value| <= count && Handed(old(shards), shards, Deliveries(shard, r.value))
                          && AllDecode(old(shards)[shard].entries, r.value)
    {
      hide Deliveries, Unread, PendingIn, ReadOnly, Handed, Kept, AllDecode, Conserved;
      if outcome == Refused {
        Unchanged(shards, shard);
        return None;
      }
      if shards[shard].group.None? {
        EnsureGroups();
        CreatingKeeps(old(shards), shards);
      } else {
        Unchanged(shards, shard);
      }
      ghost var before := shards;
      ReadConserves(shards[shard], count);
      ReadNewTakes(shards[shard], count);
      ReadingKeeps(shards, shard, count);
      if Decodable(shards[shard].entries) { UnreadDecodes(shards[shard], count); }
      KeptEntries(old(shards), before, shard);
      var (after, ids) := ReadNew(shards[shard], count);
      shards := shards[shard := after];
      KeptThen(old(shards), before, shards);
      ReadOnlyThen(old(shards), before, shards, shard);
      HandedThen(old(shards), before, shards, [], Deliveries(shard, ids));
      assert [] + Deliveries(shard, ids) == Deliveries(shard, ids);
      if outcome == ReplyLost { return None; }
      if !AllDecode(after.entries, ids) { return None; }
      return Some(ids);
    }

    /**
     * The first phase of `poll_once`: a scan of all shards from the start, without blocking.  When
     * every read is answered and decodes, it returns the first maxCount of everything not handed
     * out, in the order of the scan.
     */
    method ScanShards(start: nat, maxCount: nat, outcome: nat -> ReadOutcome) returns (r: Option<seq<Delivery>>)
      requires Valid() && maxCount > 0
      modifies this`shards
      ensures Valid() && Kept(old(shards), shards)
      ensures Clean(old(shards), outcome) ==> r == Some(Take(Backlog(old(shards), start, SHARDS), maxCount))
      ensures r.Some? ==> |r.value| <= maxCount && Handed(old(shards), shards, r.value)
    {
      hide ShardAt, Unread, Conserved, Deliveries, Kept, Handed, ReadOnly, PendingIn;
      ghost var clean := Clean(old(shards), outcome);
      var deliveries: seq<Delivery> := [];
      Unchanged(shards, 0);
      for offset := 0 to SHARDS
        invariant Valid() && |deliveries| <= maxCount
        invariant Kept(old(shards), shards) && Handed(old(shards), shards, deliveries)
        invariant clean ==> deliveries == Take(Backlog(old(shards), start, offset), maxCount)
        invariant forall k: nat :: offset <= k < SHARDS ==>
                    Unread(shards[ShardAt(start, k)]) == Unread(old(shards)[ShardAt(start, k)])
      {
        if |deliveries| >= maxCount {
          BacklogGrows(old(shards), start, offset, SHARDS);
          if clean {
            TakeOfPrefix(Backlog(old(shards), start, offset), Backlog(old(shards), start, SHARDS), maxCount);
          }
          return Some(deliveries);
        }
        var shard := ShardAt(start, offset);
        ghost var before := shards;
        KeptEntries(old(shards), before, shard);
        var ids := ReadShard(shard, maxCount - |deliveries|, outcome(offset));
        KeptThen(old(shards), before, shards);
        if ids.None? { return None; }
        if clean { TakeMore(old(shards), start, offset, maxCount); }
        UnreadAhead(before, shards, start, offset);
        HandedThen(old(shards), before, shards, deliveries, Deliveries(shard, ids.value));
        deliveries := deliveries + Deliveries(shard, ids.value);
      }
      return Some(deliveries);
    }

    /**
     * `poll_once`: the scan from the rotating start, then a blocking read of one shard.  A result
     * has at most maxCount deliveries, all pending, and includes everything the poll made
     * pending: the final truncation never drops an entry.  When every read is answered and decodes
     * there is a result: the first maxCount of everything not handed out, or, if there was nothing,
     * the first entry that arrives at the shard it blocks on.
     */
    method PollOnce(maxCount: nat, outcome: nat -> ReadOutcome, arriving: seq<Entry>)
      returns (r: Option<seq<Delivery>>)
      requires Valid() && maxCount > 0
      modifies this
      ensures Valid() && counter == (old(counter) + 1) % USIZE
      ensures Clean(old(shards), outcome) && Decodable(arriving) ==>
                var backlog := Backlog(old(shards), old(counter), SHARDS);
                var first := ShardAt(old(counter), 0);
                r == Some(if backlog != [] then Take(backlog, maxCount)
                          else if arriving != [] then [Delivery(first, |old(shards)[first].entries|)] else [])
      ensures forall s, i: nat :: 0 <= s < SHARDS && PendingIn(old(shards)[s], i) ==> PendingIn(shards[s], i)
      ensures r.Some? ==> |r.value| <= maxCount && Handed(old(shards), shards, r.value)
    {
      hide ShardAt, Unread, Backlog, Conserved, Deliveries, PendingIn;
      var start := counter;
      counter := (counter + 1) % USIZE;
      var scan := ScanShards(start, maxCount, outcome);
      if scan.None? { return None; }
      if scan.value != [] {
        return Some(Take(scan.value, maxCount));
      }
      var first := ShardAt(start, 0);
      ghost var scanned := shards;
      if Backlog(old(shards), start, SHARDS) == [] {
        EmptyBacklog(old(shards), start, first);
        ArrivalIsRead(scanned[first], arriving);
      }
      PublishConserves(shards[first], arriving);
      ArrivingHandsOutNothing(shards, first, arriving);
      shards := shards[first := shards[first].(entries := shards[first].entries + arriving)];
      ghost var before := shards;
      if Clean(old(shards), outcome) && Decodable(arriving) {
        assert Decodable(shards[first].entries);
      }
      var ids := ReadShard(first, 1, outcome(SHARDS));
      if ids.None? { return None; }
      r := Some(Deliveries(first, ids.value));
      assert Clean(old(shards), outcome) && Decodable(arriving) && arriving != [] ==>
          r.value == [Delivery(first, |old(shards)[first].entries|)];
    }

    /**
     * The cursor loop over one shard: every page is XAUTOCLAIM from the last cursor, an empty page
     * with a cursor is not the end.  Unless the batch fills, everything pending and idle is claimed.
     */
    method ClaimShard(shard: nat, idle: nat -> bool, count: nat, replies: nat -> bool) returns (r: Option<seq<nat>>)
      requires Valid() && shard < SHARDS && count > 0
      modifies this`shards
      ensures Valid()
      ensures forall s, i: nat :: 0 <= s < SHARDS ==> (PendingIn(shards[s], i) <==> PendingIn(old(shards)[s], i))
      ensures forall s :: 0 <= s < SHARDS ==> shards[s].entries == old(shards)[s].entries
      ensures r.Some? ==>
                && |r.value| <= count
                && (forall i :: i in r.value ==> PendingIn(shards[shard], i) && idle(i))
                && (|r.value| < count ==> forall i: nat :: PendingIn(shards[shard], i) && idle(i) ==> i in r.value)
                && Ascending(r.value) && AllDecode(old(shards)[shard].entries, r.value)
      ensures (forall i :: replies(i)) && Decodable(old(shards)[shard].entries) ==> r.Some?
    {
      hide AutoClaim, AllDecode, Ascending, ClaimedBefore, Conserved;
      if !replies(0) { return None; }
      if shards[shard].group.None? {
        EnsureGroups();
        CreatingKeeps(old(shards), shards);
      }
      var s := shards[shard];
      var g := s.group.value;
      var claimed: seq<nat> := [];
      var cursor: nat := 0;
      NothingClaimedYet(s, g, idle);
      ghost var fixed := shards;
      while |claimed| < count
        invariant shards == fixed
        invariant |claimed| <= count && cursor <= g.last
        invariant ClaimedBefore(g, idle, cursor, claimed) && AllDecode(s.entries, claimed)
        decreases g.last - cursor
      {
        if !replies(cursor) { return None; }
        var page := if count - |claimed| < 100 then count - |claimed| else 100;
        var (ids, next) := AutoClaim(g, idle, cursor, 10 * page, page);
        PageClaims(s, g, idle, cursor, claimed, page);
        if !AllDecode(s.entries, ids) { return None; }
        claimed := claimed + ids;
        if next.None? {
          cursor := g.last;
          break;
        }
        cursor := next.value;
      }
      ClaimedMeans(s, g, idle, cursor, claimed);
      return Some(claimed);
    }

    /**
     * `claim_pending_once`: at most maxCount deliveries, all pending and idle; when there are
     * fewer, every pending idle entry of every shard is among them.  Claiming changes no
     * pending set.
     */
    method ClaimPendingOnce(maxCount: nat, idle: (nat, nat) -> bool, replies: (nat, nat) -> bool)
      returns (r: Option<seq<Delivery>>)
      requires Valid() && maxCount > 0
      modifies this
      ensures Valid() && counter == (old(counter) + 1) % USIZE
      ensures forall s, i: nat :: 0 <= s < SHARDS ==> (PendingIn(shards[s], i) <==> PendingIn(old(shards)[s], i))
      ensures r.Some? ==>
                && |r.value| <= maxCount
                && (forall d :: d in r.value ==>
                      d.shard < SHARDS && PendingIn(shards[d.shard], d.index) && idle(d.shard, d.index))
                && (|r.value| < maxCount ==>
                      forall s: nat, i: nat :: s < SHARDS && PendingIn(shards[s], i) && idle(s, i) ==>
                        Delivery(s, i) in r.value)
                && Distinct(r.value)
      ensures (forall s, i :: replies(s, i)) && (forall s :: 0 <= s < SHARDS ==> Decodable(old(shards)[s].entries)) ==>
                r.Some?
    {
      hide ShardAt, Conserved, Deliveries, PendingIn, Distinct, ScannedBefore;
      NothingClaimed(counter);
      var start := counter;
      counter := (counter + 1) % USIZE;
      var claimed: seq<Delivery> := [];
      for offset := 0 to SHARDS
        invariant Valid() && counter == (old(counter) + 1) % USIZE && |claimed| <= maxCount
        invariant forall s, i: nat :: 0 <= s < SHARDS ==> (PendingIn(shards[s], i) <==> PendingIn(old(shards)[s], i))
        invariant forall d :: d in claimed ==>
                    d.shard < SHARDS && PendingIn(shards[d.shard], d.index) && idle(d.shard, d.index)
        invariant forall s :: 0 <= s < SHARDS ==> shards[s].entries == old(shards)[s].entries
        invariant Distinct(claimed) && ScannedBefore(start, offset, claimed)
        invariant |claimed| < maxCount ==>
                    forall k: nat, i: nat :: k < offset ==>
                      Claimed(shards, idle, ShardAt(start, k), i, claimed)
      {
        if |claimed| >= maxCount { return Some(claimed); }
        var shard := ShardAt(start, offset);
        ghost var before := shards;
        var ids := ClaimShard(shard, (i: nat) => idle(shard, i), maxCount - |claimed|, (i: nat) => replies(shard, i));
        if ids.None? { return None; }
        var more := Deliveries(shard, ids.value);
        MoreAreDistinct(start, offset, claimed, ids.value);
        forall k: nat, i: nat | |claimed + more| < maxCount && k <= offset
          ensures Claimed(shards, idle, ShardAt(start, k), i, claimed + more)
        {
          if k < offset {
            assert Claimed(before, idle, ShardAt(start, k), i, claimed);
          } else if PendingIn(shards[shard], i) && idle(shard, i) {
            assert Delivery(shard, i) in more;
          }
        }
        claimed := claimed + more;
      }
      forall s: nat, i: nat | |claimed| < maxCount && s < SHARDS && PendingIn(shards[s], i) && idle(s, i)
        ensures Delivery(s, i) in claimed
      {
        var k := ScanReaches(start, s);
        assert Claimed(shards, idle, ShardAt(start, k), i, claimed);
      }
      return Some(claimed);
    }
  }

  ghost predicate Claimed(
    shards: seq<Shard>, idle: (nat, nat) -> bool, shard: nat, i: nat, claimed: seq<Delivery>)
  {
    shard < |shards| && PendingIn(shards[shard], i) && idle(shard, i) ==> Delivery(shard, i) in claimed
  }

  lemma PublishConserves(s: Shard, more: seq<Entry>)
    requires Conserved(s)
    ensures Conserved(s.(entries := s.entries + more))
  {
  }
}
