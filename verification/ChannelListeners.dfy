/**
 * The waiters and listeners of the Redis idempotency store (kernel-api/src/middleware.rs,
 * `register_waiter`, `spawn_channel_listener` and the wait in `idempotency_middleware`).
 *
 * Every step below is one critical section on the subscription map, one Redis command, or a step
 * of a request or listener task between two of them.  A task exists from the moment its creator
 * committed to spawn it.  `notify_waiters` reaches only waiters that are already awaiting, while
 * `notify_one` leaves a permit for a wait that begins later.
 */
module ChannelListeners {
  import opened Prelude

  datatype Subscription = Subscription(waiters: seq<nat>, running: bool)

  /** Where a waiting request stands: before its GET, before its wait, in it, or past it. */
  datatype Stage = Registering | Checked(permit: bool) | Awaiting | Woken

  /** Committed: by a registering waiter or, after a respawn, by no one; Listening: messages not yet handled. */
  datatype Phase = Committed(spawner: Option<nat>) | Connecting | Listening(queued: nat) | Closing

  datatype Task = Task(channel: string, phase: Phase)

  /**
   * alive: waiters whose Notify still exists; registered: the channel each waiter asked for;
   * inFlight: the channels whose key is in flight.
   */
  datatype Hub = Hub(subs: map<string, Subscription>, alive: set<nat>, registered: map<nat, string>,
                     stages: map<nat, Stage>, inFlight: set<string>, tasks: map<nat, Task>,
                     nextWaiter: nat, nextTask: nat)

  datatype Move =
    | Acquire(channel: string)
    | Expire(channel: string)
    | Publish(channel: string)
    | Register(channel: string)
    | Get(waiter: nat)
    | GetFails(waiter: nat)
    | Await(waiter: nat)
    | DropWaiter(waiter: nat)
    | Spawn(task: nat)
    | ConnectFails(task: nat)
    | Subscribe(task: nat)
    | Deliver(task: nat)
    | CheckWaiters(task: nat)
    | StreamEnds(task: nat)
    | Close(task: nat)

  // ---------------------------------------------------------------- steps

  /** Keeps the waiters that are still alive, in order. */
  function Prune(waiters: seq<nat>, alive: set<nat>): (r: seq<nat>)
    ensures forall w :: w in r <==> w in waiters && w in alive
  {
    if waiters == [] then []
    else
      var rest := Prune(waiters[1..], alive);
      assert waiters == [waiters[0]] + waiters[1..];
      if waiters[0] in alive then [waiters[0]] + rest else rest
  }

  function PrunedAt(h: Hub, channel: string): Hub {
    if channel !in h.subs then h
    else h.(subs := h.subs[channel := h.subs[channel].(waiters := Prune(h.subs[channel].waiters, h.alive))])
  }

  predicate HasWaiters(h: Hub, channel: string) {
    channel in h.subs && Prune(h.subs[channel].waiters, h.alive) != []
  }

  predicate Listed(h: Hub, channel: string, w: nat) {
    channel in h.subs && w in h.subs[channel].waiters
  }

  /** `notify_waiters` on every live waiter in the channel's list. */
  function NotifiedAt(h: Hub, channel: string): Hub {
    h.(stages := map w | w in h.stages ::
         if w in h.alive && Listed(h, channel, w) && h.stages[w].Awaiting? then Woken else h.stages[w])
  }

  function SetTask(h: Hub, task: nat, phase: Phase): Hub
    requires task in h.tasks
  {
    h.(tasks := h.tasks[task := h.tasks[task].(phase := phase)])
  }

  function SetStage(h: Hub, w: nat, stage: Stage): Hub {
    h.(stages := h.stages[w := stage])
  }

  /** Adds a waiter; if the channel has no listener, marks it running and commits to spawn one. */
  function DoRegister(h: Hub, channel: string): Hub {
    var sub := if channel in h.subs then h.subs[channel] else Subscription([], false);
    var w := h.nextWaiter;
    var waiting := h.(alive := h.alive + {w}, registered := h.registered[w := channel],
                      stages := h.stages[w := Registering], nextWaiter := w + 1,
                      subs := h.subs[channel := Subscription(sub.waiters + [w], true)]);
    if sub.running then waiting
    else waiting.(tasks := h.tasks[h.nextTask := Task(channel, Committed(Some(w)))], nextTask := h.nextTask + 1)
  }

  /** A script that ends the flight of the key publishes to whoever is subscribed at that moment. */
  function DoPublish(h: Hub, channel: string): Hub {
    h.(inFlight := h.inFlight - {channel},
       tasks := map t | t in h.tasks ::
         if h.tasks[t].channel == channel && h.tasks[t].phase.Listening?
         then h.tasks[t].(phase := Listening(h.tasks[t].phase.queued + 1)) else h.tasks[t])
  }

  /** A listener that cannot connect wakes and prunes the waiters, clears running and ends. */
  function DoFail(h: Hub, task: nat): Hub
    requires task in h.tasks
  {
    var channel := h.tasks[task].channel;
    var p := PrunedAt(NotifiedAt(h, channel), channel);
    var cleared := if channel in p.subs then p.(subs := p.subs[channel := p.subs[channel].(running := false)]) else p;
    cleared.(tasks := h.tasks - {task})
  }

  /** A message wakes and prunes the waiters; without any the listener closes. */
  function DoDeliver(h: Hub, task: nat): Hub
    requires task in h.tasks && h.tasks[task].phase.Listening? && h.tasks[task].phase.queued > 0
  {
    var channel := h.tasks[task].channel;
    SetTask(PrunedAt(NotifiedAt(h, channel), channel), task,
            if HasWaiters(h, channel) then Listening(h.tasks[task].phase.queued - 1) else Closing)
  }

  /** The tick of the listener only prunes. */
  function DoCheck(h: Hub, task: nat): Hub
    requires task in h.tasks
  {
    var p := PrunedAt(h, h.tasks[task].channel);
    if HasWaiters(h, h.tasks[task].channel) then p else SetTask(p, task, Closing)
  }

  /** The last section of a listener: remove the channel, or commit to a new listener. */
  function DoClose(h: Hub, task: nat): Hub
    requires task in h.tasks
  {
    var channel := h.tasks[task].channel;
    if channel !in h.subs then h.(tasks := h.tasks - {task})
    else if HasWaiters(h, channel) then
      var p := PrunedAt(h, channel);
      SetTask(p.(subs := p.subs[channel := p.subs[channel].(running := true)]), task, Committed(None))
    else h.(subs := h.subs - {channel}, tasks := h.tasks - {task})
  }

  /** The waiter has committed to spawn a listener and has not done so. */
  predicate Unspawned(h: Hub, w: nat) {
    exists t :: t in h.tasks && h.tasks[t].phase == Committed(Some(w))
  }

  /** The waiter is alive and at a stage. */
  predicate At(h: Hub, w: nat, stage: Stage) {
    w in h.alive && w in h.stages && h.stages[w] == stage
  }

  /** The move is one that can happen now; a registration is not dropped before it spawns. */
  predicate Ready(h: Hub, m: Move) {
    match m
    case Acquire(c) => c !in h.inFlight
    case Expire(c) => c in h.inFlight
    case Publish(c) => c in h.inFlight
    case Register(_) => true
    case Get(w) => At(h, w, Registering)
    case GetFails(w) => At(h, w, Registering)
    case Await(w) => w in h.alive && w in h.stages && h.stages[w].Checked? && !Unspawned(h, w)
    case DropWaiter(w) => !Unspawned(h, w)
    case Spawn(t) =>
      && t in h.tasks && h.tasks[t].phase.Committed?
      && (h.tasks[t].phase.spawner.Some? ==> !At(h, h.tasks[t].phase.spawner.value, Registering))
    case ConnectFails(t) => t in h.tasks && h.tasks[t].phase.Connecting?
    case Subscribe(t) => t in h.tasks && h.tasks[t].phase.Connecting?
    case Deliver(t) => t in h.tasks && h.tasks[t].phase.Listening? && h.tasks[t].phase.queued > 0
    case CheckWaiters(t) => t in h.tasks && h.tasks[t].phase.Listening?
    case StreamEnds(t) => t in h.tasks && h.tasks[t].phase.Listening?
    case Close(t) => t in h.tasks && h.tasks[t].phase.Closing?
  }

  /** One step; a move that is not ready changes nothing. */
  function Next(h: Hub, m: Move): Hub {
    if !Ready(h, m) then h else
    match m
    case Acquire(c) => h.(inFlight := h.inFlight + {c})
    case Expire(c) => h.(inFlight := h.inFlight - {c})
    case Publish(c) => DoPublish(h, c)
    case Register(c) => DoRegister(h, c)
    case Get(w) => SetStage(h, w, Checked(w in h.registered && h.registered[w] !in h.inFlight))
    case GetFails(w) => SetStage(h, w, Checked(false))
    case Await(w) => SetStage(h, w, if h.stages[w].permit then Woken else Awaiting)
    case DropWaiter(w) => h.(alive := h.alive - {w})
    case Spawn(t) => SetTask(h, t, Connecting)
    case ConnectFails(t) => DoFail(h, t)
    case Subscribe(t) => SetTask(h, t, Listening(0))
    case Deliver(t) => DoDeliver(h, t)
    case CheckWaiters(t) => DoCheck(h, t)
    case StreamEnds(t) => SetTask(h, t, Closing)
    case Close(t) => DoClose(h, t)
  }

  const START := Hub(map[], {}, map[], map[], {}, map[], 0, 0)

  ghost function RunFrom(h: Hub, moves: seq<Move>): Hub {
    if moves == [] then h else Next(RunFrom(h, moves[..|moves| - 1]), moves[|moves| - 1])
  }

  ghost function Run(moves: seq<Move>): Hub {
    RunFrom(START, moves)
  }

  // ---------------------------------------------------------------- what every run keeps

  ghost predicate Listened(h: Hub, channel: string) {
    exists t :: t in h.tasks && h.tasks[t].channel == channel
  }

  ghost predicate OneListener(h: Hub) {
    forall a, b :: a in h.tasks && b in h.tasks && h.tasks[a].channel == h.tasks[b].channel ==> a == b
  }

  ghost predicate RunningMeansListened(h: Hub) {
    forall c :: Listened(h, c) <==> c in h.subs && h.subs[c].running
  }

  ghost predicate KeepsLiveWaiters(h: Hub) {
    forall w :: w in h.alive ==> w in h.registered && Listed(h, h.registered[w], w)
  }

  ghost predicate Fresh(h: Hub) {
    && (forall t :: t in h.tasks ==> t < h.nextTask)
    && (forall w :: w in h.registered ==> w < h.nextWaiter)
    && h.stages.Keys == h.registered.Keys
    && (forall c, w: nat :: Listed(h, c, w) ==> w in h.registered && h.registered[w] == c)
  }

  /** A listener not yet spawned is for the channel of the waiter that will spawn it. */
  ghost predicate SpawnersMatch(h: Hub) {
    forall t, w: nat :: t in h.tasks && h.tasks[t].phase == Committed(Some(w)) ==>
      w in h.registered && h.registered[w] == h.tasks[t].channel
  }

  ghost predicate Inv(h: Hub) {
    OneListener(h) && RunningMeansListened(h) && KeepsLiveWaiters(h) && Fresh(h) && SpawnersMatch(h)
  }

  /** After registering, the channel has a listener and no other channel gains or loses one. */
  lemma RegisterListens(h: Hub, channel: string, c: string)
    requires Fresh(h) && RunningMeansListened(h)
    ensures Listened(DoRegister(h, channel), c) <==> Listened(h, c) || c == channel
  {
    var h' := DoRegister(h, channel);
    assert Listened(h, c) <==> c in h.subs && h.subs[c].running;
    if Listened(h, c) {
      var t :| t in h.tasks && h.tasks[t].channel == c;
      assert t in h'.tasks && h'.tasks[t].channel == c;
    } else if c == channel {
      assert h.nextTask in h'.tasks && h'.tasks[h.nextTask].channel == c;
    }
  }

  lemma RegisterKeepsTasks(h: Hub, channel: string)
    requires Inv(h)
    ensures OneListener(DoRegister(h, channel)) && SpawnersMatch(DoRegister(h, channel))
  {
    assert Listened(h, channel) <==> channel in h.subs && h.subs[channel].running;
    hide KeepsLiveWaiters, RunningMeansListened;
  }

  lemma RegisterKeepsFresh(h: Hub, channel: string)
    requires Fresh(h)
    ensures Fresh(DoRegister(h, channel))
  {
    var h' := DoRegister(h, channel);
    forall c, w: nat | Listed(h', c, w)
      ensures w in h'.registered && h'.registered[w] == c
    {
      if c != channel || w != h.nextWaiter { assert Listed(h, c, w); }
    }
  }

  lemma RegisterKeepsWaiters(h: Hub, channel: string)
    requires KeepsLiveWaiters(h) && Fresh(h)
    ensures KeepsLiveWaiters(DoRegister(h, channel))
  {
    if channel in h.subs { assert h.subs[channel].waiters <= DoRegister(h, channel).subs[channel].waiters; }
  }

  lemma RegisterKeeps(h: Hub, channel: string)
    requires Inv(h)
    ensures Inv(DoRegister(h, channel))
  {
    var h' := DoRegister(h, channel);
    RegisterKeepsTasks(h, channel);
    RegisterKeepsWaiters(h, channel);
    RegisterKeepsFresh(h, channel);
    hide Listened, OneListener, KeepsLiveWaiters, SpawnersMatch;
    forall c
      ensures Listened(h', c) <==> c in h'.subs && h'.subs[c].running
    {
      RegisterListens(h, channel, c);
      assert Listened(h, c) <==> c in h.subs && h.subs[c].running;
    }
  }

  /** The waiters, their lists pruned or not at the channel and some of them dropped. */
  ghost predicate OnlyPruned(h: Hub, h': Hub, channel: string) {
    && h'.alive <= h.alive && h'.registered == h.registered && h'.stages.Keys == h.stages.Keys
    && h'.nextWaiter == h.nextWaiter && h'.nextTask == h.nextTask
    && h'.subs.Keys == h.subs.Keys
    && (forall c :: c in h.subs && c != channel ==> h'.subs[c] == h.subs[c])
    && (channel in h.subs ==>
          h'.subs[channel].waiters in {h.subs[channel].waiters, Prune(h.subs[channel].waiters, h.alive)})
  }

  lemma PruningKeeps(h: Hub, h': Hub, channel: string)
    requires Fresh(h) && KeepsLiveWaiters(h) && OnlyPruned(h, h', channel) && h'.tasks.Keys <= h.tasks.Keys
    ensures Fresh(h') && KeepsLiveWaiters(h')
  {
    assert forall c, w: nat :: Listed(h', c, w) ==> Listed(h, c, w);
  }

  /** Steps that keep the tasks and their channels, change phases, and only prune, keep everything. */
  lemma RephaseKeeps(h: Hub, h': Hub, channel: string)
    requires Inv(h) && OnlyPruned(h, h', channel)
    requires channel in h.subs ==> h'.subs[channel].running == h.subs[channel].running
    requires h'.tasks.Keys == h.tasks.Keys
    requires forall t :: t in h.tasks ==>
               && h'.tasks[t].channel == h.tasks[t].channel
               && (h'.tasks[t].phase == h.tasks[t].phase || !h'.tasks[t].phase.Committed?
                   || h'.tasks[t].phase.spawner.None?)
    ensures Inv(h')
  {
    PruningKeeps(h, h', channel);
    forall c
      ensures Listened(h', c) <==> c in h'.subs && h'.subs[c].running
    {
      assert Listened(h, c) <==> c in h.subs && h.subs[c].running;
      if Listened(h, c) {
        var t :| t in h.tasks && h.tasks[t].channel == c;
        assert t in h'.tasks && h'.tasks[t].channel == c;
      }
    }
  }

  /** A step that ends the task of a channel, leaving it absent or not running, keeps everything. */
  lemma EndingKeeps(h: Hub, h': Hub, task: nat)
    requires Inv(h) && task in h.tasks && h'.tasks == h.tasks - {task}
    requires Fresh(h') && KeepsLiveWaiters(h') && h'.registered == h.registered
    requires var channel := h.tasks[task].channel;
             && (channel in h'.subs ==> !h'.subs[channel].running)
             && (forall c :: c != channel ==> (c in h'.subs <==> c in h.subs))
             && (forall c :: c != channel && c in h.subs ==> h'.subs[c].running == h.subs[c].running)
    ensures Inv(h')
  {
    forall c
      ensures Listened(h', c) <==> c in h'.subs && h'.subs[c].running
    {
      assert Listened(h, c) <==> c in h.subs && h.subs[c].running;
      if Listened(h, c) && c != h.tasks[task].channel {
        var t :| t in h.tasks && h.tasks[t].channel == c;
        assert t in h'.tasks;
      }
    }
  }

  lemma FailKeeps(h: Hub, task: nat)
    requires Inv(h) && task in h.tasks
    ensures Inv(DoFail(h, task))
  {
    PruningKeeps(h, DoFail(h, task), h.tasks[task].channel);
    EndingKeeps(h, DoFail(h, task), task);
  }

  lemma CloseKeeps(h: Hub, task: nat)
    requires Inv(h) && task in h.tasks
    ensures Inv(DoClose(h, task))
  {
    var channel, h' := h.tasks[task].channel, DoClose(h, task);
    assert Listened(h, channel);
    if HasWaiters(h, channel) {
      RephaseKeeps(h, h', channel);
    } else {
      var kept := Prune(h.subs[channel].waiters, h.alive);
      forall w | w in h'.alive
        ensures w in h'.registered && Listed(h', h'.registered[w], w)
      {
        assert h.registered[w] == channel ==> w in kept;
      }
      assert forall c, w: nat :: Listed(h', c, w) ==> Listed(h, c, w);
      EndingKeeps(h, h', task);
    }
  }

  lemma PruneStepKeeps(h: Hub, m: Move)
    requires Inv(h) && (m.Deliver? || m.CheckWaiters?) && Ready(h, m)
    ensures Inv(Next(h, m))
  {
    hide Inv, Prune;
    RephaseKeeps(h, Next(h, m), h.tasks[m.task].channel);
  }

  lemma NextKeeps(h: Hub, m: Move)
    requires Inv(h)
    ensures Inv(Next(h, m))
  {
    hide Inv, DoRegister, DoFail, DoClose, DoDeliver, DoCheck, DoPublish;
    if Ready(h, m) {
      match m
      case Register(channel) => RegisterKeeps(h, channel);
      case ConnectFails(t) => FailKeeps(h, t);
      case Close(t) => CloseKeeps(h, t);
      case Deliver(t) => PruneStepKeeps(h, m);
      case CheckWaiters(t) => PruneStepKeeps(h, m);
      case _ => QuietKeeps(h, m);
    }
  }

  /** The steps that leave every list alone. */
  lemma QuietKeeps(h: Hub, m: Move)
    requires Inv(h) && Ready(h, m)
    requires !m.Register? && !m.ConnectFails? && !m.Close? && !m.Deliver? && !m.CheckWaiters?
    ensures Inv(Next(h, m))
  {
    assert h.stages.Keys == h.registered.Keys;
    RephaseKeeps(h, Next(h, m), "");
  }

  lemma {:induction false} RunKeeps(moves: seq<Move>)
    ensures Inv(Run(moves))
  {
    if moves != [] {
      RunKeeps(moves[..|moves| - 1]);
      NextKeeps(Run(moves[..|moves| - 1]), moves[|moves| - 1]);
    }
  }

  /**
   * In every interleaving of registrations, drops and listener steps: a channel is marked
   * running exactly when a listener is live or committed to it, there is never a second one, and
   * a channel without an entry has none.
   */
  lemma {:induction false} ExactlyOneListenerPerRunningChannel(moves: seq<Move>, channel: string)
    ensures var h := Run(moves);
            && (channel in h.subs && h.subs[channel].running <==> Listened(h, channel))
            && (forall a, b :: a in h.tasks && b in h.tasks && h.tasks[a].channel == channel == h.tasks[b].channel ==>
                  a == b)
  {
    RunKeeps(moves);
    var h := Run(moves);
    assert Listened(h, channel) <==> channel in h.subs && h.subs[channel].running;
  }

  /** No waiter whose Notify is alive ever leaves the list of the channel it registered on. */
  lemma {:induction false} LiveWaiterStaysListed(moves: seq<Move>, w: nat)
    requires w in Run(moves).alive
    ensures var h := Run(moves);
            w in h.registered && h.registered[w] in h.subs && w in h.subs[h.registered[w]].waiters
  {
    RunKeeps(moves);
  }

  // ---------------------------------------------------------------- a cancelled registration

  /** The channel is marked running but nothing listens on it. */
  ghost predicate Deaf(h: Hub, channel: string) {
    channel in h.subs && h.subs[channel].running && !Listened(h, channel)
  }

  lemma StaysDeaf(h: Hub, m: Move, channel: string)
    requires Deaf(h, channel)
    ensures Deaf(Next(h, m), channel)
  {
    assert forall t :: t in h.tasks ==> h.tasks[t].channel != channel;
  }

  /**
   * What the assumption that registrations complete is for: if the future of `register_waiter` is
   * dropped after it marked the channel running and before it spawned the listener, then
   * whatever is registered afterwards, the channel has no listener in any later state.
   */
  lemma {:induction false} CancelledRegistrationDeafens(moves: seq<Move>, w: nat, task: nat, later: seq<Move>)
    requires task in Run(moves).tasks && Run(moves).tasks[task].phase == Committed(Some(w))
    ensures var h := Run(moves);
            var cancelled := h.(tasks := h.tasks - {task}, alive := h.alive - {w});
            Deaf(RunFrom(cancelled, later), h.tasks[task].channel)
    decreases |later|
  {
    var h := Run(moves);
    var channel := h.tasks[task].channel;
    var cancelled := h.(tasks := h.tasks - {task}, alive := h.alive - {w});
    if later == [] {
      RunKeeps(moves);
      assert Listened(h, channel);
    } else {
      CancelledRegistrationDeafens(moves, w, task, later[..|later| - 1]);
      StaysDeaf(RunFrom(cancelled, later[..|later| - 1]), later[|later| - 1], channel);
    }
  }

  // ---------------------------------------------------------------- waking

  ghost predicate ListeningOn(h: Hub, channel: string) {
    exists t :: t in h.tasks && h.tasks[t].channel == channel && h.tasks[t].phase.Listening?
  }

  ghost predicate NothingQueued(h: Hub, channel: string) {
    forall t :: t in h.tasks && h.tasks[t].channel == channel && h.tasks[t].phase.Listening? ==>
      h.tasks[t].phase.queued == 0
  }

  /** The move hands a message of the channel to its waiters. */
  predicate Delivers(h: Hub, m: Move, channel: string) {
    m.Deliver? && Ready(h, m) && h.tasks[m.task].channel == channel
  }

  /**
   * What a message does, in every reachable state: it wakes exactly the waiters of the channel that
   * are alive and already awaiting.  One that is still registering is not woken by it.
   */
  lemma {:induction false} MessageWakesExactlyTheAwaiting(moves: seq<Move>, m: Move, channel: string, w: nat)
    requires Delivers(Run(moves), m, channel) && w in Run(moves).stages
    ensures var (h, h') := (Run(moves), Next(Run(moves), m));
            && w in h'.stages
            && h'.stages[w] == (if At(h, w, Awaiting) && w in h.registered && h.registered[w] == channel
                                then Woken else h.stages[w])
  {
    RunKeeps(moves);
    var h := Run(moves);
    assert Listed(h, channel, w) ==> w in h.registered && h.registered[w] == channel;
  }

  /** The waiter has not made its GET yet, or has not even registered. */
  predicate GetPending(h: Hub, w: nat) {
    w !in h.registered || (w in h.stages && h.stages[w].Registering?)
  }

  /**
   * The key is not acquired again, the waiter is not dropped, its GET does not fail, and the listener
   * of the channel neither fails to connect nor loses its stream.
   */
  predicate Harmless(h: Hub, m: Move, channel: string, w: nat) {
    && m != Acquire(channel) && m != DropWaiter(w) && m != GetFails(w)
    && ((m.ConnectFails? || m.StreamEnds?) && m.task in h.tasks ==> h.tasks[m.task].channel != channel)
  }

  ghost predicate Faultless(h: Hub, moves: seq<Move>, channel: string, w: nat) {
    forall k :: 0 <= k < |moves| ==> Harmless(RunFrom(h, moves[..k]), moves[k], channel, w)
  }

  lemma {:induction false} FaultlessBefore(h: Hub, moves: seq<Move>, n: nat, channel: string, w: nat)
    requires Faultless(h, moves, channel, w) && n <= |moves|
    ensures Faultless(h, moves[..n], channel, w)
  {
    forall k | 0 <= k < n
      ensures Harmless(RunFrom(h, moves[..n][..k]), moves[..n][k], channel, w)
    {
      assert moves[..n][..k] == moves[..k] && moves[..n][k] == moves[k];
    }
  }

  lemma {:induction false} RunFromKeeps(h: Hub, moves: seq<Move>)
    requires Inv(h)
    ensures Inv(RunFrom(h, moves))
    decreases |moves|
  {
    if moves != [] {
      RunFromKeeps(h, moves[..|moves| - 1]);
      NextKeeps(RunFrom(h, moves[..|moves| - 1]), moves[|moves| - 1]);
    }
  }

  /** The stage of a registered waiter after a move. */
  function StageAfter(h: Hub, m: Move, w: nat): Stage
    requires w in h.stages
  {
    if !Ready(h, m) then h.stages[w]
    else
      match m
      case Get(v) => if v == w then Checked(w in h.registered && h.registered[w] !in h.inFlight) else h.stages[w]
      case GetFails(v) => if v == w then Checked(false) else h.stages[w]
      case Await(v) => if v != w then h.stages[w] else if h.stages[w].permit then Woken else Awaiting
      case Deliver(t) => if At(h, w, Awaiting) && Listed(h, h.tasks[t].channel, w) then Woken else h.stages[w]
      case ConnectFails(t) => if At(h, w, Awaiting) && Listed(h, h.tasks[t].channel, w) then Woken else h.stages[w]
      case _ => h.stages[w]
  }

  lemma StageStep(h: Hub, m: Move, w: nat)
    requires Fresh(h) && w in h.registered
    ensures var h' := Next(h, m);
            && w in h'.registered && h'.registered[w] == h.registered[w]
            && w in h'.stages && h'.stages[w] == StageAfter(h, m, w)
            && (m != DropWaiter(w) && w in h.alive ==> w in h'.alive)
  {
    if m.Deliver? || m.ConnectFails? {
      NotifyingStep(h, m, w);
      hide Next, Fresh;
    } else {
      hide NotifiedAt, DoDeliver, DoFail, Unspawned, Prune;
    }
  }

  lemma NotifyingStep(h: Hub, m: Move, w: nat)
    requires Fresh(h) && w in h.registered && (m.Deliver? || m.ConnectFails?)
    ensures var h' := Next(h, m);
            && h'.registered == h.registered && h'.alive == h.alive
            && w in h'.stages && h'.stages[w] == StageAfter(h, m, w)
  {
    hide Prune;
  }

  /** A waiter that appears is registering, and a flight that is over stays over until the key is acquired. */
  lemma NewWaiter(h: Hub, m: Move, w: nat)
    requires Fresh(h)
    ensures var h' := Next(h, m);
            && (w !in h.registered && w in h'.registered ==> w in h'.stages && h'.stages[w].Registering?)
            && (forall c :: c !in h.inFlight && m != Acquire(c) ==> c !in h'.inFlight)
  {
  }

  /** The flight is over and the waiter's GET is to come, or has seen that. */
  ghost predicate Promised(h: Hub, channel: string, w: nat) {
    && channel !in h.inFlight
    && (w in h.registered && h.registered[w] == channel ==>
          w in h.stages && h.stages[w] in {Registering, Checked(true), Woken})
  }

  lemma PromisedStep(h: Hub, m: Move, channel: string, w: nat)
    requires Inv(h) && Promised(h, channel, w) && Harmless(h, m, channel, w)
    ensures Promised(Next(h, m), channel, w)
  {
    if w in h.registered {
      StageStep(h, m, w);
      NewWaiter(h, m, w);
      hide Inv, Next;
    } else {
      NewWaiter(h, m, w);
      hide Inv, Next;
    }
  }

  lemma {:induction false} PromisedRun(h: Hub, moves: seq<Move>, channel: string, w: nat)
    requires Inv(h) && Promised(h, channel, w) && Faultless(h, moves, channel, w)
    ensures Promised(RunFrom(h, moves), channel, w)
    decreases |moves|
  {
    if moves != [] {
      var n := |moves| - 1;
      FaultlessBefore(h, moves, n, channel, w);
      PromisedRun(h, moves[..n], channel, w);
      RunFromKeeps(h, moves[..n]);
      hide Inv, Promised;
      PromisedStep(RunFrom(h, moves[..n]), moves[n], channel, w);
    }
  }

  /** The flight is over, no message of it is left, and the waiter's GET did not see the end. */
  ghost predicate Missed(h: Hub, channel: string, w: nat) {
    && channel !in h.inFlight && NothingQueued(h, channel)
    && w in h.registered && h.registered[w] == channel
    && w in h.stages && h.stages[w] in {Checked(false), Awaiting}
  }

  lemma MissedStep(h: Hub, m: Move, channel: string, w: nat)
    requires Inv(h) && Missed(h, channel, w) && Harmless(h, m, channel, w)
    ensures Missed(Next(h, m), channel, w)
  {
    assert forall c :: Listed(h, c, w) ==> c == channel;
    StageStep(h, m, w);
    QueuesStayEmpty(h, m, channel);
    EmptyQueueDelivers(h, m, channel);
    hide Inv, Next, NothingQueued;
  }

  lemma EmptyQueueDelivers(h: Hub, m: Move, channel: string)
    requires NothingQueued(h, channel)
    ensures m.Deliver? && Ready(h, m) ==> h.tasks[m.task].channel != channel
  {
  }

  lemma QueuesStayEmpty(h: Hub, m: Move, channel: string)
    requires NothingQueued(h, channel) && channel !in h.inFlight
    ensures NothingQueued(Next(h, m), channel) && (m != Acquire(channel) ==> channel !in Next(h, m).inFlight)
  {
  }

  lemma {:induction false} MissedRun(h: Hub, moves: seq<Move>, channel: string, w: nat)
    requires Inv(h) && Missed(h, channel, w) && Faultless(h, moves, channel, w)
    ensures Missed(RunFrom(h, moves), channel, w)
    decreases |moves|
  {
    if moves != [] {
      var n := |moves| - 1;
      FaultlessBefore(h, moves, n, channel, w);
      MissedRun(h, moves[..n], channel, w);
      RunFromKeeps(h, moves[..n]);
      hide Inv, Missed;
      MissedStep(RunFrom(h, moves[..n]), moves[n], channel, w);
    }
  }

  /** A live waiter past its GET, and a listener that is subscribed to its channel. */
  ghost predicate Heard(h: Hub, channel: string, w: nat, task: nat) {
    && w in h.alive && w in h.registered && h.registered[w] == channel
    && w in h.stages && h.stages[w] in {Checked(false), Awaiting, Woken}
    && task in h.tasks && h.tasks[task].channel == channel && h.tasks[task].phase.Listening?
  }

  /** What being heard means for the lists and the tasks of the channel. */
  lemma HeardFacts(h: Hub, channel: string, w: nat, task: nat)
    requires Inv(h) && Heard(h, channel, w, task)
    ensures Listed(h, channel, w) && HasWaiters(h, channel) && w < h.nextWaiter && task < h.nextTask
    ensures forall c :: Listed(h, c, w) ==> c == channel
    ensures forall t :: t in h.tasks && h.tasks[t].channel == channel ==> t == task
    ensures !Unspawned(h, w)
  {
    assert Listed(h, channel, w);
    assert w in Prune(h.subs[channel].waiters, h.alive);
  }

  predicate OnTask(m: Move, task: nat) {
    (m.Spawn? || m.ConnectFails? || m.Subscribe? || m.Deliver? || m.CheckWaiters? || m.StreamEnds? || m.Close?)
    && m.task == task
  }

  /** A move of another task leaves a task alone, but for a message it is subscribed to. */
  lemma OtherTask(h: Hub, m: Move, task: nat)
    requires task in h.tasks && task < h.nextTask && !OnTask(m, task)
    ensures task in Next(h, m).tasks
    ensures Next(h, m).tasks[task] ==
            if m.Publish? && Ready(h, m) && m.channel == h.tasks[task].channel && h.tasks[task].phase.Listening?
            then h.tasks[task].(phase := Listening(h.tasks[task].phase.queued + 1)) else h.tasks[task]
  {
  }

  /** A listener with waiters stays subscribed through messages and checks. */
  lemma OwnTask(h: Hub, m: Move, channel: string, task: nat)
    requires task in h.tasks && h.tasks[task].phase.Listening? && h.tasks[task].channel == channel
    requires HasWaiters(h, channel) && OnTask(m, task) && !m.StreamEnds?
    ensures task in Next(h, m).tasks && Next(h, m).tasks[task].channel == channel
    ensures Next(h, m).tasks[task].phase ==
            if Delivers(h, m, channel) then Listening(h.tasks[task].phase.queued - 1) else h.tasks[task].phase
  {
  }

  lemma HeardTaskStays(h: Hub, m: Move, channel: string, w: nat, task: nat)
    requires Inv(h) && Heard(h, channel, w, task) && Harmless(h, m, channel, w)
    ensures var h' := Next(h, m);
            && task in h'.tasks && h'.tasks[task].channel == channel && h'.tasks[task].phase.Listening?
            && (!Delivers(h, m, channel) ==> h'.tasks[task].phase.queued >= h.tasks[task].phase.queued)
  {
    HeardFacts(h, channel, w, task);
    if OnTask(m, task) {
      OwnTask(h, m, channel, task);
    } else {
      OtherTask(h, m, task);
    }
    hide Inv, Next, Unspawned;
  }

  lemma HeardStageMoves(h: Hub, m: Move, channel: string, w: nat, task: nat)
    requires Inv(h) && Heard(h, channel, w, task) && Harmless(h, m, channel, w)
    ensures var h' := Next(h, m);
            && w in h'.alive && w in h'.registered && h'.registered[w] == channel && w in h'.stages
            && h'.stages[w] == (if Delivers(h, m, channel) && h.stages[w].Awaiting? then Woken
                                else if m == Await(w) && h.stages[w].Checked? then Awaiting
                                else h.stages[w])
  {
    HeardFacts(h, channel, w, task);
    StageStep(h, m, w);
    hide Inv, Next, HasWaiters;
  }

  /** While a waiter lives its listener stays, and the waiter is woken only by its messages. */
  lemma HeardStep(h: Hub, m: Move, channel: string, w: nat, task: nat)
    requires Inv(h) && Heard(h, channel, w, task) && Harmless(h, m, channel, w)
    ensures Heard(Next(h, m), channel, w, task)
    ensures Next(h, m).stages[w] ==
            if Delivers(h, m, channel) && h.stages[w].Awaiting? then Woken
            else if m == Await(w) && h.stages[w].Checked? then Awaiting
            else h.stages[w]
    ensures !Delivers(h, m, channel) ==> Next(h, m).tasks[task].phase.queued >= h.tasks[task].phase.queued
  {
    HeardTaskStays(h, m, channel, w, task);
    HeardStageMoves(h, m, channel, w, task);
    hide Inv, Next, Delivers;
  }

  lemma {:induction false} HeardRun(h: Hub, moves: seq<Move>, channel: string, w: nat, task: nat)
    requires Inv(h) && Heard(h, channel, w, task) && Faultless(h, moves, channel, w)
    ensures Heard(RunFrom(h, moves), channel, w, task)
    decreases |moves|
  {
    if moves != [] {
      var n := |moves| - 1;
      FaultlessBefore(h, moves, n, channel, w);
      HeardRun(h, moves[..n], channel, w, task);
      RunFromKeeps(h, moves[..n]);
      hide Inv, Heard;
      HeardStep(RunFrom(h, moves[..n]), moves[n], channel, w, task);
    }
  }

  /** Some message of the channel is delivered in the run. */
  ghost predicate DeliveredIn(h: Hub, moves: seq<Move>, channel: string) {
    moves != [] &&
    var before := moves[..|moves| - 1];
    DeliveredIn(h, before, channel) || Delivers(RunFrom(h, before), moves[|moves| - 1], channel)
  }

  /** Some message of the channel is delivered in the run after the waiter began to await in it. */
  ghost predicate AwaitsInTime(h: Hub, moves: seq<Move>, channel: string, w: nat) {
    moves != [] &&
    var before := moves[..|moves| - 1];
    || AwaitsInTime(h, before, channel, w)
    || (Await(w) in before && Delivers(RunFrom(h, before), moves[|moves| - 1], channel))
  }

  /** A message that is queued stays queued until one is delivered. */
  lemma {:induction false} QueuedUntilDelivered(h: Hub, moves: seq<Move>, channel: string, w: nat, task: nat)
    requires Inv(h) && Heard(h, channel, w, task) && Faultless(h, moves, channel, w)
    requires !DeliveredIn(h, moves, channel)
    ensures Heard(RunFrom(h, moves), channel, w, task)
    ensures RunFrom(h, moves).tasks[task].phase.queued >= h.tasks[task].phase.queued
    decreases |moves|
  {
    HeardRun(h, moves, channel, w, task);
    if moves != [] {
      var n := |moves| - 1;
      FaultlessBefore(h, moves, n, channel, w);
      QueuedUntilDelivered(h, moves[..n], channel, w, task);
      RunFromKeeps(h, moves[..n]);
      HeardStep(RunFrom(h, moves[..n]), moves[n], channel, w, task);
    }
  }

  /** What a heard waiter goes through: nothing, its own wait, and the first message after it. */
  lemma {:induction false} HeardFate(h: Hub, moves: seq<Move>, channel: string, w: nat, task: nat)
    requires Inv(h) && Heard(h, channel, w, task) && !h.stages[w].Woken? && Faultless(h, moves, channel, w)
    ensures Heard(RunFrom(h, moves), channel, w, task)
    ensures RunFrom(h, moves).stages[w].Woken? <==>
            if h.stages[w].Awaiting? then DeliveredIn(h, moves, channel) else AwaitsInTime(h, moves, channel, w)
    ensures RunFrom(h, moves).stages[w].Checked? <==> h.stages[w].Checked? && Await(w) !in moves
    decreases |moves|
  {
    if moves != [] {
      var n := |moves| - 1;
      FaultlessBefore(h, moves, n, channel, w);
      HeardFate(h, moves[..n], channel, w, task);
      RunFromKeeps(h, moves[..n]);
      HeardRun(h, moves[..n], channel, w, task);
      assert moves == moves[..n] + [moves[n]];
      assert Harmless(RunFrom(h, moves[..n]), moves[n], channel, w);
      HeardStep(RunFrom(h, moves[..n]), moves[n], channel, w, task);
      assert RunFrom(h, moves) == Next(RunFrom(h, moves[..n]), moves[n]);
      hide Inv, Next, Faultless, Delivers, RunFrom;
    }
  }

  /**
   * The waiter's fate, exactly.  A key's flight ends with a publish in any reachable state; then
   * any moves follow without a fault, until the waiter awaits or was woken and no message of the
   * channel is left.  The waiter was woken if and only if its GET was still to come at the publish;
   * or a listener was subscribed at the publish, and the waiter awaited already or
   * began to before the last message was delivered.
   */
  lemma {:induction false} WokenExactlyWhen(moves: seq<Move>, channel: string, w: nat, later: seq<Move>)
    requires var h := Run(moves);
             && channel in h.inFlight
             && (w in h.registered ==> w in h.alive && w in h.stages && h.registered[w] == channel
                                       && !h.stages[w].Woken? && h.stages[w] != Checked(true))
    requires Faultless(Next(Run(moves), Publish(channel)), later, channel, w)
    requires var e := RunFrom(Next(Run(moves), Publish(channel)), later);
             && w in e.registered && e.registered[w] == channel && NothingQueued(e, channel)
             && w in e.stages && !e.stages[w].Registering? && !e.stages[w].Checked?
    ensures var h := Run(moves);
            var published := Next(h, Publish(channel));
            RunFrom(published, later).stages[w].Woken? <==>
            || GetPending(h, w)
            || (ListeningOn(h, channel)
                && (h.stages[w].Awaiting? || AwaitsInTime(published, later, channel, w)))
  {
    var h := Run(moves);
    var published := Next(h, Publish(channel));
    RunKeeps(moves);
    NextKeeps(h, Publish(channel));
    RunFromKeeps(published, later);
    if GetPending(h, w) {
      PromisedRun(published, later, channel, w);
    } else if ListeningOn(h, channel) {
      var t :| t in h.tasks && h.tasks[t].channel == channel && h.tasks[t].phase.Listening?;
      hide Faultless, AwaitsInTime, DeliveredIn;
      HeardFate(published, later, channel, w, t);
      if !DeliveredIn(published, later, channel) { QueuedUntilDelivered(published, later, channel, w, t); }
      assert published.tasks[t].phase.queued > 0;
    } else {
      hide Faultless, AwaitsInTime;
      MissedRun(published, later, channel, w);
    }
  }

  // ---------------------------------------------------------------- when a listener ends

  /** Some waiter of the channel is alive. */
  ghost predicate Wanted(h: Hub, channel: string) {
    exists w :: w in h.alive && w in h.registered && h.registered[w] == channel
  }

  lemma WantedMeansWaiters(h: Hub, channel: string)
    requires Inv(h)
    ensures HasWaiters(h, channel) <==> Wanted(h, channel)
  {
    if Wanted(h, channel) {
      var w :| w in h.alive && w in h.registered && h.registered[w] == channel;
      assert Listed(h, channel, w);
      assert w in Prune(h.subs[channel].waiters, h.alive);
    }
    if HasWaiters(h, channel) {
      var kept := Prune(h.subs[channel].waiters, h.alive);
      assert kept[0] in kept;
      assert Listed(h, channel, kept[0]);
    }
  }

  /** A listener stops listening exactly when its stream ends, or a check or message finds no live waiter. */
  lemma {:induction false} StopsExactlyWhen(moves: seq<Move>, m: Move)
    requires (m.CheckWaiters? || m.Deliver? || m.StreamEnds?) && Ready(Run(moves), m)
    ensures var (h, h') := (Run(moves), Next(Run(moves), m));
            && m.task in h'.tasks
            && (h'.tasks[m.task].phase.Closing? <==> m.StreamEnds? || !Wanted(h, h.tasks[m.task].channel))
            && (h'.tasks[m.task].phase.Closing? || h'.tasks[m.task].phase.Listening?)
  {
    RunKeeps(moves);
    WantedMeansWaiters(Run(moves), Run(moves).tasks[m.task].channel);
    hide Inv, Run, Wanted;
  }

  /** A listener that closes commits to its successor exactly while a live waiter wants the channel. */
  lemma {:induction false} RespawnsExactlyWhen(moves: seq<Move>, task: nat)
    requires Ready(Run(moves), Close(task))
    ensures var (h, h') := (Run(moves), Next(Run(moves), Close(task)));
            var channel := h.tasks[task].channel;
            if Wanted(h, channel)
            then task in h'.tasks && h'.tasks[task] == Task(channel, Committed(None)) && channel in h'.subs
            else channel !in h'.subs && !Listened(h', channel)
  {
    var h := Run(moves);
    var channel := h.tasks[task].channel;
    RunKeeps(moves);
    WantedMeansWaiters(h, channel);
    assert Listened(h, channel);
    hide Run, Wanted;
  }

  /** A waiter that was dropped leaves the list at the next check of its listener. */
  lemma {:induction false} DroppedWaiterIsForgotten(moves: seq<Move>, w: nat, task: nat)
    requires w in Run(moves).registered && !Unspawned(Run(moves), w)
    requires Ready(Run(moves), CheckWaiters(task)) && Run(moves).tasks[task].channel == Run(moves).registered[w]
    ensures !Listed(Next(Next(Run(moves), DropWaiter(w)), CheckWaiters(task)), Run(moves).registered[w], w)
  {
    hide Run;
  }

  /** A flight that expired is seen by the GET of a waiter, as one that was completed is. */
  lemma ExpiredFlightIsSeen(h: Hub, channel: string, w: nat)
    requires Ready(h, Expire(channel)) && Ready(h, Get(w)) && w in h.registered && h.registered[w] == channel
    ensures Next(Next(h, Expire(channel)), Get(w)).stages == h.stages[w := Checked(true)]
  {
  }

  // ---------------------------------------------------------------- wake-ups that are lost

  lemma RunOneMore(moves: seq<Move>, m: Move)
    ensures Run(moves + [m]) == Next(Run(moves), m)
  {
    assert (moves + [m])[..|moves + [m]| - 1] == moves;
  }

  /** The key is in flight; waiter 0 registered, saw that, spawned listener 0 and awaits. */
  function Opening(channel: string): seq<Move> {
    [Acquire(channel)] + [Register(channel)] + [Get(0)] + [Spawn(0)] + [Await(0)]
  }

  /** One channel with its waiters' stages and its one listener. */
  function OneChannel(channel: string, waiters: seq<nat>, stages: map<nat, Stage>, inFlight: set<string>,
                      phase: Phase): Hub {
    Hub(map[channel := Subscription(waiters, true)], set w | w in waiters, map w | w in waiters :: channel,
        stages, inFlight, map[0 := Task(channel, phase)], |waiters|, 1)
  }

  lemma AfterFirstGet(channel: string)
    ensures Run([Acquire(channel)] + [Register(channel)] + [Get(0)]) ==
            OneChannel(channel, [0], map[0 := Checked(false)], {channel}, Committed(Some(0)))
  {
    var m := [Acquire(channel)];
    RunOneMore([], m[0]);
    var none: seq<nat> := [];
    assert [] + m == m && none + [0] == [0];
    var h := Run(m);
    assert h == START.(inFlight := {channel});
    RunOneMore(m, Register(channel));
    RunOneMore(m + [Register(channel)], Get(0));
    hide RunFrom, Run, Unspawned;
    assert DoRegister(h, channel) ==
           OneChannel(channel, [0], map[0 := Registering], {channel}, Committed(Some(0)));
  }

  lemma AfterOpening(channel: string)
    ensures Run(Opening(channel)) == OneChannel(channel, [0], map[0 := Awaiting], {channel}, Connecting)
  {
    var m := [Acquire(channel)] + [Register(channel)] + [Get(0)];
    AfterFirstGet(channel);
    RunOneMore(m, Spawn(0));
    RunOneMore(m + [Spawn(0)], Await(0));
    hide RunFrom, Run;
    assert Run(m + [Spawn(0)]) == OneChannel(channel, [0], map[0 := Checked(false)], {channel}, Connecting);
  }

  /**
   * A wake-up lost before the listener subscribes: the completion falls between the waiter's GET and
   * the subscription.  The listener then runs and checks its waiters, the key is no longer in
   * flight, and the waiter sleeps until its timeout.
   */
  lemma LostBeforeSubscribing(channel: string)
    ensures var h := Run(Opening(channel) + [Publish(channel)] + [Subscribe(0)] + [CheckWaiters(0)]);
            && At(h, 0, Awaiting) && channel !in h.inFlight
            && 0 in h.tasks && h.tasks[0] == Task(channel, Listening(0))
  {
    AfterOpening(channel);
    var m := Opening(channel);
    RunOneMore(m, Publish(channel));
    RunOneMore(m + [Publish(channel)], Subscribe(0));
    RunOneMore(m + [Publish(channel)] + [Subscribe(0)], CheckWaiters(0));
    hide RunFrom, Run, Opening;
    var h := Run(m + [Publish(channel)] + [Subscribe(0)]);
    assert h == OneChannel(channel, [0], map[0 := Awaiting], {}, Listening(0));
    assert 0 in Prune([0], h.alive);
  }

  /**
   * A wake-up lost although the listener is subscribed: waiter 1 made its GET, the completion is
   * published and delivered, and only then does waiter 1 begin to await.
   */
  lemma LostBeforeAwaiting(channel: string)
    ensures var h := Run(Opening(channel) + [Subscribe(0)] + [Register(channel)] + [Get(1)]
                         + [Publish(channel)] + [Deliver(0)] + [Await(1)]);
            && At(h, 0, Woken) && At(h, 1, Awaiting) && channel !in h.inFlight
            && 0 in h.tasks && h.tasks[0] == Task(channel, Listening(0))
  {
    MessageIsGone(channel);
    var n := Opening(channel) + [Subscribe(0)] + [Register(channel)] + [Get(1)] + [Publish(channel)] + [Deliver(0)];
    RunOneMore(n, Await(1));
    hide RunFrom, Run, Opening;
  }

  lemma MessageIsGone(channel: string)
    ensures Run(Opening(channel) + [Subscribe(0)] + [Register(channel)] + [Get(1)] + [Publish(channel)] + [Deliver(0)])
            == OneChannel(channel, [0, 1], map[0 := Woken, 1 := Checked(false)], {}, Listening(0))
  {
    var n := Opening(channel) + [Subscribe(0)] + [Register(channel)] + [Get(1)];
    SecondWaiterChecked(channel);
    RunOneMore(n, Publish(channel));
    RunOneMore(n + [Publish(channel)], Deliver(0));
    PublishedToSubscriber(channel);
    DeliveredToFirst(channel);
    hide RunFrom, Run, Opening, DoPublish, DoDeliver;
  }

  lemma PublishedToSubscriber(channel: string)
    ensures var stages := map[0 := Awaiting, 1 := Checked(false)];
            DoPublish(OneChannel(channel, [0, 1], stages, {channel}, Listening(0)), channel) ==
            OneChannel(channel, [0, 1], stages, {}, Listening(1))
  {
  }

  lemma DeliveredToFirst(channel: string)
    ensures DoDeliver(OneChannel(channel, [0, 1], map[0 := Awaiting, 1 := Checked(false)], {}, Listening(1)), 0) ==
            OneChannel(channel, [0, 1], map[0 := Woken, 1 := Checked(false)], {}, Listening(0))
  {
    assert [0, 1][1..] == [1] && [1][1..] == [];
    assert Prune([1], {0, 1}) == [1] && Prune([0, 1], {0, 1}) == [0, 1];
    var h := OneChannel(channel, [0, 1], map[0 := Awaiting, 1 := Checked(false)], {}, Listening(1));
    assert h.alive == {0, 1};
    hide Prune;
    assert NotifiedAt(h, channel).stages == map[0 := Woken, 1 := Checked(false)];
  }

  lemma SecondWaiterChecked(channel: string)
    ensures Run(Opening(channel) + [Subscribe(0)] + [Register(channel)] + [Get(1)]) ==
            OneChannel(channel, [0, 1], map[0 := Awaiting, 1 := Checked(false)], {channel}, Listening(0))
  {
    var m := Opening(channel);
    AfterOpening(channel);
    RunOneMore(m, Subscribe(0));
    RunOneMore(m + [Subscribe(0)], Register(channel));
    RunOneMore(m + [Subscribe(0)] + [Register(channel)], Get(1));
    hide RunFrom, Run, Opening, Unspawned;
    var h := Run(m + [Subscribe(0)]);
    assert h == OneChannel(channel, [0], map[0 := Awaiting], {channel}, Listening(0));
    assert [0] + [1] == [0, 1];
    assert DoRegister(h, channel) ==
           OneChannel(channel, [0, 1], map[0 := Awaiting, 1 := Registering], {channel}, Listening(0));
  }
}
