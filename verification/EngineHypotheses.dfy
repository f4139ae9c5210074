/**
 * Why the serial order of interleaved calls needs its hypotheses: for each of three of them a run that
 * meets all the others and ends in a way that no serial order of its calls explains.
 */
module EngineHypotheses {
  import opened Wrappers
  import opened StableJson
  import opened Engine
  import opened EngineRuns
  import opened EngineProtocol

  // ------------------------------------------------------------ waived hypotheses

  /** Which hypotheses are kept: on the lock, on request ids, and on activations apart from critical sections. */
  datatype Kept = Kept(timely: bool, distinct: bool, apart: bool)

  const UNTIMELY := Kept(false, true, true)
  const TWINS := Kept(true, false, true)
  const ACTIVATED := Kept(true, true, false)

  /** The hypotheses on a move, but for the ones that are waived. */
  ghost predicate AllowedWith(w: World, m: Move, kept: Kept) {
    match m
    case Begin(token, action) =>
      token !in w.calls
      && (kept.distinct ==>
            forall t | t in w.calls && !w.calls[t].pc.Ended() :: w.calls[t].action.requestId != action.requestId)
    case Advance(token, nowMs, laterMs) =>
      token in w.calls && w.clock <= nowMs <= laterMs && (kept.timely ==> Timely(w, laterMs))
    case ActivateMatch(nowMs) =>
      w.clock <= nowMs && (kept.timely ==> Timely(w, nowMs))
      && (kept.apart ==> forall t | t in w.calls :: !w.calls[t].pc.Working())
    case ExpireAnswer(_) => true
  }

  ghost predicate AllowedRunWith(plugins: map<string, Plugin>, w: World, moves: seq<Move>, kept: Kept)
    decreases |moves|
  {
    moves == []
    || (AllowedWith(w, moves[0], kept)
        && AllowedRunWith(plugins, Next(plugins, w, moves[0]), moves[1..], kept))
  }

  /** With all hypotheses these are the runs of the serial order theorem. */
  lemma {:induction false} NothingWaived(plugins: map<string, Plugin>, w: World, moves: seq<Move>)
    ensures AllowedRunWith(plugins, w, moves, Kept(true, true, true)) <==> AllowedRun(plugins, w, moves)
    decreases |moves|
  {
    hide Next;
    if moves != [] {
      NothingWaived(plugins, Next(plugins, w, moves[0]), moves[1..]);
    }
  }

  lemma {:induction false} AllowedConcat(plugins: map<string, Plugin>, w: World, a: seq<Move>, b: seq<Move>,
                                         kept: Kept)
    requires AllowedRunWith(plugins, w, a, kept)
    requires AllowedRunWith(plugins, RunMoves(plugins, w, a), b, kept)
    ensures AllowedRunWith(plugins, w, a + b, kept)
    decreases |a|
  {
    hide Next, AllowedWith;
    if a == [] {
      assert a + b == b;
    } else {
      assert (a + b)[1..] == a[1..] + b;
      AllowedConcat(plugins, Next(plugins, w, a[0]), a[1..], b, kept);
    }
  }

  /** A serial order of exactly these calls and background events with these answers that leaves this data. */
  ghost predicate Explains(plugins: map<string, Plugin>, start: Data, v: World, background: seq<Event>,
                           history: seq<Entry>)
  {
    && HistoryOk(v.(history := history)) && Unclaimed(history) == background
    && Answered(plugins, start, history) && ReplayHistory(plugins, start, history) == v.data
  }

  // --------------------------------------------------------------- a smallest game

  function Items(s: Json): seq<Json> {
    if s.Arr? then s.items else []
  }

  /** The state is a list that every action and every consumed turn makes longer by one. */
  function Counter(): Plugin {
    Plugin("1.0.0", None,
      (_, _) => Arr([]),
      s => |Items(s)|,
      s => Arr(Items(s) + [Null]),
      (_, _) => Valid,
      (s, _) => (Arr(Items(s) + [Null]), Null),
      s => (s, None),
      (_, _, _) => Analytics("p", "first", 0))
  }

  /** The same, but for actions, which change nothing and take no turn. */
  function Idle(): Plugin {
    Counter().(applyAction := (s, _) => (s, Null))
  }

  function Games(): map<string, Plugin> {
    map["counter" := Counter(), "idle" := Idle()]
  }

  /** A match of this game as it was started, before it is activated. */
  function Fresh(gameId: string): Data {
    Data(Some(Arr([])), Some(Meta(Some(gameId), None, None, None, Some(0), Some(0), None, None)), map[])
  }

  function QuietWorld(gameId: string): World {
    World(Fresh(gameId), None, 0, map[], [])
  }

  lemma FreshIsConsistent()
    ensures PluginLaws(Counter()) && PluginLaws(Idle())
    ensures forall g | g in Games() :: Consistent(Games(), Fresh(g)) && Quiet(Fresh(g), QuietWorld(g))
  {
  }

  function Turns(n: nat): Option<Json> {
    Some(Arr(seq(n, _ => Null)))
  }

  /** A success is a success of the game: one more item, marked, filed under its id. */
  lemma CounterDecides(data: Data, action: Action, checkedAtMs: int, savedAtMs: int, n: nat)
    requires data.state == Turns(n) && data.meta.Some? && data.meta.value.gameId == Some("counter")
    ensures var plan := Decide(Games(), data.meta, data.state, action, checkedAtMs, savedAtMs);
      plan.response.Success? ==>
        && plan.state == Turns(n + 1) && plan.mark && plan.response.requestId == action.requestId
        && plan.meta.Some? && plan.meta.value.gameId == Some("counter")
        && Mark(SaveMeta(SaveState(data, plan), plan), action.requestId, plan).meta == plan.meta
  {
    assert seq(n, _ => Null) + [Null] == seq(n + 1, _ => Null);
    hide NonBlank;
  }

  /** Without a turn clock, or with one set at the same moment, nothing expires and every action succeeds. */
  lemma CounterSucceeds(data: Data, action: Action, nowMs: int, n: nat)
    requires data.state == Turns(n) && data.meta.Some? && data.meta.value.gameId == Some("counter")
    requires data.meta.value.turnStartedAtMs == None || data.meta.value.turnStartedAtMs == Some(nowMs)
    ensures Decide(Games(), data.meta, data.state, action, nowMs, nowMs).response.Success?
    ensures var plan := Decide(Games(), data.meta, data.state, action, nowMs, nowMs);
      plan.meta.Some? && (plan.meta.value.turnStartedAtMs == Some(nowMs))
  {
    hide NonBlank;
  }

  // ------------------------------------------------------------------ runs of calls

  function Steps(token: int, nowMs: int, n: nat): seq<Move> {
    if n == 0 then [] else [Advance(token, nowMs, nowMs)] + Steps(token, nowMs, n - 1)
  }

  lemma StepsOnce(plugins: map<string, Plugin>, w: World, token: int, nowMs: int, n: nat)
    requires n > 0
    ensures RunMoves(plugins, w, Steps(token, nowMs, n))
         == RunMoves(plugins, Next(plugins, w, Advance(token, nowMs, nowMs)), Steps(token, nowMs, n - 1))
  {
    hide Next;
    assert Steps(token, nowMs, n)[1..] == Steps(token, nowMs, n - 1);
  }

  lemma NoSteps(plugins: map<string, Plugin>, w: World, token: int, nowMs: int)
    ensures RunMoves(plugins, w, Steps(token, nowMs, 0)) == w
  {
  }

  /** A free lock is taken and everything read: three moves. */
  lemma TakesAndReads(plugins: map<string, Plugin>, w: World, u: int, nowMs: int)
    requires u in w.calls && w.calls[u].pc.Locking? && LockFree(w.lock, nowMs)
    ensures var v := RunMoves(plugins, w, Steps(u, nowMs, 3));
      && v.data == w.data && v.lock == Some(Lock(u, nowMs + w.calls[u].pc.ttlSeconds * 1000))
      && v.calls == w.calls[u := w.calls[u].(pc := Deciding(w.data.meta, w.data.state))]
  {
    hide RunMoves, Steps, Decide, Served, Release, TurnTimeoutSeconds, SaveState, SaveMeta, Mark;
    var w1 := Next(plugins, w, Advance(u, nowMs, nowMs));
    var w2 := Next(plugins, w1, Advance(u, nowMs, nowMs));
    var w3 := Next(plugins, w2, Advance(u, nowMs, nowMs));
    StepsOnce(plugins, w, u, nowMs, 3);
    StepsOnce(plugins, w1, u, nowMs, 2);
    StepsOnce(plugins, w2, u, nowMs, 1);
    NoSteps(plugins, w3, u, nowMs);
  }

  /** A call that has read decides and saves the state: two moves. */
  lemma DecidesAndSaves(plugins: map<string, Plugin>, w: World, t: int, nowMs: int, meta: Option<Meta>,
                        state: Option<Json>)
    requires t in w.calls && w.calls[t].pc == Deciding(meta, state)
    requires Decide(plugins, meta, state, w.calls[t].action, nowMs, nowMs).mark
    ensures var action := w.calls[t].action;
      var plan := Decide(plugins, meta, state, action, nowMs, nowMs);
      var v := Next(plugins, Next(plugins, w, Advance(t, nowMs, nowMs)), Advance(t, nowMs, nowMs));
      && v.data == SaveState(w.data, plan) && v.lock == w.lock
      && v.calls == w.calls[t := Caller(action, SavingMeta(plan, Call(action, nowMs, nowMs)))]
  {
    hide Decide, Served, LockFree, Release, TurnTimeoutSeconds, SaveState, SaveMeta, Mark;
  }

  /** Then it saves the meta and files its answer: two more. */
  lemma SavesAndMarks(plugins: map<string, Plugin>, w: World, t: int, nowMs: int, plan: Plan, event: Event)
    requires t in w.calls && w.calls[t].pc == SavingMeta(plan, event)
    ensures var v := Next(plugins, Next(plugins, w, Advance(t, nowMs, nowMs)), Advance(t, nowMs, nowMs));
      && v.data == Mark(SaveMeta(w.data, plan), w.calls[t].action.requestId, plan) && v.lock == w.lock
      && v.calls == w.calls[t := w.calls[t].(pc := Releasing(plan.response))]
  {
    hide Decide, Served, LockFree, Release, TurnTimeoutSeconds, SaveState, SaveMeta, Mark;
  }

  /** A call that has read decides and makes its writes: four moves. */
  lemma DecidesAndWrites(plugins: map<string, Plugin>, w: World, t: int, nowMs: int, meta: Option<Meta>,
                         state: Option<Json>)
    requires t in w.calls && w.calls[t].pc == Deciding(meta, state)
    requires Decide(plugins, meta, state, w.calls[t].action, nowMs, nowMs).mark
    ensures var plan := Decide(plugins, meta, state, w.calls[t].action, nowMs, nowMs);
      var v := RunMoves(plugins, w, Steps(t, nowMs, 4));
      && v.data == Mark(SaveMeta(SaveState(w.data, plan), plan), w.calls[t].action.requestId, plan)
      && v.lock == w.lock && v.calls == w.calls[t := w.calls[t].(pc := Releasing(plan.response))]
  {
    hide RunMoves, Steps, Next, Decide, SaveState, SaveMeta, Mark;
    var w1 := Next(plugins, w, Advance(t, nowMs, nowMs));
    var w2 := Next(plugins, w1, Advance(t, nowMs, nowMs));
    var w3 := Next(plugins, w2, Advance(t, nowMs, nowMs));
    DecidesAndSaves(plugins, w, t, nowMs, meta, state);
    SavesAndMarks(plugins, w2, t, nowMs, w2.calls[t].pc.plan, w2.calls[t].pc.event);
    StepsOnce(plugins, w, t, nowMs, 4);
    StepsOnce(plugins, w1, t, nowMs, 3);
    StepsOnce(plugins, w2, t, nowMs, 2);
    StepsOnce(plugins, w3, t, nowMs, 1);
    NoSteps(plugins, Next(plugins, w3, Advance(t, nowMs, nowMs)), t, nowMs);
  }

  lemma Releases(plugins: map<string, Plugin>, w: World, t: int, nowMs: int)
    requires t in w.calls && w.calls[t].pc.Releasing?
    ensures var v := RunMoves(plugins, w, Steps(t, nowMs, 1));
      && v.data == w.data && (w.lock.Some? && w.lock.value.owner == t ==> LockFree(v.lock, nowMs))
      && v.calls == w.calls[t := w.calls[t].(pc := Finished(w.calls[t].pc.response))]
  {
    hide RunMoves, Steps;
    StepsOnce(plugins, w, t, nowMs, 1);
    NoSteps(plugins, Next(plugins, w, Advance(t, nowMs, nowMs)), t, nowMs);
  }

  /** A call whose id is not in the cache passes the check and goes for the lock: two moves. */
  lemma PassesCheck(plugins: map<string, Plugin>, w: World, t: int, nowMs: int)
    requires t in w.calls && w.calls[t].pc.Checking? && w.calls[t].action.requestId !in w.data.cache
    ensures var v := RunMoves(plugins, w, Steps(t, nowMs, 2));
      && v.data == w.data && v.lock == w.lock
      && v.calls == w.calls[t := Caller(w.calls[t].action,
                                        Locking(TurnTimeoutSeconds(w.data.meta, None) + LOCK_TTL_EXTRA_SECONDS))]
  {
    hide RunMoves, Steps, Decide, Served, Release, TurnTimeoutSeconds;
    var w1 := Next(plugins, w, Advance(t, nowMs, nowMs));
    StepsOnce(plugins, w, t, nowMs, 2);
    StepsOnce(plugins, w1, t, nowMs, 1);
    NoSteps(plugins, Next(plugins, w1, Advance(t, nowMs, nowMs)), t, nowMs);
  }

  /** No lock has run out at this time, and none will be taken for no time. */
  ghost predicate InTime(w: World, nowMs: int) {
    && (w.lock.Some? ==> nowMs < w.lock.value.expiresAtMs)
    && (forall t | t in w.calls && w.calls[t].pc.Locking? :: w.calls[t].pc.ttlSeconds > 0)
  }

  lemma StepInTime(plugins: map<string, Plugin>, w: World, t: int, nowMs: int)
    requires t in w.calls && InTime(w, nowMs)
    ensures InTime(Next(plugins, w, Advance(t, nowMs, nowMs)), nowMs)
  {
    hide Decide, Served, SaveState, SaveMeta, Mark;
    AdvanceFrame(plugins, w, t, nowMs, nowMs);
  }

  lemma {:induction false} StepsAllowed(plugins: map<string, Plugin>, w: World, t: int, nowMs: int, n: nat,
                                        kept: Kept)
    requires t in w.calls && w.clock <= nowMs && (kept.timely ==> InTime(w, nowMs))
    ensures AllowedRunWith(plugins, w, Steps(t, nowMs, n), kept)
    ensures var v := RunMoves(plugins, w, Steps(t, nowMs, n)); v.clock <= nowMs && (kept.timely ==> InTime(v, nowMs))
    decreases n
  {
    if n == 0 {
      NoSteps(plugins, w, t, nowMs);
    } else {
      hide AdvanceCall, RunMoves;
      var v := Next(plugins, w, Advance(t, nowMs, nowMs));
      AdvanceFrame(plugins, w, t, nowMs, nowMs);
      if kept.timely {
        StepInTime(plugins, w, t, nowMs);
      }
      StepsOnce(plugins, w, t, nowMs, n);
      hide InTime;
      assert Steps(t, nowMs, n)[1..] == Steps(t, nowMs, n - 1);
      StepsAllowed(plugins, v, t, nowMs, n - 1, kept);
    }
  }

  // ------------------------------------------------------------------ the first two runs

  /** The run `moves` is allowed but for what is waived, and leads from the quiet world of the game to `v`. */
  ghost predicate Leads(gameId: string, moves: seq<Move>, v: World, kept: Kept) {
    AllowedRunWith(Games(), QuietWorld(gameId), moves, kept) && RunMoves(Games(), QuietWorld(gameId), moves) == v
  }

  lemma {:induction false} BackgroundConcat(a: seq<Move>, b: seq<Move>)
    ensures Background(a + b) == Background(a) + Background(b)
    decreases |a|
  {
    if a == [] {
      assert a + b == b;
    } else {
      assert (a + b)[1..] == a[1..] + b;
      BackgroundConcat(a[1..], b);
    }
  }

  lemma {:induction false} StepsAreCalls(t: int, nowMs: int, n: nat)
    ensures Background(Steps(t, nowMs, n)) == []
  {
    if n > 0 {
      assert Steps(t, nowMs, n)[1..] == Steps(t, nowMs, n - 1);
      StepsAreCalls(t, nowMs, n - 1);
    }
  }

  lemma Extend(gameId: string, moves: seq<Move>, v: World, t: int, nowMs: int, n: nat, kept: Kept)
    requires Leads(gameId, moves, v, kept)
    requires t in v.calls && v.clock <= nowMs && (kept.timely ==> InTime(v, nowMs))
    ensures var x := RunMoves(Games(), v, Steps(t, nowMs, n));
      && Leads(gameId, moves + Steps(t, nowMs, n), x, kept)
      && x.clock <= nowMs && (kept.timely ==> InTime(x, nowMs))
      && Background(moves + Steps(t, nowMs, n)) == Background(moves)
  {
    hide RunMoves, AllowedRunWith, InTime, Steps, Background;
    BackgroundConcat(moves, Steps(t, nowMs, n));
    StepsAreCalls(t, nowMs, n);
    StepsAllowed(Games(), v, t, nowMs, n, kept);
    AllowedConcat(Games(), QuietWorld(gameId), moves, Steps(t, nowMs, n), kept);
    RunConcat(Games(), QuietWorld(gameId), moves, Steps(t, nowMs, n));
  }

  /** A call passes the check. */
  lemma CallPasses(gameId: string, moves: seq<Move>, v: World, t: int, nowMs: int, kept: Kept)
    returns (longer: seq<Move>, x: World)
    requires Leads(gameId, moves, v, kept) && v.clock <= nowMs && (kept.timely ==> InTime(v, nowMs))
    requires t in v.calls && v.calls[t].pc.Checking? && v.calls[t].action.requestId !in v.data.cache
    ensures Leads(gameId, longer, x, kept) && x.clock <= nowMs && (kept.timely ==> InTime(x, nowMs))
    ensures Background(longer) == Background(moves)
    ensures x.data == v.data && x.lock == v.lock
    ensures x.calls == v.calls[t := Caller(v.calls[t].action,
                                           Locking(TurnTimeoutSeconds(v.data.meta, None) + LOCK_TTL_EXTRA_SECONDS))]
  {
    hide Leads, RunMoves, Steps, InTime, Background;
    Extend(gameId, moves, v, t, nowMs, 2, kept);
    PassesCheck(Games(), v, t, nowMs);
    longer, x := moves + Steps(t, nowMs, 2), RunMoves(Games(), v, Steps(t, nowMs, 2));
  }

  /** A call takes the lock and reads. */
  lemma CallReads(gameId: string, moves: seq<Move>, v: World, t: int, nowMs: int, kept: Kept)
    returns (longer: seq<Move>, x: World)
    requires Leads(gameId, moves, v, kept) && v.clock <= nowMs && (kept.timely ==> InTime(v, nowMs))
    requires t in v.calls && v.calls[t].pc.Locking? && LockFree(v.lock, nowMs)
    ensures Leads(gameId, longer, x, kept) && x.clock <= nowMs && (kept.timely ==> InTime(x, nowMs))
    ensures Background(longer) == Background(moves)
    ensures x.data == v.data && x.lock == Some(Lock(t, nowMs + v.calls[t].pc.ttlSeconds * 1000))
    ensures x.calls == v.calls[t := Caller(v.calls[t].action, Deciding(v.data.meta, v.data.state))]
  {
    hide Leads, RunMoves, Steps, InTime, Background;
    Extend(gameId, moves, v, t, nowMs, 3, kept);
    TakesAndReads(Games(), v, t, nowMs);
    longer, x := moves + Steps(t, nowMs, 3), RunMoves(Games(), v, Steps(t, nowMs, 3));
  }

  /** A call that has read decides, writes and releases. */
  lemma CallWrites(gameId: string, moves: seq<Move>, v: World, t: int, nowMs: int, meta: Option<Meta>,
                   state: Option<Json>, kept: Kept)
    returns (longer: seq<Move>, x: World)
    requires Leads(gameId, moves, v, kept) && v.clock <= nowMs && (kept.timely ==> InTime(v, nowMs))
    requires t in v.calls && v.calls[t].pc == Deciding(meta, state)
    requires Decide(Games(), meta, state, v.calls[t].action, nowMs, nowMs).mark
    ensures Leads(gameId, longer, x, kept) && x.clock <= nowMs && (kept.timely ==> InTime(x, nowMs))
    ensures Background(longer) == Background(moves)
    ensures var action := v.calls[t].action;
      var plan := Decide(Games(), meta, state, action, nowMs, nowMs);
      && x.data == Mark(SaveMeta(SaveState(v.data, plan), plan), action.requestId, plan)
      && x.calls == v.calls[t := Caller(action, Finished(plan.response))]
    ensures v.lock.Some? && v.lock.value.owner == t ==> LockFree(x.lock, nowMs)
  {
    hide Leads, RunMoves, Steps, InTime, Background, Decide, Mark, SaveMeta, SaveState;
    Extend(gameId, moves, v, t, nowMs, 4, kept);
    DecidesAndWrites(Games(), v, t, nowMs, meta, state);
    longer, x := moves + Steps(t, nowMs, 4), RunMoves(Games(), v, Steps(t, nowMs, 4));
    Extend(gameId, longer, x, t, nowMs, 1, kept);
    Releases(Games(), x, t, nowMs);
    longer, x := longer + Steps(t, nowMs, 1), RunMoves(Games(), x, Steps(t, nowMs, 1));
  }

  lemma TwoCallsBegin(a: Action, b: Action, kept: Kept)
    requires kept.distinct ==> a.requestId != b.requestId
    ensures Leads("counter", [Begin(1, a), Begin(2, b)],
                  World(Fresh("counter"), None, 0, map[1 := Caller(a, Checking), 2 := Caller(b, Checking)], []), kept)
  {
    var moves := [Begin(1, a), Begin(2, b)];
    var w1 := Next(Games(), QuietWorld("counter"), moves[0]);
    var w2 := Next(Games(), w1, moves[1]);
    assert moves[1..] == [Begin(2, b)] && [Begin(2, b)][1..] == [];
    assert w1.calls == map[1 := Caller(a, Checking)];
    assert w2 == World(Fresh("counter"), None, 0, map[1 := Caller(a, Checking), 2 := Caller(b, Checking)], []);
    assert RunMoves(Games(), w2, []) == w2;
    assert RunMoves(Games(), w1, [Begin(2, b)]) == w2;
    assert AllowedRunWith(Games(), w2, [], kept);
    assert AllowedRunWith(Games(), w1, [Begin(2, b)], kept);
  }

  lemma BeginsAreCalls(a: Action, b: Action)
    ensures Background([Begin(1, a), Begin(2, b)]) == []
  {
    var moves: seq<Move> := [Begin(1, a), Begin(2, b)];
    assert moves[1..] == [Begin(2, b)] && moves[1..][1..] == [];
    assert Background(moves[1..][1..]) == [] && Background(moves[1..]) == [];
  }

  lemma FreshTimeout(requestId: string)
    ensures TurnTimeoutSeconds(Fresh("counter").meta, None) + LOCK_TTL_EXTRA_SECONDS == 35
    ensures requestId !in Fresh("counter").cache
  {
  }

  /** Both calls pass the check and the first one takes the lock and reads. */
  lemma FirstCallReads(a: Action, b: Action, kept: Kept) returns (moves: seq<Move>, v: World)
    requires kept.distinct ==> a.requestId != b.requestId
    ensures Leads("counter", moves, v, kept) && v.clock <= 0 && (kept.timely ==> InTime(v, 0))
    ensures Background(moves) == []
    ensures v.data == Fresh("counter") && v.lock == Some(Lock(1, 35000))
    ensures v.calls ==
      map[1 := Caller(a, Deciding(Fresh("counter").meta, Fresh("counter").state)), 2 := Caller(b, Locking(35))]
  {
    FreshTimeout(a.requestId);
    moves, v := BothPass(a, b, kept);
    Unlocked(v, 0);
    hide *;
    moves, v := CallReads("counter", moves, v, 1, 0, kept);
    ReadingFirst(a, b);
  }

  /** Both calls pass the check. */
  lemma BothPass(a: Action, b: Action, kept: Kept) returns (moves: seq<Move>, v: World)
    requires kept.distinct ==> a.requestId != b.requestId
    ensures Leads("counter", moves, v, kept) && v.clock <= 0 && Background(moves) == []
    ensures v.data == Fresh("counter") && v.lock == None
    ensures v.calls == map[1 := Caller(a, Locking(35)), 2 := Caller(b, Locking(35))]
  {
    TwoCallsBegin(a, b, kept);
    BeginsAreCalls(a, b);
    FreshTimeout(a.requestId);
    FreshTimeout(b.requestId);
    BothLocking(a, b);
    moves := [Begin(1, a), Begin(2, b)];
    v := World(Fresh("counter"), None, 0, map[1 := Caller(a, Checking), 2 := Caller(b, Checking)], []);
    hide *;
    moves, v := PassOne(moves, v, 1, kept);
    moves, v := PassOne(moves, v, 2, kept);
  }

  /** One call of the two passes the check. */
  lemma PassOne(moves: seq<Move>, v: World, t: int, kept: Kept) returns (longer: seq<Move>, x: World)
    requires Leads("counter", moves, v, kept) && v.clock <= 0 && v.lock == None && v.data == Fresh("counter")
    requires t in v.calls && v.calls[t].pc == Checking
    requires forall u | u in v.calls :: v.calls[u].pc == Checking || v.calls[u].pc == Locking(35)
    ensures Leads("counter", longer, x, kept) && x.clock <= 0 && x.lock == None && x.data == v.data
    ensures Background(longer) == Background(moves)
    ensures x.calls == v.calls[t := Caller(v.calls[t].action, Locking(35))]
  {
    FreshTimeout(v.calls[t].action.requestId);
    Unlocked(v, 0);
    hide *;
    longer, x := CallPasses("counter", moves, v, t, 0, kept);
  }

  lemma Unlocked(v: World, nowMs: int)
    requires v.lock == None && forall t | t in v.calls :: v.calls[t].pc == Checking || v.calls[t].pc == Locking(35)
    ensures InTime(v, nowMs) && LockFree(v.lock, nowMs)
  {
  }

  lemma BothLocking(a: Action, b: Action)
    ensures map[1 := Caller(a, Checking), 2 := Caller(b, Checking)][1 := Caller(a, Locking(35))]
              [2 := Caller(b, Locking(35))]
      == map[1 := Caller(a, Locking(35)), 2 := Caller(b, Locking(35))]
  {
  }

  lemma ReadingFirst(a: Action, b: Action)
    ensures var first := Caller(a, Deciding(Fresh("counter").meta, Fresh("counter").state));
      map[1 := Caller(a, Locking(35)), 2 := Caller(b, Locking(35))][1 := first]
      == map[1 := first, 2 := Caller(b, Locking(35))]
  {
    hide Fresh;
  }

  /** Where the two calls of a run can stand in a history that lists exactly them. */
  lemma TwoEntries(v: World, history: seq<Entry>)
    requires HistoryOk(v.(history := history)) && Unclaimed(history) == []
    requires v.calls.Keys == {1, 2} && v.calls[1].pc.TookEffect() && v.calls[2].pc.TookEffect()
    ensures |history| == 2
    ensures {history[0].token, history[1].token} == {Some(1), Some(2)}
  {
    hide HistoryOk, Unclaimed;
    OnlyTheseTokens(v, history);
    ListedTokens(v, history);
    BothTokens(Tokens(history));
  }

  function Tokens(history: seq<Entry>): seq<Option<int>> {
    seq(|history|, k requires 0 <= k < |history| => history[k].token)
  }

  lemma OnlyTheseTokens(v: World, history: seq<Entry>)
    requires HistoryOk(v.(history := history)) && Unclaimed(history) == [] && v.calls.Keys == {1, 2}
    ensures var tokens := Tokens(history);
      && (forall k | 0 <= k < |tokens| :: tokens[k] == Some(1) || tokens[k] == Some(2))
      && (forall i, j | 0 <= i < j < |tokens| :: tokens[i] != tokens[j])
  {
    hide OwnEntry, Unclaimed, Listed;
    AllClaimed(history);
    forall k | 0 <= k < |history| ensures history[k].token == Some(1) || history[k].token == Some(2) {
      assert history[k].token.value in v.calls.Keys;
    }
  }

  lemma ListedTokens(v: World, history: seq<Entry>)
    requires HistoryOk(v.(history := history)) && v.calls.Keys == {1, 2}
    requires v.calls[1].pc.TookEffect() && v.calls[2].pc.TookEffect()
    ensures Some(1) in Tokens(history) && Some(2) in Tokens(history)
  {
    hide OwnEntry;
    forall t | t in {1, 2} ensures Some(t) in Tokens(history) {
      assert t in v.calls && Listed(history, t);
      var i :| 0 <= i < |history| && history[i].token == Some(t);
      assert Tokens(history)[i] == Some(t);
    }
  }

  lemma {:induction false} AllClaimed(history: seq<Entry>)
    requires Unclaimed(history) == []
    ensures forall i | 0 <= i < |history| :: history[i].token.Some?
  {
    if history != [] {
      AllClaimed(history[..|history| - 1]);
    }
  }

  lemma BothTokens(tokens: seq<Option<int>>)
    requires forall k | 0 <= k < |tokens| :: tokens[k] == Some(1) || tokens[k] == Some(2)
    requires forall i, j | 0 <= i < j < |tokens| :: tokens[i] != tokens[j]
    requires Some(1) in tokens && Some(2) in tokens
    ensures |tokens| == 2 && {tokens[0], tokens[1]} == {Some(1), Some(2)}
  {
    DistinctTokens(tokens);
    assert (set t | t in tokens) == {Some(1), Some(2)};
  }

  lemma {:induction false} DistinctTokens(tokens: seq<Option<int>>)
    requires forall i, j | 0 <= i < j < |tokens| :: tokens[i] != tokens[j]
    ensures |(set t | t in tokens)| == |tokens|
  {
    if tokens != [] {
      var n := |tokens| - 1;
      DistinctTokens(tokens[..n]);
      assert tokens == tokens[..n] + [tokens[n]];
      assert (set t | t in tokens) == (set t | t in tokens[..n]) + {tokens[n]};
    }
  }

  /** One success of the game in a serial run. */
  lemma SerialSuccess(data: Data, action: Action, checkedAtMs: int, savedAtMs: int, n: nat)
    requires data.state == Turns(n) && !Served(data, action.requestId)
    requires data.meta.Some? && data.meta.value.gameId == Some("counter")
    ensures var (after, answer) := Serial(Games(), data, action, checkedAtMs, savedAtMs);
      answer.Success? ==>
        && after.state == Turns(n + 1) && after.cache == data.cache[action.requestId := answer]
        && answer.requestId == action.requestId
        && after.meta.Some? && after.meta.value.gameId == Some("counter")
  {
    hide Decide, Served;
    CounterDecides(data, action, checkedAtMs, savedAtMs, n);
  }

  lemma AnsweredTwice(start: Data, x: Entry, y: Entry)
    requires Answered(Games(), start, [x, y]) && x.event.Call? && y.event.Call?
    ensures var d := Serial(Games(), start, x.event.action, x.event.checkedAtMs, x.event.savedAtMs);
      var e := Serial(Games(), d.0, y.event.action, y.event.checkedAtMs, y.event.savedAtMs);
      x.response == Some(d.1) && y.response == Some(e.1) && ReplayHistory(Games(), start, [x, y]) == e.0
  {
    hide Serial;
    assert [x, y][..1] == [x] && [x][..0] == [];
    assert ReplayHistory(Games(), start, [x]) == Apply(Games(), start, x.event);
  }

  /** A history that explains two calls is one of them after the other. */
  lemma ExplainedOrder(v: World, history: seq<Entry>) returns (x: Entry, y: Entry)
    requires Explains(Games(), Fresh("counter"), v, [], history)
    requires v.calls.Keys == {1, 2} && v.calls[1].pc.Finished? && v.calls[2].pc.Finished?
    ensures history == [x, y] && x.event.Call? && y.event.Call?
    ensures {x.event.action, y.event.action} == {v.calls[1].action, v.calls[2].action}
    ensures {x.response, y.response} == {Some(v.calls[1].pc.response), Some(v.calls[2].pc.response)}
    ensures Answered(Games(), Fresh("counter"), [x, y]) && ReplayHistory(Games(), Fresh("counter"), [x, y]) == v.data
  {
    hide Answered, ReplayHistory, Listed;
    TwoEntries(v, history);
    x, y := history[0], history[1];
    assert history == [x, y];
  }

  /** In every serial order of two successful calls with different ids the game has moved twice. */
  lemma TwoSuccesses(v: World, history: seq<Entry>)
    requires v.calls.Keys == {1, 2}
      && (forall t | t in v.calls :: v.calls[t].pc.Finished? && v.calls[t].pc.response.Success?)
    requires v.calls[1].action.requestId != v.calls[2].action.requestId && v.data.state != Turns(2)
    ensures !Explains(Games(), Fresh("counter"), v, [], history)
  {
    hide Serial, Answered, ReplayHistory, Served, Explains;
    if Explains(Games(), Fresh("counter"), v, [], history) {
      var x, y := ExplainedOrder(v, history);
      AnsweredTwice(Fresh("counter"), x, y);
      assert Turns(0).value == Arr([]);
      NotServed(Fresh("counter"), x.event.action.requestId);
      SerialSuccess(Fresh("counter"), x.event.action, x.event.checkedAtMs, x.event.savedAtMs, 0);
      var d := Serial(Games(), Fresh("counter"), x.event.action, x.event.checkedAtMs, x.event.savedAtMs).0;
      NotServed(d, y.event.action.requestId);
      SerialSuccess(d, y.event.action, y.event.checkedAtMs, y.event.savedAtMs, 1);
    }
  }

  lemma NotServed(data: Data, id: string)
    ensures id !in data.cache ==> !Served(data, id)
  {
  }

  /** In every serial order of two successful calls with one readable id the second is served from the cache. */
  lemma OneSuccess(v: World, history: seq<Entry>)
    requires v.calls.Keys == {1, 2}
      && (forall t | t in v.calls :: v.calls[t].pc.Finished? && v.calls[t].pc.response.Success?)
    requires v.calls[1].action == v.calls[2].action && NonBlank(v.calls[1].action.requestId) && v.data.state != Turns(1)
    ensures !Explains(Games(), Fresh("counter"), v, [], history)
  {
    hide Serial, Answered, ReplayHistory, NonBlank, Served, Explains;
    if Explains(Games(), Fresh("counter"), v, [], history) {
      var x, y := ExplainedOrder(v, history);
      AnsweredTwice(Fresh("counter"), x, y);
      assert Turns(0).value == Arr([]);
      NotServed(Fresh("counter"), x.event.action.requestId);
      SerialSuccess(Fresh("counter"), x.event.action, x.event.checkedAtMs, x.event.savedAtMs, 0);
      var d := Serial(Games(), Fresh("counter"), x.event.action, x.event.checkedAtMs, x.event.savedAtMs).0;
      ServedAgain(d, y.event.action, y.event.checkedAtMs, y.event.savedAtMs);
    }
  }

  lemma ServedAgain(data: Data, action: Action, checkedAtMs: int, savedAtMs: int)
    requires action.requestId in data.cache && data.cache[action.requestId].requestId == action.requestId
    requires NonBlank(action.requestId)
    ensures Serial(Games(), data, action, checkedAtMs, savedAtMs).0 == data
  {
    hide Decide, NonBlank;
  }

  /**
   * The lock's time to live matters: a run of two calls with different ids that meets every hypothesis but the one
   * on the lock, and whose answers and data fit no serial order. Both calls succeed and one of them is lost.
   */
  lemma {:induction false} TimelinessIsNeeded(a: Action, b: Action) returns (moves: seq<Move>, v: World)
    requires a.requestId != b.requestId
    ensures Quiet(Fresh("counter"), QuietWorld("counter")) && Consistent(Games(), Fresh("counter"))
    ensures AllowedRunWith(Games(), QuietWorld("counter"), moves, UNTIMELY)
    ensures v == RunMoves(Games(), QuietWorld("counter"), moves)
    ensures v.calls.Keys == {1, 2} && v.calls[1].action == a && v.calls[2].action == b
    ensures forall t | t in v.calls :: v.calls[t].pc.Finished? && v.calls[t].pc.response.Success?
    ensures forall history :: !Explains(Games(), Fresh("counter"), v, Background(moves), history)
  {
    FreshIsConsistent();
    hide RunMoves, Steps, Decide, Explains, InTime, AllowedRunWith, PluginLaws, Background;
    moves, v := FirstCallReads(a, b, UNTIMELY);
    var start, now := Fresh("counter"), 35000;
    assert Turns(0).value == Arr([]);
    CounterSucceeds(start, a, now, 0);
    CounterSucceeds(start, b, now, 0);
    CounterDecides(start, a, now, now, 0);
    CounterDecides(start, b, now, now, 0);
    moves, v := CallReads("counter", moves, v, 2, now, UNTIMELY);
    moves, v := CallWrites("counter", moves, v, 2, now, start.meta, start.state, UNTIMELY);
    moves, v := CallWrites("counter", moves, v, 1, now, start.meta, start.state, UNTIMELY);
    assert v.data.state == Turns(1);
    TurnsDiffer();
    forall history ensures !Explains(Games(), Fresh("counter"), v, Background(moves), history) {
      TwoSuccesses(v, history);
    }
  }

  lemma TurnsDiffer()
    ensures Turns(1) != Turns(2)
  {
    assert |Turns(1).value.items| != |Turns(2).value.items|;
  }

  /**
   * Distinct ids matter: a run of two overlapping calls with one request id that meets every other hypothesis, and
   * whose answers and data fit no serial order. Both calls are applied, where the second should be served from the
   * cache.
   */
  lemma {:induction false} DistinctIdsAreNeeded(a: Action) returns (moves: seq<Move>, v: World)
    requires NonBlank(a.requestId)
    ensures Quiet(Fresh("counter"), QuietWorld("counter")) && Consistent(Games(), Fresh("counter"))
    ensures AllowedRunWith(Games(), QuietWorld("counter"), moves, TWINS)
    ensures v == RunMoves(Games(), QuietWorld("counter"), moves)
    ensures v.calls.Keys == {1, 2} && v.calls[1].action == a && v.calls[2].action == a
    ensures forall t | t in v.calls :: v.calls[t].pc.Finished? && v.calls[t].pc.response.Success?
    ensures forall history :: !Explains(Games(), Fresh("counter"), v, Background(moves), history)
  {
    FreshIsConsistent();
    hide RunMoves, Steps, Decide, Explains, NonBlank, InTime, AllowedRunWith, PluginLaws, Background;
    moves, v := FirstCallReads(a, a, TWINS);
    var start := Fresh("counter");
    assert Turns(0).value == Arr([]);
    CounterSucceeds(start, a, 0, 0);
    CounterDecides(start, a, 0, 0, 0);
    moves, v := CallWrites("counter", moves, v, 1, 0, start.meta, start.state, TWINS);
    var first := v.data;
    CounterSucceeds(first, a, 0, 1);
    CounterDecides(first, a, 0, 0, 1);
    moves, v := CallReads("counter", moves, v, 2, 0, TWINS);
    moves, v := CallWrites("counter", moves, v, 2, 0, first.meta, first.state, TWINS);
    assert v.data.state == Turns(2);
    TurnsDiffer();
    forall history ensures !Explains(Games(), Fresh("counter"), v, Background(moves), history) {
      OneSuccess(v, history);
    }
  }

  // ---------------------------------------------------- an activation inside a section

  lemma OneCallBegins(gameId: string, a: Action, kept: Kept)
    ensures Leads(gameId, [Begin(1, a)], World(Fresh(gameId), None, 0, map[1 := Caller(a, Checking)], []), kept)
    ensures Background([Begin(1, a)]) == []
  {
    var moves, w := [Begin(1, a)], World(Fresh(gameId), None, 0, map[1 := Caller(a, Checking)], []);
    assert moves[1..] == [] && Next(Games(), QuietWorld(gameId), moves[0]) == w;
    assert RunMoves(Games(), w, []) == w && AllowedRunWith(Games(), w, [], kept);
  }

  lemma ActivationLeads(gameId: string, moves: seq<Move>, v: World, nowMs: int, kept: Kept)
    requires Leads(gameId, moves, v, kept) && v.clock <= nowMs && (kept.timely ==> InTime(v, nowMs)) && !kept.apart
    ensures Leads(gameId, moves + [ActivateMatch(nowMs)], Next(Games(), v, ActivateMatch(nowMs)), kept)
    ensures Background(moves + [ActivateMatch(nowMs)]) == Background(moves) + [Activation(nowMs)]
  {
    var more := [ActivateMatch(nowMs)];
    var x := Next(Games(), v, more[0]);
    assert more[1..] == [] && RunMoves(Games(), x, []) == x && AllowedRunWith(Games(), x, [], kept);
    assert AllowedRunWith(Games(), v, more, kept) && RunMoves(Games(), v, more) == x;
    assert Background(more) == [Activation(nowMs)];
    hide RunMoves, AllowedRunWith, Next, Background;
    BackgroundConcat(moves, more);
    AllowedConcat(Games(), QuietWorld(gameId), moves, more, kept);
    RunConcat(Games(), QuietWorld(gameId), moves, more);
  }

  /** A success of the idle game leaves the state, and sets the turn clock only where none is set. */
  lemma IdleDecides(data: Data, action: Action, checkedAtMs: int, savedAtMs: int)
    requires data.state == Some(Arr([])) && data.meta.Some? && data.meta.value.gameId == Some("idle")
    requires data.meta.value.turn == Some(0)
    ensures var plan := Decide(Games(), data.meta, data.state, action, checkedAtMs, savedAtMs);
      && (data.meta.value.turnStartedAtMs.None? ==> plan.response.Success?)
      && (plan.response.Success? ==>
            && plan.state == Some(Arr([])) && plan.meta.Some? && plan.mark
            && plan.meta.value.turnStartedAtMs == Some(data.meta.value.turnStartedAtMs.GetOr(savedAtMs)))
  {
    hide NonBlank;
    assert |Items(Arr([]))| == 0;
  }

  /** Alone or after the activation, or before it, the call leaves the time of the activation. */
  lemma ActivationWins(x: Entry, y: Entry, a: Action, nowMs: int)
    requires Answered(Games(), Fresh("idle"), [x, y])
    requires (x.event == Activation(nowMs) && y.event.Call? && y.response.Some? && y.response.value.Success?)
      || (y.event == Activation(nowMs) && x.event.Call?)
    ensures var d := ReplayHistory(Games(), Fresh("idle"), [x, y]);
      d.meta.Some? && d.meta.value.turnStartedAtMs == Some(nowMs)
  {
    hide Decide;
    var start := Fresh("idle");
    assert [x, y][..1] == [x] && [x][..0] == [];
    assert ReplayHistory(Games(), start, [x]) == Apply(Games(), start, x.event);
    if x.event.Activation? {
      var d := Apply(Games(), start, x.event);
      IdleDecides(d, y.event.action, y.event.checkedAtMs, y.event.savedAtMs);
      NotServed(d, y.event.action.requestId);
    }
  }

  /** A history of one call and one other event has these two entries. */
  lemma {:induction false} CallAndEvent(history: seq<Entry>, e: Event, i: nat)
    requires i < |history| && forall k | 0 <= k < |history| :: history[k].token.Some? <==> k == i
    ensures |Unclaimed(history)| == |history| - 1
  {
    var n := |history| - 1;
    if i == n {
      NoneClaimed(history[..n]);
    } else {
      CallAndEvent(history[..n], e, i);
    }
  }

  lemma {:induction false} NoneClaimed(history: seq<Entry>)
    requires forall k | 0 <= k < |history| :: history[k].token.None?
    ensures |Unclaimed(history)| == |history|
  {
    if history != [] {
      NoneClaimed(history[..|history| - 1]);
    }
  }

  /** The two entries of such a history, in one order or the other. */
  lemma OneEntryEach(v: World, history: seq<Entry>, e: Event) returns (x: Entry, y: Entry)
    requires HistoryOk(v.(history := history)) && Unclaimed(history) == [e] && v.calls.Keys == {1}
    requires v.calls[1].pc.TookEffect()
    ensures history == [x, y]
    ensures (x.event == e && OwnEntry(y, v.calls[1])) || (y.event == e && OwnEntry(x, v.calls[1]))
  {
    hide OwnEntry, Unclaimed;
    assert Listed(history, 1);
    var i :| 0 <= i < |history| && history[i].token == Some(1);
    forall k | 0 <= k < |history| ensures history[k].token.Some? <==> k == i {
      if history[k].token.Some? {
        assert history[k].token.value in v.calls.Keys;
      }
    }
    CallAndEvent(history, e, i);
    x, y := history[0], history[1];
    assert history == [x, y];
    UnclaimedOfTwo(x, y);
  }

  lemma UnclaimedOfTwo(x: Entry, y: Entry)
    ensures x.token.None? && y.token.Some? ==> Unclaimed([x, y]) == [x.event]
    ensures x.token.Some? && y.token.None? ==> Unclaimed([x, y]) == [y.event]
  {
    assert [x, y][..1] == [x] && [x][..0] == [];
    assert Unclaimed([]) == [] && Unclaimed([x]) == if x.token.None? then [x.event] else [];
  }

  lemma ActivationUnexplained(v: World, history: seq<Entry>, nowMs: int)
    requires v.calls.Keys == {1} && v.calls[1].pc.Finished? && v.calls[1].pc.response.Success?
    requires v.data.meta.Some? && v.data.meta.value.turnStartedAtMs != Some(nowMs)
    ensures !Explains(Games(), Fresh("idle"), v, [Activation(nowMs)], history)
  {
    hide Answered, ReplayHistory, HistoryOk;
    if Explains(Games(), Fresh("idle"), v, [Activation(nowMs)], history) {
      var x, y := OneEntryEach(v, history, Activation(nowMs));
      ActivationWins(x, y, v.calls[1].action, nowMs);
    }
  }

  /**
   * Activations apart from critical sections matter: a run of one call and one activation that meets every other
   * hypothesis, and whose data fit no serial order. The call overwrites the turn clock that the activation has set.
   */
  lemma {:induction false} ApartnessIsNeeded(a: Action) returns (moves: seq<Move>, v: World)
    ensures Quiet(Fresh("idle"), QuietWorld("idle")) && Consistent(Games(), Fresh("idle"))
    ensures AllowedRunWith(Games(), QuietWorld("idle"), moves, ACTIVATED)
    ensures v == RunMoves(Games(), QuietWorld("idle"), moves) && Background(moves) == [Activation(1)]
    ensures v.calls.Keys == {1} && v.calls[1].action == a
      && v.calls[1].pc.Finished? && v.calls[1].pc.response.Success?
    ensures forall history :: !Explains(Games(), Fresh("idle"), v, Background(moves), history)
  {
    FreshIsConsistent();
    hide RunMoves, Steps, Decide, Explains, AllowedRunWith, PluginLaws, Background, Unclaimed;
    var start := Fresh("idle");
    OneCallBegins("idle", a, ACTIVATED);
    moves, v := [Begin(1, a)], World(start, None, 0, map[1 := Caller(a, Checking)], []);
    moves, v := CallPasses("idle", moves, v, 1, 0, ACTIVATED);
    moves, v := CallReads("idle", moves, v, 1, 0, ACTIVATED);
    ActivationLeads("idle", moves, v, 1, ACTIVATED);
    moves, v := moves + [ActivateMatch(1)], Next(Games(), v, ActivateMatch(1));
    IdleDecides(start, a, 2, 2);
    moves, v := CallWrites("idle", moves, v, 1, 2, start.meta, start.state, ACTIVATED);
    assert v.data.meta.value.turnStartedAtMs == Some(2);
    assert Background(moves) == [Activation(1)];
    forall history ensures !Explains(Games(), start, v, Background(moves), history) {
      ActivationUnexplained(v, history, 1);
    }
  }
}
