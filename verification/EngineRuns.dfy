/** What serial runs of the engine keep: turns, retries, the turn clock and idempotent answers. */
module EngineRuns {
  import Text
  import opened Wrappers
  import opened StableJson
  import opened Engine

  datatype Event =
    | Call(action: Action, checkedAtMs: int, savedAtMs: int)
    | Activation(nowMs: int)
    | CacheExpiry(requestId: string)

  function Apply(plugins: map<string, Plugin>, data: Data, e: Event): Data {
    match e
    case Call(action, checkedAtMs, savedAtMs) => Serial(plugins, data, action, checkedAtMs, savedAtMs).0
    case Activation(nowMs) => Activate(data, nowMs)
    case CacheExpiry(requestId) => data.(cache := data.cache - {requestId})
  }

  /** The data after the first `n` events. */
  function Replay(plugins: map<string, Plugin>, start: Data, events: seq<Event>, n: nat): Data
    requires n <= |events|
  {
    if n == 0 then start else Apply(plugins, Replay(plugins, start, events, n - 1), events[n - 1])
  }

  // -------------------------------------------------------------- consistency

  ghost predicate HasGame(plugins: map<string, Plugin>, d: Data) {
    && d.state.Some? && d.meta.Some? && d.meta.value.gameId.Some? && d.meta.value.gameId.value != ""
    && d.meta.value.gameId.value in plugins && PluginLaws(plugins[d.meta.value.gameId.value])
  }

  ghost function Game(plugins: map<string, Plugin>, d: Data): Plugin
    requires HasGame(plugins, d)
  {
    plugins[d.meta.value.gameId.value]
  }

  ghost function Turn(plugins: map<string, Plugin>, d: Data): int
    requires HasGame(plugins, d)
  {
    Game(plugins, d).getTurn(d.state.value)
  }

  /** State and meta agree on the turn, at most one retry is pending, and answers are filed under their own id. */
  ghost predicate Consistent(plugins: map<string, Plugin>, d: Data) {
    && HasGame(plugins, d)
    && Turn(plugins, d) >= 0 && d.meta.value.turn == Some(Turn(plugins, d))
    && (d.meta.value.retryCount == Some(0) || d.meta.value.retryCount == Some(1))
    && (forall id | id in d.cache :: d.cache[id].requestId == id)
  }

  /** The seconds that a turn of this game may take by itself. */
  ghost function GameTimeout(game: Plugin): int {
    match game.turnTimeoutSeconds
    case Some(n) => if n > 0 then n else 30
    case None => 30
  }

  /** The seconds that a turn may take: those stored with the match, or else the game's. */
  ghost function TimeoutInForce(meta: Meta, game: Plugin): int {
    match meta.turnTimeoutSec
    case Some(n) => if n > 0 then n else GameTimeout(game)
    case None => GameTimeout(game)
  }

  /** The turn has been running for longer than that. */
  ghost predicate TimedOut(plugins: map<string, Plugin>, d: Data, nowMs: int)
    requires HasGame(plugins, d)
  {
    match d.meta.value.turnStartedAtMs
    case None => false
    case Some(startedAtMs) =>
      startedAtMs > 0 && nowMs > startedAtMs + 1000 * TimeoutInForce(d.meta.value, Game(plugins, d))
  }

  lemma ExpiredMeansTimedOut(plugins: map<string, Plugin>, d: Data, nowMs: int)
    requires HasGame(plugins, d)
    ensures var seconds := TurnTimeoutSeconds(d.meta, Some(Game(plugins, d)));
      && seconds == TimeoutInForce(d.meta.value, Game(plugins, d))
      && (IsTurnExpired(d.meta.value, seconds, nowMs) <==> TimedOut(plugins, d, nowMs))
  {
  }

  /** A call that reaches the plugin: it is not answered from the cache and its turn has not expired. */
  ghost predicate Reaches(plugins: map<string, Plugin>, d: Data, e: Event) {
    && HasGame(plugins, d) && e.Call? && !Served(d, e.action.requestId)
    && !TimedOut(plugins, d, e.checkedAtMs)
  }

  ghost predicate Succeeds(plugins: map<string, Plugin>, d: Data, e: Event) {
    Reaches(plugins, d, e) && Game(plugins, d).validateAction(d.state.value, e.action).Valid?
  }

  ghost predicate FailsRetryably(plugins: map<string, Plugin>, d: Data, e: Event) {
    Reaches(plugins, d, e)
    && Game(plugins, d).validateAction(d.state.value, e.action).Invalid?
    && Game(plugins, d).validateAction(d.state.value, e.action).retryable != Some(false)
  }

  /** One event: what it may do to the turn, the retry counter and the turn clock. */
  lemma {:induction false} EventEffect(plugins: map<string, Plugin>, d: Data, e: Event)
    requires Consistent(plugins, d)
    ensures var after := Apply(plugins, d, e);
      && Consistent(plugins, after) && Game(plugins, after) == Game(plugins, d)
      && Turn(plugins, d) <= Turn(plugins, after) <= Turn(plugins, d) + 1
      && (FailsRetryably(plugins, d, e) ==>
            if d.meta.value.retryCount == Some(0)
            then after.state == d.state && after.meta.value.retryCount == Some(1)
            else Turn(plugins, after) == Turn(plugins, d) + 1 && after.meta.value.retryCount == Some(0))
      && (Succeeds(plugins, d, e) ==> after.meta.value.retryCount == Some(0))
      && (!Succeeds(plugins, d, e) && !FailsRetryably(plugins, d, e) ==>
            after.state == d.state && after.meta.value.retryCount == d.meta.value.retryCount
            && (!e.Activation? ==> after.meta == d.meta))
      && (!e.Activation? && d.meta.value.turnStartedAtMs.Some? ==>
            after.meta.value.turnStartedAtMs.Some?
            && (Turn(plugins, after) == Turn(plugins, d) ==>
                  after.meta.value.turnStartedAtMs == d.meta.value.turnStartedAtMs))
  {
    hide NonBlank, TurnTimeoutSeconds, IsTurnExpired, TimedOut;
    match e
    case Activation(nowMs) =>
    case CacheExpiry(requestId) =>
    case Call(action, checkedAtMs, savedAtMs) =>
      ExpiredMeansTimedOut(plugins, d, checkedAtMs);
      if !Served(d, action.requestId) {
        CallEffect(plugins, d, e);
      }
  }

  lemma {:induction false} CallEffect(plugins: map<string, Plugin>, d: Data, e: Event)
    requires Consistent(plugins, d) && e.Call? && !Served(d, e.action.requestId)
    ensures var plan := Decide(plugins, d.meta, d.state, e.action, e.checkedAtMs, e.savedAtMs);
            var after := Apply(plugins, d, e);
            var id := e.action.requestId;
            plan.mark && plan.response.requestId == id
            && after == Data(Newer(d.state, plan.state), Newer(d.meta, plan.meta), d.cache[id := plan.response])
  {
    hide NonBlank, TurnTimeoutSeconds;
  }

  // ------------------------------------------------------- what a call is answered

  /** An id or actor counts when some character of it can be seen. */
  lemma NonBlankMeansVisible(s: string)
    ensures NonBlank(s) <==> exists c :: c in s && !Text.IsSpace(c)
  {
    Text.BlankMeansAllSpace(s);
  }

  /** What the game says about the turn before and after the action, for an actor that is named. */
  ghost predicate ContextTells(game: Plugin, meta: Meta, state: Json, applied: Json, action: Action,
                               context: Option<TurnContext>)
  {
    match action.actor
    case None => context == None
    case Some(actor) =>
      if !NonBlank(actor) then context == None else
      var before, after := game.analytics(state, actor, action), game.analytics(applied, actor, action);
      && context.Some? && context.value.phase == before.phase && context.value.seat == before.seat
      && context.value.scoreDiffBefore == before.scoreDiff && context.value.scoreDiffAfter == after.scoreDiff
      && context.value.ruleVersion == match meta.ruleVersion { case Some(v) => v case None => game.ruleVersion }
  }

  /**
   * What a call on a match must be answered: the cached answer, that the turn has run out and after how many seconds,
   * the game's complaint and whether to try again, or the game's own result and the end of the match.
   */
  ghost predicate AnswerTells(plugins: map<string, Plugin>, d: Data, e: Event, answer: Response)
    requires HasGame(plugins, d) && e.Call?
  {
    var game, meta, state, id := Game(plugins, d), d.meta.value, d.state.value, e.action.requestId;
    if Served(d, id) then answer == d.cache[id]
    else if TimedOut(plugins, d, e.checkedAtMs) then
      answer == Error(id, TurnExpired(TimeoutInForce(meta, game)), false)
    else
      match game.validateAction(state, e.action)
      case Invalid(message, retryable) =>
        && answer.Error? && answer.requestId == id
        && answer.failure == ValidationFailed(if message == "" then "Invalid action" else message)
        && (answer.retryable <==> retryable != Some(false) && meta.retryCount == Some(0))
      case Valid =>
        var (applied, result) := game.applyAction(state, e.action);
        && answer.Success? && answer.requestId == id && answer.result == result
        && answer.termination == game.settle(applied).1
        && ContextTells(game, meta, state, applied, e.action, answer.context)
  }

  /** What a call on a match must leave in it: nothing new, one more retry, a consumed turn or the settled state. */
  ghost predicate DataTells(plugins: map<string, Plugin>, d: Data, e: Event, answer: Response, after: Data)
    requires HasGame(plugins, d) && e.Call?
  {
    var game, meta, state, id := Game(plugins, d), d.meta.value, d.state.value, e.action.requestId;
    if Served(d, id) then after == d else
    && after.cache == d.cache[id := answer]
    && if TimedOut(plugins, d, e.checkedAtMs) then after.state == d.state && after.meta == d.meta else
    match game.validateAction(state, e.action)
    case Invalid(_, retryable) =>
      if retryable == Some(false) then after.state == d.state && after.meta == d.meta
      else if meta.retryCount == Some(0) then
        after.state == d.state && after.meta == Some(meta.(retryCount := Some(1)))
      else
        && after.state == Some(game.consumeTurn(state)) && after.meta.Some?
        && SameMatch(meta, after.meta.value, TimeoutInForce(meta, game))
        && after.meta.value.turn == Some(game.getTurn(state) + 1)
        && after.meta.value.turnStartedAtMs == Some(e.savedAtMs)
    case Valid =>
      var applied := game.applyAction(state, e.action).0;
      && after.state == Some(game.settle(applied).0) && after.meta.Some?
      && SameMatch(meta, after.meta.value, TimeoutInForce(meta, game))
      && after.meta.value.turn == Some(game.getTurn(applied))
      && after.meta.value.turnStartedAtMs
         == if game.getTurn(applied) == game.getTurn(state) && meta.turnStartedAtMs.Some? then meta.turnStartedAtMs
            else Some(e.savedAtMs)
  }

  /** The same match with no retry pending and the timeout in force written down. */
  ghost predicate SameMatch(before: Meta, after: Meta, seconds: int) {
    && after.gameId == before.gameId && after.seed == before.seed && after.ruleId == before.ruleId
    && after.ruleVersion == before.ruleVersion && after.retryCount == Some(0) && after.turnTimeoutSec == Some(seconds)
  }

  /** On a consistent match the code does exactly that. */
  lemma {:induction false} CallIsExact(plugins: map<string, Plugin>, d: Data, e: Event)
    requires Consistent(plugins, d) && e.Call?
    ensures var (after, answer) := Serial(plugins, d, e.action, e.checkedAtMs, e.savedAtMs);
      AnswerTells(plugins, d, e, answer) && DataTells(plugins, d, e, answer, after)
  {
    ExpiredMeansTimedOut(plugins, d, e.checkedAtMs);
    hide NonBlank, TurnTimeoutSeconds, IsTurnExpired, TimedOut, TimeoutInForce;
  }

  /** An activation changes the turn clock alone: the turn now runs out when the timeout in force has passed since. */
  lemma {:induction false} ActivationRestartsClock(plugins: map<string, Plugin>, d: Data, nowMs: int, laterMs: int)
    requires Consistent(plugins, d) && nowMs > 0
    ensures var after := Activate(d, nowMs);
      && after.state == d.state && after.cache == d.cache
      && after.meta == Some(d.meta.value.(turnStartedAtMs := Some(nowMs)))
      && HasGame(plugins, after)
      && (TimedOut(plugins, after, laterMs) <==>
            laterMs > nowMs + 1000 * TimeoutInForce(d.meta.value, Game(plugins, d)))
  {
    hide TimeoutInForce;
    SameTimeout(d.meta.value, nowMs, Game(plugins, d));
  }

  lemma SameTimeout(meta: Meta, nowMs: int, game: Plugin)
    ensures TimeoutInForce(meta.(turnStartedAtMs := Some(nowMs)), game) == TimeoutInForce(meta, game)
  {
  }

  /** Without a match, a state, a game id or the game the call changes nothing and says what is missing. */
  lemma NothingToPlay(plugins: map<string, Plugin>, d: Data, e: Event)
    requires e.Call? && !Served(d, e.action.requestId)
    ensures var (after, answer) := Serial(plugins, d, e.action, e.checkedAtMs, e.savedAtMs);
      var id := e.action.requestId;
      && (d.meta.None? ==> after == d && answer == Error(id, MatchNotFound, true))
      && (d.meta.Some? && d.state.None? ==> after == d && answer == Error(id, StateNotFound, false))
      && (d.meta.Some? && d.state.Some? && d.meta.value.gameId.GetOr("") == "" ==>
            after == d && answer == Error(id, MissingGameId, false))
      && (d.meta.Some? && d.state.Some? && d.meta.value.gameId.GetOr("") != ""
          && d.meta.value.gameId.value !in plugins ==>
            after == d && answer == Error(id, PluginNotFound(d.meta.value.gameId.value), false))
  {
    hide NonBlank, TurnTimeoutSeconds, IsTurnExpired, DecideValid, DecideInvalid;
  }

  // --------------------------------------------------------------------- runs

  /** Every run keeps a consistent match consistent; the turn never decreases. */
  lemma {:induction false} RunKeepsConsistency(plugins: map<string, Plugin>, start: Data, events: seq<Event>, i: nat,
                                               n: nat)
    requires Consistent(plugins, start) && i <= n <= |events|
    ensures var before, after := Replay(plugins, start, events, i), Replay(plugins, start, events, n);
            Consistent(plugins, before) && Consistent(plugins, after) && Game(plugins, before) == Game(plugins, after)
            && Turn(plugins, before) <= Turn(plugins, after) <= Turn(plugins, before) + (n - i)
    decreases n
  {
    hide Apply, Consistent;
    if n > 0 {
      if i == n {
        RunKeepsConsistency(plugins, start, events, n - 1, n - 1);
      } else {
        RunKeepsConsistency(plugins, start, events, i, n - 1);
      }
      Parts(plugins, Replay(plugins, start, events, n - 1));
      EventEffect(plugins, Replay(plugins, start, events, n - 1), events[n - 1]);
    }
    Parts(plugins, Replay(plugins, start, events, n));
    Parts(plugins, Replay(plugins, start, events, i));
  }

  lemma Parts(plugins: map<string, Plugin>, d: Data)
    requires Consistent(plugins, d)
    ensures HasGame(plugins, d)
  {
  }

  /** How many of the first `n` events are validation failures that ask for a retry. */
  ghost function RetryableFailures(plugins: map<string, Plugin>, start: Data, events: seq<Event>, n: nat): nat
    requires n <= |events|
  {
    if n == 0 then 0 else
    RetryableFailures(plugins, start, events, n - 1)
    + if FailsRetryably(plugins, Replay(plugins, start, events, n - 1), events[n - 1]) then 1 else 0
  }

  ghost predicate NoSuccess(plugins: map<string, Plugin>, start: Data, events: seq<Event>, n: nat)
    requires n <= |events|
  {
    forall i | 0 <= i < n :: !Succeeds(plugins, Replay(plugins, start, events, i), events[i])
  }

  /**
   * As long as no action succeeds, every second retryable failure consumes exactly one turn and
   * nothing else moves it; the retry counter is the parity of the failures.
   */
  lemma {:induction false} RetriesConsumeTurns(plugins: map<string, Plugin>, start: Data, events: seq<Event>, n: nat)
    requires Consistent(plugins, start) && n <= |events| && NoSuccess(plugins, start, events, n)
    ensures var after := Replay(plugins, start, events, n);
            var failures := start.meta.value.retryCount.value + RetryableFailures(plugins, start, events, n);
            Consistent(plugins, after)
            && Turn(plugins, after) == Turn(plugins, start) + failures / 2
            && after.meta.value.retryCount == Some(failures % 2)
  {
    hide Apply, Game, Succeeds, FailsRetryably;
    RunKeepsConsistency(plugins, start, events, n, n);
    if n > 0 {
      RetriesConsumeTurns(plugins, start, events, n - 1);
      var before := Replay(plugins, start, events, n - 1);
      RunKeepsConsistency(plugins, start, events, 0, n - 1);
      RunKeepsConsistency(plugins, start, events, 0, n);
      EventEffect(plugins, before, events[n - 1]);
      assert !Succeeds(plugins, before, events[n - 1]);
      if before.state == Replay(plugins, start, events, n).state {
        TurnOfState(plugins, before, Replay(plugins, start, events, n));
      }
    }
  }

  lemma TurnOfState(plugins: map<string, Plugin>, a: Data, b: Data)
    requires HasGame(plugins, a) && HasGame(plugins, b) && Game(plugins, a) == Game(plugins, b) && a.state == b.state
    ensures Turn(plugins, a) == Turn(plugins, b)
  {
  }

  ghost predicate NoActivation(events: seq<Event>) {
    forall i | 0 <= i < |events| :: !events[i].Activation?
  }

  /** Once set, the turn clock moves only when the turn does. */
  lemma {:induction false} TurnClockFollowsTurn(plugins: map<string, Plugin>, start: Data, events: seq<Event>, n: nat)
    requires Consistent(plugins, start) && n <= |events| && NoActivation(events)
    requires start.meta.value.turnStartedAtMs.Some?
    ensures var after := Replay(plugins, start, events, n);
            Consistent(plugins, after) && after.meta.value.turnStartedAtMs.Some?
            && (Turn(plugins, after) == Turn(plugins, start) ==>
                  after.meta.value.turnStartedAtMs == start.meta.value.turnStartedAtMs)
  {
    hide Apply, Game, Succeeds, FailsRetryably, Turn;
    if n > 0 {
      TurnClockFollowsTurn(plugins, start, events, n - 1);
      RunKeepsConsistency(plugins, start, events, 0, n - 1);
      EventEffect(plugins, Replay(plugins, start, events, n - 1), events[n - 1]);
    }
  }

  // --------------------------------------------------------------- idempotency

  /** A cached answer with a readable id stays until its key expires. */
  lemma {:induction false} CachedAnswerStays(plugins: map<string, Plugin>, start: Data, events: seq<Event>, n: nat,
                                             id: string)
    requires Consistent(plugins, start) && n <= |events| && id in start.cache && NonBlank(id)
    requires forall i | 0 <= i < n :: events[i] != CacheExpiry(id)
    ensures var after := Replay(plugins, start, events, n);
            id in after.cache && after.cache[id] == start.cache[id]
  {
    hide NonBlank, Decide;
    if n > 0 {
      CachedAnswerStays(plugins, start, events, n - 1, id);
    }
  }

  /**
   * A request that was processed, and is sent again before its cached answer expires, gets an equal
   * answer and changes nothing, whatever happened in between; this holds exactly for ids that are not blank.
   */
  lemma {:induction false} ResendIsIdempotent(plugins: map<string, Plugin>, start: Data, first: Event,
                                              events: seq<Event>, again: Event)
    requires Consistent(plugins, start) && first.Call? && again.Call?
      && again.action.requestId == first.action.requestId
    requires forall i | 0 <= i < |events| :: events[i] != CacheExpiry(first.action.requestId)
    ensures var (processed, answer) := Serial(plugins, start, first.action, first.checkedAtMs, first.savedAtMs);
            var later := Replay(plugins, processed, events, |events|);
            NonBlank(first.action.requestId) ==>
              Serial(plugins, later, again.action, again.checkedAtMs, again.savedAtMs) == (later, answer)
    ensures Served(Apply(plugins, start, first), first.action.requestId) <==> NonBlank(first.action.requestId)
  {
    hide NonBlank, Decide;
    var id := first.action.requestId;
    var processed := Apply(plugins, start, first);
    EventEffect(plugins, start, first);
    if !Served(start, id) {
      CallEffect(plugins, start, first);
    }
    assert id in processed.cache && processed.cache[id].requestId == id;
    if NonBlank(id) {
      CachedAnswerStays(plugins, processed, events, |events|, id);
    }
  }

  // -------------------------------------------------------------------- expiry

  /** Under a clock that never goes back, a match whose turn has expired stays as it is until it is activated again. */
  lemma {:induction false} ExpiredMatchIsFrozen(plugins: map<string, Plugin>, start: Data, events: seq<Event>, n: nat,
                                                nowMs: int)
    requires Consistent(plugins, start) && n <= |events| && NoActivation(events)
    requires TimedOut(plugins, start, nowMs)
    requires forall i | 0 <= i < n && events[i].Call? :: events[i].checkedAtMs >= nowMs
    ensures var after := Replay(plugins, start, events, n);
            after.state == start.state && after.meta == start.meta
  {
    hide TimeoutInForce, NonBlank, Apply, Succeeds, FailsRetryably;
    if n > 0 {
      ExpiredMatchIsFrozen(plugins, start, events, n - 1, nowMs);
      var before := Replay(plugins, start, events, n - 1);
      RunKeepsConsistency(plugins, start, events, 0, n - 1);
      EventEffect(plugins, before, events[n - 1]);
      NotReached(plugins, before, events[n - 1]);
    }
  }

  lemma NotReached(plugins: map<string, Plugin>, d: Data, e: Event)
    requires !Reaches(plugins, d, e)
    ensures !Succeeds(plugins, d, e) && !FailsRetryably(plugins, d, e)
  {
  }

  /** What `startMatch` leaves is consistent, whatever was stored before: runs may begin with it. */
  lemma {:induction false} StartedMatchIsConsistent(plugins: map<string, Plugin>, data: Data, gameId: string, seed: int,
                                                    rule: Option<Json>, activeRule: Option<ActiveRule>)
    requires gameId in plugins && gameId != "" && PluginLaws(plugins[gameId])
    requires plugins[gameId].getTurn(plugins[gameId].initialize(seed, rule)) >= 0
    requires forall id | id in data.cache :: data.cache[id].requestId == id
    ensures var d := Started(plugins[gameId], data, gameId, seed, rule, activeRule);
      && Consistent(plugins, d) && Game(plugins, d) == plugins[gameId]
      && d.state.value == plugins[gameId].initialize(seed, rule) && d.meta.value.retryCount == Some(0)
      && (data.meta.None? ==> d.meta.value.turnStartedAtMs.None?)
  {
  }

  /** The text under a key of the state, if there is one that is not blank; keys are distinct. */
  lemma {:induction false} TextOfMember(members: seq<Member>, key: string)
    requires DistinctKeys(members)
    ensures forall i | 0 <= i < |members| && members[i].key == key ::
      TextMember(members, key)
      == if members[i].value.Str? && NonBlank(members[i].value.s) then members[i].value.s else ""
    ensures (forall i | 0 <= i < |members| :: members[i].key != key) ==> TextMember(members, key) == ""
  {
    hide NonBlank;
    if members != [] {
      TextOfMember(members[1..], key);
    }
  }

  /** A started match is recorded with its game, its seed and the published rule, or else what its state says. */
  lemma {:induction false} StartedMatchTells(p: Plugin, data: Data, gameId: string, seed: int, rule: Option<Json>,
                                             activeRule: Option<ActiveRule>)
    ensures var state, after := p.initialize(seed, rule), Started(p, data, gameId, seed, rule, activeRule);
      && after.meta.Some?
      && var meta := after.meta.value;
      && meta.gameId == Some(gameId) && meta.seed == Some(seed) && after.state == Some(state)
      && meta.turn == Some(p.getTurn(state)) && meta.retryCount == Some(0) && after.cache == data.cache
      && (data.meta.None? ==> meta.turnStartedAtMs.None?)
      && (data.meta.Some? ==> meta.turnStartedAtMs == data.meta.value.turnStartedAtMs)
      && match activeRule
         case Some(r) =>
           && meta.ruleId == Some(r.ruleId) && meta.ruleVersion == Some(r.ruleVersion)
           && meta.turnTimeoutSec == Some(match r.turnTimeoutSeconds { case Some(n) => n case None => GameTimeout(p) })
         case None =>
           && meta.ruleId == Some(if StateText(state, "ruleId") != "" then StateText(state, "ruleId") else gameId)
           && meta.ruleVersion
              == Some(if StateText(state, "ruleVersion") != "" then StateText(state, "ruleVersion") else p.ruleVersion)
           && meta.turnTimeoutSec == Some(GameTimeout(p))
  {
    hide StateText;
  }
}
