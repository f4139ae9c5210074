/** The match engine: its Redis store, its plugins, and what one call of `processAction` does. */
module Engine {
  import opened Text
  import opened Wrappers
  import opened StableJson

  const MAX_RETRIES := 1
  const DEFAULT_TURN_TIMEOUT_SECONDS := 30
  const LOCK_TTL_EXTRA_SECONDS := 5

  // ------------------------------------------------------------------ plugins

  datatype Action = Action(tool: string, requestId: string, args: Json, actor: Option<string>)

  /** `retryable` is the field the plugin sets; leaving it out counts as retryable. */
  datatype Validation = Valid | Invalid(message: string, retryable: Option<bool>)

  datatype Termination = Termination(ended: bool, winner: Option<string>, reason: Option<string>)

  datatype Analytics = Analytics(phase: string, seat: string, scoreDiff: int)

  /** `settle` is `checkTermination`, which may also write to the state it is given. */
  datatype Plugin = Plugin(
    ruleVersion: string,
    turnTimeoutSeconds: Option<int>,
    initialize: (int, Option<Json>) -> Json,
    getTurn: Json -> int,
    consumeTurn: Json -> Json,
    validateAction: (Json, Action) -> Validation,
    applyAction: (Json, Action) -> (Json, Json),
    settle: Json -> (Json, Option<Termination>),
    analytics: (Json, string, Action) -> Analytics)

  /** What every game promises about turns; an action is applied only after it was found valid. */
  ghost predicate PluginLaws(p: Plugin) {
    && (forall s {:trigger p.consumeTurn(s)} :: p.getTurn(p.consumeTurn(s)) == p.getTurn(s) + 1)
    && (forall s, a {:trigger p.applyAction(s, a)} :: p.validateAction(s, a).Valid? ==>
          p.getTurn(s) <= p.getTurn(p.applyAction(s, a).0) <= p.getTurn(s) + 1)
    && (forall s {:trigger p.settle(s)} :: p.getTurn(p.settle(s).0) == p.getTurn(s))
  }

  // ---------------------------------------------------------------- responses

  datatype Failure =
    | ServiceUnavailable
    | MatchNotFound
    | StateNotFound
    | MissingGameId
    | PluginNotFound(gameId: string)
    | TurnExpired(seconds: int)
    | ValidationFailed(message: string)

  datatype TurnContext = TurnContext(
    phase: string, seat: string, scoreDiffBefore: int, scoreDiffAfter: int, ruleVersion: string)

  datatype Response =
    | Success(requestId: string, result: Json, termination: Option<Termination>, context: Option<TurnContext>)
    | Error(requestId: string, failure: Failure, retryable: bool)

  predicate NonBlank(s: string) {
    Trim(s) != ""
  }

  /** `isProcessActionResponse` on a cached response: the only field that can fail is a blank id. */
  predicate Servable(r: Response) {
    NonBlank(r.requestId)
  }

  // -------------------------------------------------------------------- store

  /** The fields of the match hash; a numeric field holds the integer its text reads as. */
  datatype Meta = Meta(
    gameId: Option<string>, seed: Option<int>, ruleId: Option<string>, ruleVersion: Option<string>, turn: Option<int>,
    retryCount: Option<int>, turnTimeoutSec: Option<int>, turnStartedAtMs: Option<int>)

  /** The keys of one match, apart from its lock. */
  datatype Data = Data(state: Option<Json>, meta: Option<Meta>, cache: map<string, Response>)

  datatype Lock = Lock(owner: int, expiresAtMs: int)

  /** Redis drops an expired key by itself. */
  predicate LockFree(lock: Option<Lock>, nowMs: int) {
    lock.None? || lock.value.expiresAtMs <= nowMs
  }

  function Newer<T>(old_: Option<T>, new_: Option<T>): Option<T> {
    if new_.Some? then new_ else old_
  }

  /** HSET keeps the fields that are not written. */
  function MergeMeta(current: Option<Meta>, m: Meta): Meta {
    match current
    case None => m
    case Some(c) =>
      Meta(Newer(c.gameId, m.gameId), Newer(c.seed, m.seed), Newer(c.ruleId, m.ruleId),
           Newer(c.ruleVersion, m.ruleVersion), Newer(c.turn, m.turn), Newer(c.retryCount, m.retryCount),
           Newer(c.turnTimeoutSec, m.turnTimeoutSec), Newer(c.turnStartedAtMs, m.turnStartedAtMs))
  }

  const NO_META := Meta(None, None, None, None, None, None, None, None)

  /** A hash field after a write: the value given, or the one from before when none is given. */
  predicate Overwritten<T(==)>(before: Option<T>, given: Option<T>, after: Option<T>) {
    (given.Some? ==> after == given) && (given.None? ==> after == before)
  }

  // ----------------------------------------------------- what one call decides

  function Positive(n: Option<int>): Option<int> {
    if n.Some? && n.value > 0 then n else None
  }

  function NonNegative(n: Option<int>): Option<int> {
    if n.Some? && n.value >= 0 then n else None
  }

  function TurnTimeoutSeconds(meta: Option<Meta>, plugin: Option<Plugin>): int {
    if meta.Some? && Positive(meta.value.turnTimeoutSec).Some? then meta.value.turnTimeoutSec.value
    else if plugin.Some? && Positive(plugin.value.turnTimeoutSeconds).Some? then plugin.value.turnTimeoutSeconds.value
    else DEFAULT_TURN_TIMEOUT_SECONDS
  }

  predicate IsTurnExpired(meta: Meta, timeoutSeconds: int, nowMs: int) {
    Positive(meta.turnStartedAtMs).Some? && nowMs - meta.turnStartedAtMs.value > timeoutSeconds * 1000
  }

  /** The writes a call makes while it holds the lock, in order: state, meta, response cache. */
  datatype Plan = Plan(state: Option<Json>, meta: Option<Meta>, mark: bool, response: Response)

  function Refuse(requestId: string, failure: Failure, retryable: bool): Plan {
    Plan(None, None, false, Error(requestId, failure, retryable))
  }

  /** The clock is read once for the expiry check and once when the turn clock is set. */
  function Decide(plugins: map<string, Plugin>, meta: Option<Meta>, state: Option<Json>, action: Action,
                  checkedAtMs: int, savedAtMs: int): Plan
  {
    var id := action.requestId;
    if meta.None? then Refuse(id, MatchNotFound, true)
    else if state.None? then Refuse(id, StateNotFound, false)
    else if meta.value.gameId.None? || meta.value.gameId.value == "" then Refuse(id, MissingGameId, false)
    else if meta.value.gameId.value !in plugins then Refuse(id, PluginNotFound(meta.value.gameId.value), false)
    else
      var plugin := plugins[meta.value.gameId.value];
      var timeout := TurnTimeoutSeconds(meta, Some(plugin));
      if IsTurnExpired(meta.value, timeout, checkedAtMs) then
        Plan(None, None, true, Error(id, TurnExpired(timeout), false))
      else match plugin.validateAction(state.value, action)
        case Invalid(message, retryable) => DecideInvalid(plugin, meta.value, state.value, id, message, retryable,
            timeout, savedAtMs)
        case Valid => DecideValid(plugin, meta.value, state.value, action, timeout, savedAtMs)
  }

  function DecideInvalid(plugin: Plugin, meta: Meta, state: Json, requestId: string, message: string,
                         retryable: Option<bool>, timeout: int, savedAtMs: int): Plan
  {
    var retries := NonNegative(meta.retryCount).GetOr(0);
    var mayRetry := retryable != Some(false) && retries < MAX_RETRIES;
    var response := Error(requestId, ValidationFailed(if message == "" then "Invalid action" else message), mayRetry);
    if mayRetry then
      Plan(None, Some(meta.(retryCount := Some(retries + 1))), true, response)
    else if retryable != Some(false) then
      var consumed := plugin.consumeTurn(state);
      var next := meta.(turn := Some(plugin.getTurn(consumed)), retryCount := Some(0),
                        turnTimeoutSec := Some(timeout), turnStartedAtMs := Some(savedAtMs));
      Plan(Some(consumed), Some(next), true, response)
    else
      Plan(None, None, true, response)
  }

  function DecideValid(plugin: Plugin, meta: Meta, state: Json, action: Action, timeout: int, savedAtMs: int): Plan {
    var (applied, result) := plugin.applyAction(state, action);
    var newTurn := plugin.getTurn(applied);
    var currentTurn := NonNegative(meta.turn).GetOr(newTurn);
    var (settled, termination) := plugin.settle(applied);
    var startedAt := if newTurn == currentTurn then meta.turnStartedAtMs.GetOr(savedAtMs) else savedAtMs;
    var next := meta.(turn := Some(newTurn), retryCount := Some(0),
                      turnTimeoutSec := Some(timeout), turnStartedAtMs := Some(startedAt));
    var context :=
      if action.actor.Some? && NonBlank(action.actor.value) then
        var before := plugin.analytics(state, action.actor.value, action);
        var after := plugin.analytics(applied, action.actor.value, action);
        Some(TurnContext(before.phase, before.seat, before.scoreDiff, after.scoreDiff,
                         meta.ruleVersion.GetOr(plugin.ruleVersion)))
      else None;
    Plan(Some(settled), Some(next), true, Success(action.requestId, result, termination, context))
  }

  function SaveState(data: Data, plan: Plan): Data {
    data.(state := Newer(data.state, plan.state))
  }

  function SaveMeta(data: Data, plan: Plan): Data {
    if plan.meta.Some? then data.(meta := Some(MergeMeta(data.meta, plan.meta.value))) else data
  }

  function Mark(data: Data, requestId: string, plan: Plan): Data {
    if plan.mark then data.(cache := data.cache[requestId := plan.response]) else data
  }

  predicate Served(data: Data, requestId: string) {
    requestId in data.cache && Servable(data.cache[requestId])
  }

  /** A whole call with nobody else at work: the data it leaves and its answer. */
  function Serial(plugins: map<string, Plugin>, data: Data, action: Action, checkedAtMs: int, savedAtMs: int)
    : (Data, Response)
  {
    if Served(data, action.requestId) then (data, data.cache[action.requestId])
    else
      var plan := Decide(plugins, data.meta, data.state, action, checkedAtMs, savedAtMs);
      (Mark(SaveMeta(SaveState(data, plan), plan), action.requestId, plan), plan.response)
  }

  function Activate(data: Data, nowMs: int): Data {
    if data.meta.None? then data
    else data.(meta := Some(MergeMeta(data.meta, data.meta.value.(turnStartedAtMs := Some(nowMs)))))
  }

  /** A text that a game has written into its state under this key, or the empty text. */
  function StateText(state: Json, key: string): string {
    if state.Obj? then TextMember(state.members, key) else ""
  }

  function TextMember(members: seq<Member>, key: string): string {
    if members == [] then ""
    else if members[0].key == key && members[0].value.Str? && NonBlank(members[0].value.s) then members[0].value.s
    else TextMember(members[1..], key)
  }

  /** What the engine takes from the published rule of a game. */
  datatype ActiveRule = ActiveRule(ruleId: string, ruleVersion: string, turnTimeoutSeconds: Option<int>)

  function Or(text: string, fallback: string): string {
    if text != "" then text else fallback
  }

  /** What starting a match leaves: a fresh state and meta; only the turn clock of an earlier match survives. */
  function Started(p: Plugin, data: Data, gameId: string, seed: int, rule: Option<Json>,
                   activeRule: Option<ActiveRule>): Data
  {
    var state := p.initialize(seed, rule);
    var (ruleId, version, timeout) :=
      match activeRule
      case Some(r) => (r.ruleId, r.ruleVersion, r.turnTimeoutSeconds.GetOr(TurnTimeoutSeconds(None, Some(p))))
      case None => (Or(StateText(state, "ruleId"), gameId), Or(StateText(state, "ruleVersion"), p.ruleVersion),
                    TurnTimeoutSeconds(None, Some(p)));
    var startedAt := if data.meta.Some? then data.meta.value.turnStartedAtMs else None;
    var meta := Meta(Some(gameId), Some(seed), Some(ruleId), Some(version), Some(p.getTurn(state)), Some(0),
                     Some(timeout), startedAt);
    Data(Some(state), Some(meta), data.cache)
  }

  // ---------------------------------------------------------------- the classes

  /** The Redis keys of one match and the operations of the Redis manager on them. */
  class RedisStore {
    var state: Option<Json>
    var meta: Option<Meta>
    var cache: map<string, Response>
    var lock: Option<Lock>

    constructor ()
      ensures Contents() == Data(None, None, map[]) && lock == None
    {
      state, meta, cache, lock := None, None, map[], None;
    }

    ghost function Contents(): Data
      reads this
    {
      Data(state, meta, cache)
    }

    method SaveMatchState(s: Json)
      modifies this`state
      ensures Contents() == old(Contents()).(state := Some(s))
    {
      state := Some(s);
    }

    /** Fields that are given replace the stored ones, the others keep their value; nothing else changes. */
    method SaveMatchMeta(m: Meta)
      modifies this`meta
      ensures meta.Some?
      ensures var was, now := if old(meta).Some? then old(meta).value else NO_META, meta.value;
        && Overwritten(was.gameId, m.gameId, now.gameId) && Overwritten(was.seed, m.seed, now.seed)
        && Overwritten(was.ruleId, m.ruleId, now.ruleId) && Overwritten(was.ruleVersion, m.ruleVersion, now.ruleVersion)
        && Overwritten(was.turn, m.turn, now.turn) && Overwritten(was.retryCount, m.retryCount, now.retryCount)
        && Overwritten(was.turnTimeoutSec, m.turnTimeoutSec, now.turnTimeoutSec)
        && Overwritten(was.turnStartedAtMs, m.turnStartedAtMs, now.turnStartedAtMs)
    {
      meta := Some(MergeMeta(meta, m));
    }

    /** SET NX EX: succeeds exactly when no unexpired lock is there. */
    method AcquireTurnLock(ttlSeconds: int, owner: int, nowMs: int) returns (acquired: bool)
      modifies this`lock
      ensures acquired <==> LockFree(old(lock), nowMs)
      ensures lock == if acquired then Some(Lock(owner, nowMs + ttlSeconds * 1000)) else old(lock)
    {
      acquired := LockFree(lock, nowMs);
      if acquired {
        lock := Some(Lock(owner, nowMs + ttlSeconds * 1000));
      }
    }

    /** Compare and delete: another owner's lock is never removed. */
    method ReleaseTurnLock(owner: int, nowMs: int) returns (released: bool)
      modifies this`lock
      ensures released <==> old(lock).Some? && old(lock).value.owner == owner && !LockFree(old(lock), nowMs)
      ensures released ==> lock.None?
      ensures !released ==> lock == old(lock)
      ensures old(lock).Some? && old(lock).value.owner != owner ==> lock == old(lock)
      ensures old(lock).Some? && old(lock).value.owner == owner ==> LockFree(lock, nowMs)
    {
      released := lock.Some? && lock.value.owner == owner && nowMs < lock.value.expiresAtMs;
      if released {
        lock := None;
      }
    }

    method MarkRequestIdProcessed(requestId: string, response: Response)
      modifies this`cache
      ensures Contents() == old(Contents()).(cache := old(cache)[requestId := response])
    {
      cache := cache[requestId := response];
    }

    method GetProcessedResponse(requestId: string) returns (r: Option<Response>)
      ensures r == if requestId in cache then Some(cache[requestId]) else None
    {
      r := if requestId in cache then Some(cache[requestId]) else None;
    }
  }

  class MatchEngine {
    const plugins: map<string, Plugin>
    const redis: RedisStore

    constructor (plugins: map<string, Plugin>, redis: RedisStore)
      ensures this.plugins == plugins && this.redis == redis
    {
      this.plugins, this.redis := plugins, redis;
    }

    /** `rule` is the definition handed to the game, `activeRule` the published rule. */
    method StartMatch(gameId: string, seed: int, rule: Option<Json>, activeRule: Option<ActiveRule>)
      returns (r: Result<(), Failure>)
      modifies redis
      ensures r == if gameId in plugins then Ok(()) else Err(PluginNotFound(gameId))
      ensures redis.Contents()
        == if gameId in plugins then Started(plugins[gameId], old(redis.Contents()), gameId, seed, rule, activeRule)
           else old(redis.Contents())
      ensures redis.lock == old(redis.lock)
    {
      if gameId !in plugins {
        return Err(PluginNotFound(gameId));
      }
      var plugin := plugins[gameId];
      var state := plugin.initialize(seed, rule);
      var turn := plugin.getTurn(state);
      var timeout := TurnTimeoutSeconds(None, Some(plugin));
      if activeRule.Some? && activeRule.value.turnTimeoutSeconds.Some? {
        timeout := activeRule.value.turnTimeoutSeconds.value;
      }
      var fallbackRuleId := Or(StateText(state, "ruleId"), gameId);
      var fallbackRuleVersion := Or(StateText(state, "ruleVersion"), plugin.ruleVersion);
      var ruleId := if activeRule.Some? then activeRule.value.ruleId else fallbackRuleId;
      var version := if activeRule.Some? then activeRule.value.ruleVersion else fallbackRuleVersion;
      redis.SaveMatchState(state);
      redis.SaveMatchMeta(
        Meta(Some(gameId), Some(seed), Some(ruleId), Some(version), Some(turn), Some(0), Some(timeout), None));
      r := Ok(());
    }

    method ActivateMatch(nowMs: int) returns (r: Result<(), Failure>)
      modifies redis
      ensures r.Ok? <==> old(redis.meta).Some?
      ensures redis.Contents() == Activate(old(redis.Contents()), nowMs)
      ensures redis.lock == old(redis.lock)
    {
      if redis.meta.None? {
        return Err(MatchNotFound);
      }
      redis.SaveMatchMeta(redis.meta.value.(turnStartedAtMs := Some(nowMs)));
      r := Ok(());
    }

    /**
     * One call without interference. `owner` is the call's lock token; the clock is read when the
     * lock is taken, when the turn is checked, when it is restarted and when the lock is released.
     */
    method ProcessAction(action: Action, owner: int, lockedAtMs: int, checkedAtMs: int, savedAtMs: int,
                         releasedAtMs: int)
      returns (response: Response)
      modifies redis
      ensures var free := LockFree(old(redis.lock), lockedAtMs);
              var served := Served(old(redis.Contents()), action.requestId);
              var (after, answer) := Serial(plugins, old(redis.Contents()), action, checkedAtMs, savedAtMs);
              if served then
                redis.Contents() == after && redis.lock == old(redis.lock) && response == answer
              else if free then
                redis.Contents() == after && LockFree(redis.lock, releasedAtMs) && response == answer
              else
                redis.Contents() == old(redis.Contents()) && redis.lock == old(redis.lock)
                && response == Error(action.requestId, ServiceUnavailable, true)
      ensures !Served(old(redis.Contents()), action.requestId) && LockFree(old(redis.lock), lockedAtMs) ==>
        var stored := if old(redis.meta).Some? then old(redis.meta).value.turnTimeoutSec else None;
        var seconds := if stored.Some? && stored.value > 0 then stored.value else 30;
        var until := lockedAtMs + (seconds + 5) * 1000;
        redis.lock == if releasedAtMs < until then None else Some(Lock(owner, until))
    {
      hide Decide, Trim;
      var isProcessed := action.requestId in redis.cache;
      if isProcessed {
        var cached := redis.GetProcessedResponse(action.requestId);
        if cached.Some? && Servable(cached.value) {
          return cached.value;
        }
      }
      var ttl := TurnTimeoutSeconds(redis.meta, None) + LOCK_TTL_EXTRA_SECONDS;
      var locked := redis.AcquireTurnLock(ttl, owner, lockedAtMs);
      if !locked {
        return Error(action.requestId, ServiceUnavailable, true);
      }
      response := ProcessLocked(action, checkedAtMs, savedAtMs);
      var _ := redis.ReleaseTurnLock(owner, releasedAtMs);
    }

    /** The part of a call between taking and releasing the lock. */
    method ProcessLocked(action: Action, checkedAtMs: int, savedAtMs: int) returns (response: Response)
      modifies redis`state, redis`meta, redis`cache
      ensures var plan := Decide(plugins, old(redis.meta), old(redis.state), action, checkedAtMs, savedAtMs);
              response == plan.response
              && redis.Contents()
                 == Mark(SaveMeta(SaveState(old(redis.Contents()), plan), plan), action.requestId, plan)
    {
      hide Trim;
      var meta, state := redis.meta, redis.state;
      if meta.None? {
        return Error(action.requestId, MatchNotFound, true);
      }
      if state.None? {
        return Error(action.requestId, StateNotFound, false);
      }
      if meta.value.gameId.None? || meta.value.gameId.value == "" {
        return Error(action.requestId, MissingGameId, false);
      }
      if meta.value.gameId.value !in plugins {
        return Error(action.requestId, PluginNotFound(meta.value.gameId.value), false);
      }
      var plugin := plugins[meta.value.gameId.value];
      var turnTimeoutSeconds := TurnTimeoutSeconds(meta, Some(plugin));
      if IsTurnExpired(meta.value, turnTimeoutSeconds, checkedAtMs) {
        response := Error(action.requestId, TurnExpired(turnTimeoutSeconds), false);
        redis.MarkRequestIdProcessed(action.requestId, response);
        return;
      }

      var validation := plugin.validateAction(state.value, action);
      if validation.Invalid? {
        var currentRetryCount := NonNegative(meta.value.retryCount).GetOr(0);
        var isRetryable := validation.retryable != Some(false) && currentRetryCount < MAX_RETRIES;
        if isRetryable {
          redis.SaveMatchMeta(meta.value.(retryCount := Some(currentRetryCount + 1)));
        } else if validation.retryable != Some(false) {
          var consumedState := plugin.consumeTurn(state.value);
          redis.SaveMatchState(consumedState);
          redis.SaveMatchMeta(meta.value.(
            turn := Some(plugin.getTurn(consumedState)), retryCount := Some(0),
            turnTimeoutSec := Some(turnTimeoutSeconds), turnStartedAtMs := Some(savedAtMs)));
        }
        var message := if validation.message == "" then "Invalid action" else validation.message;
        response := Error(action.requestId, ValidationFailed(message), isRetryable);
        redis.MarkRequestIdProcessed(action.requestId, response);
        return;
      }

      var (appliedState, result) := plugin.applyAction(state.value, action);
      var newTurn := plugin.getTurn(appliedState);
      var currentTurn := NonNegative(meta.value.turn).GetOr(newTurn);
      var context: Option<TurnContext> := None;
      if action.actor.Some? && NonBlank(action.actor.value) {
        var before := plugin.analytics(state.value, action.actor.value, action);
        var after := plugin.analytics(appliedState, action.actor.value, action);
        context := Some(TurnContext(before.phase, before.seat, before.scoreDiff, after.scoreDiff,
                                    meta.value.ruleVersion.GetOr(plugin.ruleVersion)));
      }
      var (newState, termination) := plugin.settle(appliedState);
      redis.SaveMatchState(newState);
      redis.SaveMatchMeta(meta.value.(
        turn := Some(newTurn), retryCount := Some(0), turnTimeoutSec := Some(turnTimeoutSeconds),
        turnStartedAtMs := Some(if newTurn == currentTurn then meta.value.turnStartedAtMs.GetOr(savedAtMs)
            else savedAtMs)));
      response := Success(action.requestId, result, termination, context);
      redis.MarkRequestIdProcessed(action.requestId, response);
    }
  }
}
