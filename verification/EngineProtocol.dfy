/**
 * Many calls of `processAction` on one match, interleaved Redis call by Redis call, and the
 * proof that they leave and answer what some serial order of them leaves and answers.
 */
module EngineProtocol {
  import opened Wrappers
  import opened StableJson
  import opened Engine
  import opened EngineRuns

  // ---------------------------------------------------------------- the machine

  /** Where a call stands: the next Redis operation it will make, with what it has read so far. */
  datatype Pc =
    | Checking
    | Fetching
    | ReadingTimeout
    | Locking(ttlSeconds: int)
    | LoadingMeta
    | LoadingState(meta: Option<Meta>)
    | Deciding(meta: Option<Meta>, state: Option<Json>)
    | SavingState(plan: Plan, event: Event)
    | SavingMeta(plan: Plan, event: Event)
    | Marking(plan: Plan, event: Event)
    | Releasing(response: Response)
    | Finished(response: Response)
    | Refused
  {
    /** The call believes that it holds the lock. */
    predicate InSection() {
      Working() || Releasing?
    }

    /** The call holds the lock and has not made its last write. */
    predicate Working() {
      LoadingMeta? || LoadingState? || Deciding? || SavingState? || SavingMeta? || Marking?
    }

    /** The call has taken effect and knows its answer. */
    predicate TookEffect() {
      Releasing? || Finished?
    }

    /** The call has answered its caller: with the outcome, or because it did not get the lock. */
    predicate Ended() {
      Finished? || Refused?
    }

    predicate PastCheck() {
      ReadingTimeout? || Locking? || Working()
    }
  }

  datatype Caller = Caller(action: Action, pc: Pc) {
    /** A call with a plan will take effect as a call of its own action. */
    predicate PlansItself() {
      pc.SavingState? || pc.SavingMeta? || pc.Marking? ==> pc.event.Call? && pc.event.action == action
    }
  }

  /** One line of the serial history: who, what, and the answer a call got. */
  datatype Entry = Entry(token: Option<int>, event: Event, response: Option<Response>)

  /** Calls are named by their lock owner tokens; `history` records when each call took effect. */
  datatype World = World(data: Data, lock: Option<Lock>, clock: int, calls: map<int, Caller>, history: seq<Entry>)

  datatype Move =
    | Begin(token: int, action: Action)
    | Advance(token: int, nowMs: int, laterMs: int)
    | ActivateMatch(nowMs: int)
    | ExpireAnswer(requestId: string)

  /** What a call that has ended answers; the refused one did not get the lock. */
  function AnswerOf(c: Caller): Response
    requires c.pc.Ended()
  {
    if c.pc.Refused? then Error(c.action.requestId, ServiceUnavailable, true) else c.pc.response
  }

  function SetPc(w: World, token: int, pc: Pc): World
    requires token in w.calls
  {
    w.(calls := w.calls[token := w.calls[token].(pc := pc)])
  }

  function Commit(w: World, token: int, event: Event, response: Response): World {
    w.(history := w.history + [Entry(Some(token), event, Some(response))])
  }

  /** One Redis operation, or the local decision, of one call. */
  function AdvanceCall(plugins: map<string, Plugin>, w: World, token: int, nowMs: int, laterMs: int): World
    requires token in w.calls
  {
    var action := w.calls[token].action;
    var id := action.requestId;
    match w.calls[token].pc
    case Checking => SetPc(w, token, if id in w.data.cache then Fetching else ReadingTimeout)
    case Fetching =>
      if Served(w.data, id) then
        Commit(SetPc(w, token, Finished(w.data.cache[id])), token, Call(action, nowMs, laterMs), w.data.cache[id])
      else SetPc(w, token, ReadingTimeout)
    case ReadingTimeout => SetPc(w, token, Locking(TurnTimeoutSeconds(w.data.meta, None) + LOCK_TTL_EXTRA_SECONDS))
    case Locking(ttl) =>
      if LockFree(w.lock, nowMs) then
        SetPc(w, token, LoadingMeta).(lock := Some(Lock(token, nowMs + ttl * 1000)))
      else SetPc(w, token, Refused)
    case LoadingMeta => SetPc(w, token, LoadingState(w.data.meta))
    case LoadingState(meta) => SetPc(w, token, Deciding(meta, w.data.state))
    case Deciding(meta, state) =>
      var plan := Decide(plugins, meta, state, action, nowMs, laterMs);
      if plan.mark then SetPc(w, token, SavingState(plan, Call(action, nowMs, laterMs)))
      else Commit(SetPc(w, token, Releasing(plan.response)), token, Call(action, nowMs, laterMs), plan.response)
    case SavingState(plan, event) => SetPc(w, token, SavingMeta(plan, event)).(data := SaveState(w.data, plan))
    case SavingMeta(plan, event) => SetPc(w, token, Marking(plan, event)).(data := SaveMeta(w.data, plan))
    case Marking(plan, event) =>
      Commit(SetPc(w, token, Releasing(plan.response)).(data := Mark(w.data, id, plan)), token, event, plan.response)
    case Releasing(response) => SetPc(w, token, Finished(response)).(lock := Release(w.lock, token, nowMs))
    case Finished(_) => w
    case Refused => w
  }

  /** The compare-and-delete script. */
  function Release(lock: Option<Lock>, owner: int, nowMs: int): Option<Lock> {
    if !LockFree(lock, nowMs) && lock.value.owner == owner then None else lock
  }

  function Next(plugins: map<string, Plugin>, w: World, m: Move): World {
    match m
    case Begin(token, action) => w.(calls := w.calls[token := Caller(action, Checking)])
    case Advance(token, nowMs, laterMs) =>
      if token in w.calls then AdvanceCall(plugins, w, token, nowMs, laterMs).(clock := laterMs) else w
    case ActivateMatch(nowMs) =>
      w.(data := Activate(w.data, nowMs), clock := nowMs,
         history := w.history + [Entry(None, Activation(nowMs), None)])
    case ExpireAnswer(requestId) =>
      w.(data := w.data.(cache := w.data.cache - {requestId}),
         history := w.history + [Entry(None, CacheExpiry(requestId), None)])
  }

  // ----------------------------------------------------------- the hypotheses

  /** No call is still in its critical section when its lock runs out. */
  ghost predicate Timely(w: World, nowMs: int) {
    (w.lock.Some? && w.lock.value.owner in w.calls && w.calls[w.lock.value.owner].pc.InSection()) ==>
      nowMs < w.lock.value.expiresAtMs
  }

  /**
   * Tokens are fresh, calls that overlap carry different request ids, time goes forward, critical
   * sections end in time, and a match is not activated in the middle of one.
   */
  ghost predicate Allowed(w: World, m: Move) {
    match m
    case Begin(token, action) =>
      token !in w.calls
      && forall t | t in w.calls && !w.calls[t].pc.Ended() :: w.calls[t].action.requestId != action.requestId
    case Advance(token, nowMs, laterMs) => token in w.calls && w.clock <= nowMs <= laterMs && Timely(w, laterMs)
    case ActivateMatch(nowMs) =>
      w.clock <= nowMs && Timely(w, nowMs) && forall t | t in w.calls :: !w.calls[t].pc.Working()
    case ExpireAnswer(_) => true
  }

  ghost predicate AllowedRun(plugins: map<string, Plugin>, w: World, moves: seq<Move>)
    decreases |moves|
  {
    moves == [] || (Allowed(w, moves[0]) && AllowedRun(plugins, Next(plugins, w, moves[0]), moves[1..]))
  }

  function RunMoves(plugins: map<string, Plugin>, w: World, moves: seq<Move>): World
    decreases |moves|
  {
    if moves == [] then w else RunMoves(plugins, Next(plugins, w, moves[0]), moves[1..])
  }

  // ------------------------------------------------------------ the serial history

  ghost function Events(history: seq<Entry>): seq<Event> {
    seq(|history|, i requires 0 <= i < |history| => history[i].event)
  }

  /** What the history leaves when its events run one after the other. */
  ghost function ReplayHistory(plugins: map<string, Plugin>, start: Data, history: seq<Entry>): Data {
    if history == [] then start else
    var n := |history| - 1;
    Apply(plugins, ReplayHistory(plugins, start, history[..n]), history[n].event)
  }

  /** Every answer in the history is the answer the call gets in the serial run. */
  ghost predicate Answered(plugins: map<string, Plugin>, start: Data, history: seq<Entry>) {
    history == [] ||
    (var n := |history| - 1;
     var e := history[n];
     Answered(plugins, start, history[..n])
     && (e.event.Call? ==>
           e.response == Some(Serial(plugins, ReplayHistory(plugins, start, history[..n]),
                                     e.event.action, e.event.checkedAtMs, e.event.savedAtMs).1)))
  }

  lemma HistoryStep(plugins: map<string, Plugin>, start: Data, history: seq<Entry>, e: Entry)
    ensures ReplayHistory(plugins, start, history + [e])
      == Apply(plugins, ReplayHistory(plugins, start, history), e.event)
    ensures Answered(plugins, start, history + [e]) <==>
      Answered(plugins, start, history)
      && (e.event.Call? ==>
            e.response == Some(Serial(plugins, ReplayHistory(plugins, start, history),
                                      e.event.action, e.event.checkedAtMs, e.event.savedAtMs).1))
  {
    hide Apply, Serial;
    assert (history + [e])[..|history|] == history;
  }

  lemma {:induction false} ReplayPrefix(plugins: map<string, Plugin>, start: Data, a: seq<Event>, b: seq<Event>, n: nat)
    requires n <= |a| && n <= |b| && a[..n] == b[..n]
    ensures Replay(plugins, start, a, n) == Replay(plugins, start, b, n)
  {
    hide Apply;
    if n > 0 {
      assert a[..n][..n - 1] == a[..n - 1] && b[..n][..n - 1] == b[..n - 1];
      assert a[n - 1] == a[..n][n - 1] && b[n - 1] == b[..n][n - 1];
      ReplayPrefix(plugins, start, a, b, n - 1);
    }
  }

  lemma {:induction false} HistoryIsSerialRun(plugins: map<string, Plugin>, start: Data, history: seq<Entry>)
    ensures ReplayHistory(plugins, start, history) == Replay(plugins, start, Events(history), |history|)
  {
    hide Apply;
    if history != [] {
      var n := |history| - 1;
      HistoryIsSerialRun(plugins, start, history[..n]);
      assert Events(history)[..n] == Events(history[..n])[..n];
      ReplayPrefix(plugins, start, Events(history), Events(history[..n]), n);
    }
  }

  // -------------------------------------------------------------- the invariant

  /** The data in Redis while a call is at work, relative to the serial history so far. */
  ghost predicate Partial(plugins: map<string, Plugin>, base: Data, data: Data, c: Caller) {
    match c.pc
    case LoadingMeta => data == base
    case LoadingState(meta) => data == base && meta == base.meta
    case Deciding(meta, state) => data == base && meta == base.meta && state == base.state
    case SavingState(plan, event) => Planned(plugins, base, c.action, plan, event) && data == base
    case SavingMeta(plan, event) => Planned(plugins, base, c.action, plan, event) && data == SaveState(base, plan)
    case Marking(plan, event) =>
      Planned(plugins, base, c.action, plan, event) && data == SaveMeta(SaveState(base, plan), plan)
    case _ => true
  }

  ghost predicate Planned(plugins: map<string, Plugin>, base: Data, action: Action, plan: Plan, event: Event) {
    && event.Call? && event.action == action && plan.mark
    && plan == Decide(plugins, base.meta, base.state, action, event.checkedAtMs, event.savedAtMs)
  }

  ghost predicate Listed(history: seq<Entry>, token: int) {
    exists i :: 0 <= i < |history| && history[i].token == Some(token)
  }

  /** The entry is this call's own: its action, and the answer it has. */
  ghost predicate OwnEntry(e: Entry, c: Caller) {
    c.pc.TookEffect() && e.event.Call? && e.event.action == c.action && e.response == Some(c.pc.response)
  }

  /**
   * The history lists exactly the calls that took effect, each of them once, with its own action and answer;
   * its other entries are activations and expiries.
   */
  ghost predicate HistoryOk(w: World) {
    && (forall i | 0 <= i < |w.history| ::
          match w.history[i].token
          case Some(t) => t in w.calls && OwnEntry(w.history[i], w.calls[t])
          case None => !w.history[i].event.Call?)
    && (forall i, j | 0 <= i < j < |w.history| && w.history[i].token.Some? :: w.history[i].token != w.history[j].token)
    && (forall t | t in w.calls :: w.calls[t].pc.TookEffect() <==> Listed(w.history, t))
    && (forall t | t in w.calls :: w.calls[t].PlansItself())
  }

  ghost predicate CallOk(w: World, t: int)
    requires t in w.calls
  {
    var c := w.calls[t];
    && (c.pc.InSection() ==> w.lock.Some? && w.lock.value.owner == t)
    && (c.pc.PastCheck() ==> !Served(w.data, c.action.requestId))
  }

  ghost predicate DistinctIds(w: World) {
    forall t, u | t in w.calls && u in w.calls && t != u && !w.calls[t].pc.Ended() && !w.calls[u].pc.Ended() ::
      w.calls[t].action.requestId != w.calls[u].action.requestId
  }

  ghost predicate DataOk(plugins: map<string, Plugin>, start: Data, w: World) {
    var base := ReplayHistory(plugins, start, w.history);
    && (forall t | t in w.calls && w.calls[t].pc.Working() :: Partial(plugins, base, w.data, w.calls[t]))
    && ((forall t | t in w.calls :: !w.calls[t].pc.Working()) ==> w.data == base)
  }

  ghost predicate Coherent(plugins: map<string, Plugin>, start: Data, w: World) {
    && (forall t | t in w.calls :: CallOk(w, t))
    && DistinctIds(w)
    && DataOk(plugins, start, w)
    && Answered(plugins, start, w.history)
  }

  ghost predicate Inv(plugins: map<string, Plugin>, start: Data, w: World) {
    Coherent(plugins, start, w) && HistoryOk(w)
  }

  // ------------------------------------------------------- each move keeps it

  /** What a call that does not move itself needs from the rest of the world. */
  lemma OtherCallOk(w: World, v: World, t: int)
    requires t in w.calls && t in v.calls && v.calls[t] == w.calls[t] && CallOk(w, t)
    requires w.calls[t].pc.InSection() ==> v.lock == w.lock
    requires w.calls[t].pc.PastCheck() && Served(v.data, w.calls[t].action.requestId) ==>
               Served(w.data, w.calls[t].action.requestId)
    ensures CallOk(v, t)
  {
  }

  /** The cache is written last, so it always agrees with the serial history. */
  lemma BaseCache(plugins: map<string, Plugin>, start: Data, w: World)
    requires DataOk(plugins, start, w)
    ensures ReplayHistory(plugins, start, w.history).cache == w.data.cache
  {
    hide ReplayHistory, Decide, Planned;
    if t :| t in w.calls && w.calls[t].pc.Working() {
      assert Partial(plugins, ReplayHistory(plugins, start, w.history), w.data, w.calls[t]);
    }
  }

  lemma ServedSame(a: Data, b: Data, id: string)
    requires a.cache == b.cache
    ensures Served(a, id) == Served(b, id)
  {
  }

  /** Moves of other calls leave the data of the one at work as the history says. */
  lemma DataOkFrame(plugins: map<string, Plugin>, start: Data, w: World, v: World)
    requires DataOk(plugins, start, w) && v.data == w.data
    requires ReplayHistory(plugins, start, v.history) == ReplayHistory(plugins, start, w.history)
    requires forall t | t in v.calls && v.calls[t].pc.Working() :: t in w.calls && v.calls[t] == w.calls[t]
    requires forall t | t in w.calls && w.calls[t].pc.Working() :: t in v.calls && v.calls[t] == w.calls[t]
    ensures DataOk(plugins, start, v)
  {
    hide ReplayHistory, Partial;
  }

  lemma BeginCoheres(plugins: map<string, Plugin>, start: Data, w: World, m: Move)
    requires Coherent(plugins, start, w) && Allowed(w, m) && m.Begin?
    ensures Coherent(plugins, start, Next(plugins, w, m))
  {
    hide ReplayHistory, Partial, Answered;
    var v := Next(plugins, w, m);
    forall t | t in v.calls ensures CallOk(v, t) {
      if t != m.token {
        OtherCallOk(w, v, t);
      }
    }
    DataOkFrame(plugins, start, w, v);
  }

  lemma ExpireCoheres(plugins: map<string, Plugin>, start: Data, w: World, m: Move)
    requires Coherent(plugins, start, w) && Allowed(w, m) && m.ExpireAnswer?
    ensures Coherent(plugins, start, Next(plugins, w, m))
  {
    hide ReplayHistory, Answered, Decide, NonBlank;
    var v := Next(plugins, w, m);
    HistoryStep(plugins, start, w.history, Entry(None, CacheExpiry(m.requestId), None));
    forall t | t in v.calls ensures CallOk(v, t) {
      OtherCallOk(w, v, t);
    }
    BaseCache(plugins, start, w);
    var base, after := ReplayHistory(plugins, start, w.history), ReplayHistory(plugins, start, v.history);
    assert after == base.(cache := base.cache - {m.requestId});
    forall t | t in v.calls && v.calls[t].pc.Working() ensures Partial(plugins, after, v.data, v.calls[t]) {
      assert Partial(plugins, base, w.data, w.calls[t]);
    }
  }

  lemma ActivateCoheres(plugins: map<string, Plugin>, start: Data, w: World, m: Move)
    requires Coherent(plugins, start, w) && Allowed(w, m) && m.ActivateMatch?
    ensures Coherent(plugins, start, Next(plugins, w, m))
  {
    hide ReplayHistory, Answered, Partial, NonBlank;
    var v := Next(plugins, w, m);
    HistoryStep(plugins, start, w.history, Entry(None, Activation(m.nowMs), None));
    forall t | t in v.calls ensures CallOk(v, t) {
      OtherCallOk(w, v, t);
    }
  }

  /** Steps before the lock is taken. */
  lemma OutsideCoheres(plugins: map<string, Plugin>, start: Data, w: World, m: Move)
    requires Coherent(plugins, start, w) && Allowed(w, m) && m.Advance?
    requires var pc := w.calls[m.token].pc; pc.Checking? || pc.ReadingTimeout? || pc.Locking? || pc.Fetching?
    requires w.calls[m.token].pc.Fetching? ==> !Served(w.data, w.calls[m.token].action.requestId)
    requires !Next(plugins, w, m).calls[m.token].pc.Working()
    ensures Coherent(plugins, start, Next(plugins, w, m))
  {
    hide ReplayHistory, Answered, NonBlank, TurnTimeoutSeconds, Decide, Partial, DataOk;
    var v := Next(plugins, w, m);
    assert CallOk(w, m.token);
    assert v.data == w.data && v.history == w.history && v.lock == w.lock;
    forall t | t in v.calls ensures CallOk(v, t) {
      if t != m.token {
        assert CallOk(w, t);
        OtherCallOk(w, v, t);
      }
    }
    DataOkFrame(plugins, start, w, v);
  }

  /** The step that takes the lock. */
  lemma LockingCoheres(plugins: map<string, Plugin>, start: Data, w: World, m: Move)
    requires Coherent(plugins, start, w) && Allowed(w, m) && m.Advance?
    requires w.calls[m.token].pc.Locking? && Next(plugins, w, m).calls[m.token].pc.Working()
    ensures Coherent(plugins, start, Next(plugins, w, m))
  {
    hide ReplayHistory, Answered, Served, TurnTimeoutSeconds, Decide;
    var v := Next(plugins, w, m);
    assert CallOk(w, m.token);
    forall t | t in w.calls && t != m.token ensures CallOk(v, t) && !v.calls[t].pc.Working() {
      assert CallOk(w, t);
      OtherCallOk(w, v, t);
    }
  }

  /** An answer from the cache takes effect where the cache is read. */
  lemma CachedAnswerCoheres(plugins: map<string, Plugin>, start: Data, w: World, m: Move)
    requires Coherent(plugins, start, w) && Allowed(w, m) && m.Advance?
    requires w.calls[m.token].pc.Fetching? && Served(w.data, w.calls[m.token].action.requestId)
    ensures Coherent(plugins, start, Next(plugins, w, m))
  {
    hide ReplayHistory, Answered, NonBlank, Decide, Partial;
    var v := Next(plugins, w, m);
    var c := w.calls[m.token];
    var e := Entry(Some(m.token), Call(c.action, m.nowMs, m.laterMs), Some(w.data.cache[c.action.requestId]));
    HistoryStep(plugins, start, w.history, e);
    BaseCache(plugins, start, w);
    ServedSame(w.data, ReplayHistory(plugins, start, w.history), c.action.requestId);
    forall t | t in v.calls ensures CallOk(v, t) {
      if t != m.token {
        assert CallOk(w, t);
        OtherCallOk(w, v, t);
      }
    }
    DataOkFrame(plugins, start, w, v);
  }

  /** While one call is at work no other call is. */
  lemma AloneAtWork(w: World, token: int)
    requires token in w.calls && w.calls[token].pc.InSection() && forall t | t in w.calls :: CallOk(w, t)
    ensures forall t | t in w.calls && t != token :: !w.calls[t].pc.InSection()
  {
    forall t | t in w.calls && t != token ensures !w.calls[t].pc.InSection() {
      assert CallOk(w, t) && CallOk(w, token);
    }
  }

  /** Reads and writes in the critical section that do not complete the call. */
  lemma SectionCoheres(plugins: map<string, Plugin>, start: Data, w: World, m: Move)
    requires Coherent(plugins, start, w) && Allowed(w, m) && m.Advance?
    requires w.calls[m.token].pc.Working() && Next(plugins, w, m).calls[m.token].pc.Working()
    ensures Coherent(plugins, start, Next(plugins, w, m))
  {
    hide ReplayHistory, Answered, NonBlank, Decide, TurnTimeoutSeconds;
    var v := Next(plugins, w, m);
    assert CallOk(w, m.token);
    AloneAtWork(w, m.token);
    assert Partial(plugins, ReplayHistory(plugins, start, w.history), w.data, w.calls[m.token]);
    assert v.data.cache == w.data.cache && v.history == w.history && v.lock == w.lock;
    forall t | t in v.calls ensures CallOk(v, t) {
      if t != m.token {
        assert CallOk(w, t);
        ServedSame(w.data, v.data, w.calls[t].action.requestId);
        OtherCallOk(w, v, t);
      } else {
        ServedSame(w.data, v.data, w.calls[t].action.requestId);
      }
    }
  }

  lemma UnmarkedPlanWritesNothing(plugins: map<string, Plugin>, meta: Option<Meta>, state: Option<Json>,
                                  action: Action, checkedAtMs: int, savedAtMs: int)
    ensures var plan := Decide(plugins, meta, state, action, checkedAtMs, savedAtMs);
            !plan.mark ==> plan.state.None? && plan.meta.None?
  {
    hide TurnTimeoutSeconds, NonBlank;
  }

  /** The step with which a call at work takes effect: its last write, or a refusal without writes. */
  lemma CommitCoheres(plugins: map<string, Plugin>, start: Data, w: World, m: Move)
    requires Coherent(plugins, start, w) && Allowed(w, m) && m.Advance?
    requires w.calls[m.token].pc.Working() && !Next(plugins, w, m).calls[m.token].pc.Working()
    ensures Coherent(plugins, start, Next(plugins, w, m))
  {
    hide ReplayHistory, Answered, NonBlank, Decide, TurnTimeoutSeconds;
    var v := Next(plugins, w, m);
    var c := w.calls[m.token];
    var base := ReplayHistory(plugins, start, w.history);
    assert CallOk(w, m.token);
    AloneAtWork(w, m.token);
    assert Partial(plugins, base, w.data, c);
    BaseCache(plugins, start, w);
    ServedSame(w.data, base, c.action.requestId);
    var e := v.history[|w.history|];
    if c.pc.Deciding? {
      UnmarkedPlanWritesNothing(plugins, c.pc.meta, c.pc.state, c.action, m.nowMs, m.laterMs);
    }
    HistoryStep(plugins, start, w.history, e);
    assert v.data == Apply(plugins, base, e.event);
    forall t | t in v.calls ensures CallOk(v, t) {
      if t != m.token {
        assert CallOk(w, t);
        OtherCallOk(w, v, t);
      }
    }
  }

  lemma ReleaseCoheres(plugins: map<string, Plugin>, start: Data, w: World, m: Move)
    requires Coherent(plugins, start, w) && Allowed(w, m) && m.Advance?
    requires var pc := w.calls[m.token].pc; pc.Releasing? || pc.Ended()
    ensures Coherent(plugins, start, Next(plugins, w, m))
  {
    hide ReplayHistory, Answered, NonBlank, Partial;
    var v := Next(plugins, w, m);
    assert CallOk(w, m.token);
    forall t | t in v.calls ensures CallOk(v, t) {
      if t != m.token {
        assert CallOk(w, t);
        if w.calls[m.token].pc.Releasing? {
          AloneAtWork(w, m.token);
        }
        OtherCallOk(w, v, t);
      }
    }
    DataOkFrame(plugins, start, w, v);
  }

  /** One move of a call changes that call alone. */
  lemma AdvanceFrame(plugins: map<string, Plugin>, w: World, t: int, nowMs: int, laterMs: int)
    requires t in w.calls
    ensures var v := Next(plugins, w, Advance(t, nowMs, laterMs));
      && v.calls.Keys == w.calls.Keys && (forall u | u in w.calls && u != t :: v.calls[u] == w.calls[u])
      && v.calls[t].action == w.calls[t].action
  {
    var pc := AdvanceMovesOne(plugins, w, t, nowMs, laterMs);
    hide AdvanceCall;
  }

  lemma AdvanceMovesOne(plugins: map<string, Plugin>, w: World, t: int, nowMs: int, laterMs: int) returns (pc: Pc)
    requires t in w.calls
    ensures AdvanceCall(plugins, w, t, nowMs, laterMs).calls == w.calls[t := w.calls[t].(pc := pc)]
  {
    hide Decide, Served, LockFree, SaveState, SaveMeta, Mark, TurnTimeoutSeconds, Release;
    var v := AdvanceCall(plugins, w, t, nowMs, laterMs);
    pc := v.calls[t].pc;
  }

  /** The moves with which a call takes effect. */
  predicate Commits(plugins: map<string, Plugin>, w: World, t: int, nowMs: int, laterMs: int)
    requires t in w.calls
  {
    var c := w.calls[t];
    || (c.pc.Fetching? && Served(w.data, c.action.requestId))
    || (c.pc.Deciding? && !Decide(plugins, c.pc.meta, c.pc.state, c.action, nowMs, laterMs).mark)
    || c.pc.Marking?
  }

  lemma CommittingMove(plugins: map<string, Plugin>, w: World, t: int, nowMs: int, laterMs: int)
    requires t in w.calls && w.calls[t].PlansItself() && Commits(plugins, w, t, nowMs, laterMs)
    ensures var v := Next(plugins, w, Advance(t, nowMs, laterMs));
      && |v.history| == |w.history| + 1 && v.history == w.history + [v.history[|w.history|]]
      && v.history[|w.history|].token == Some(t) && OwnEntry(v.history[|w.history|], v.calls[t])
      && !w.calls[t].pc.TookEffect() && v.calls[t].PlansItself()
  {
    hide Decide, Served, SaveState, SaveMeta, Mark;
  }

  lemma OtherMove(plugins: map<string, Plugin>, w: World, t: int, nowMs: int, laterMs: int)
    requires t in w.calls && w.calls[t].PlansItself() && !Commits(plugins, w, t, nowMs, laterMs)
    ensures var v := Next(plugins, w, Advance(t, nowMs, laterMs));
      && v.history == w.history && v.calls[t].PlansItself()
      && v.calls[t].pc.TookEffect() == w.calls[t].pc.TookEffect()
      && (w.calls[t].pc.TookEffect() ==> v.calls[t].pc.response == w.calls[t].pc.response)
  {
    hide Decide, Served, LockFree, SaveState, SaveMeta, Mark, TurnTimeoutSeconds, Release;
  }

  /** The history stays a list of the calls that took effect. */
  lemma HistoryStaysOk(plugins: map<string, Plugin>, w: World, m: Move)
    requires HistoryOk(w) && Allowed(w, m)
    ensures HistoryOk(Next(plugins, w, m)) && w.history <= Next(plugins, w, m).history
  {
    hide Listed, Caller.PlansItself, OwnEntry, Commits;
    var v := Next(plugins, w, m);
    match m
    case Begin(token, action) =>
      NotListed(w, token);
      BeginPlansNothing(action);
    case ActivateMatch(nowMs) =>
      ListAppends(w, v, Entry(None, Activation(nowMs), None));
    case ExpireAnswer(requestId) =>
      ListAppends(w, v, Entry(None, CacheExpiry(requestId), None));
    case Advance(t, nowMs, laterMs) =>
      hide Next;
      AdvanceFrame(plugins, w, t, nowMs, laterMs);
      if Commits(plugins, w, t, nowMs, laterMs) {
        CommittingMove(plugins, w, t, nowMs, laterMs);
        ListAppends(w, v, v.history[|w.history|]);
      } else {
        OtherMove(plugins, w, t, nowMs, laterMs);
        ListStays(w, v, t);
      }
  }

  lemma BeginPlansNothing(action: Action)
    ensures Caller(action, Checking).PlansItself()
  {
  }

  lemma ListStays(w: World, v: World, t: int)
    requires HistoryOk(w) && v.history == w.history && v.calls.Keys == w.calls.Keys && t in w.calls
    requires forall u | u in w.calls && u != t :: v.calls[u] == w.calls[u]
    requires v.calls[t].PlansItself() && v.calls[t].action == w.calls[t].action
    requires v.calls[t].pc.TookEffect() == w.calls[t].pc.TookEffect()
    requires w.calls[t].pc.TookEffect() ==> v.calls[t].pc.response == w.calls[t].pc.response
    ensures HistoryOk(v)
  {
    hide Listed, Caller.PlansItself;
  }

  /** A call that takes effect is added at the end. */
  lemma ListAppends(w: World, v: World, e: Entry)
    requires HistoryOk(w) && v.history == w.history + [e] && v.calls.Keys == w.calls.Keys
    requires forall t | t in w.calls && e.token != Some(t) :: v.calls[t] == w.calls[t]
    requires e.token.None? ==> !e.event.Call?
    requires e.token.Some? ==>
      e.token.value in w.calls && !w.calls[e.token.value].pc.TookEffect()
      && v.calls[e.token.value].PlansItself() && OwnEntry(e, v.calls[e.token.value])
    ensures HistoryOk(v)
  {
    hide Listed, Caller.PlansItself;
    forall t | t in v.calls ensures v.calls[t].pc.TookEffect() <==> Listed(v.history, t) {
      ListedGrows(w.history, e, t);
    }
    if e.token.Some? {
      NotListedYet(w, e.token.value);
    }
  }

  lemma ListedGrows(history: seq<Entry>, e: Entry, t: int)
    ensures Listed(history + [e], t) <==> Listed(history, t) || e.token == Some(t)
  {
    if Listed(history, t) {
      var i :| 0 <= i < |history| && history[i].token == Some(t);
      assert (history + [e])[i].token == Some(t);
    }
    assert (history + [e])[|history|] == e;
  }

  lemma NotListed(w: World, t: int)
    requires HistoryOk(w) && t !in w.calls
    ensures !Listed(w.history, t)
  {
  }

  lemma NotListedYet(w: World, t: int)
    requires HistoryOk(w) && t in w.calls && !w.calls[t].pc.TookEffect()
    ensures !Listed(w.history, t)
    ensures forall i | 0 <= i < |w.history| :: w.history[i].token != Some(t)
  {
  }

  lemma {:induction false} MoveKeepsInv(plugins: map<string, Plugin>, start: Data, w: World, m: Move)
    requires Inv(plugins, start, w) && Allowed(w, m)
    ensures Inv(plugins, start, Next(plugins, w, m)) && w.history <= Next(plugins, w, m).history
  {
    hide Coherent, HistoryOk, Served, Decide, TurnTimeoutSeconds;
    HistoryStaysOk(plugins, w, m);
    match m
    case Begin(_, _) => BeginCoheres(plugins, start, w, m);
    case ActivateMatch(_) => ActivateCoheres(plugins, start, w, m);
    case ExpireAnswer(_) => ExpireCoheres(plugins, start, w, m);
    case Advance(token, _, _) =>
      var pc := w.calls[token].pc;
      if pc.Releasing? || pc.Ended() {
        ReleaseCoheres(plugins, start, w, m);
      } else if !pc.Working() {
        if pc.Fetching? && Served(w.data, w.calls[token].action.requestId) {
          CachedAnswerCoheres(plugins, start, w, m);
        } else if Next(plugins, w, m).calls[token].pc.Working() {
          LockingCoheres(plugins, start, w, m);
        } else {
          OutsideCoheres(plugins, start, w, m);
        }
      } else if Next(plugins, w, m).calls[token].pc.Working() {
        SectionCoheres(plugins, start, w, m);
      } else {
        CommitCoheres(plugins, start, w, m);
      }
  }

  lemma {:induction false} RunKeepsInv(plugins: map<string, Plugin>, start: Data, w: World, moves: seq<Move>)
    requires Inv(plugins, start, w) && AllowedRun(plugins, w, moves)
    ensures Inv(plugins, start, RunMoves(plugins, w, moves))
    ensures w.history <= RunMoves(plugins, w, moves).history
    decreases |moves|
  {
    hide Inv, Next, Allowed;
    if moves != [] {
      MoveKeepsInv(plugins, start, w, moves[0]);
      RunKeepsInv(plugins, start, Next(plugins, w, moves[0]), moves[1..]);
    }
  }

  lemma {:induction false} RunConcat(plugins: map<string, Plugin>, w: World, a: seq<Move>, b: seq<Move>)
    ensures RunMoves(plugins, w, a + b) == RunMoves(plugins, RunMoves(plugins, w, a), b)
    decreases |a|
  {
    hide Next;
    if a == [] {
      assert a + b == b;
    } else {
      assert (a + b)[1..] == a[1..] + b;
      RunConcat(plugins, Next(plugins, w, a[0]), a[1..], b);
    }
  }

  // -------------------------------------------------------------- main results

  /** A match before any call: nobody has started, the history is empty. */
  ghost predicate Quiet(start: Data, w: World) {
    w.calls == map[] && w.history == [] && w.data == start
  }

  function BackgroundOf(m: Move): seq<Event> {
    match m
    case ActivateMatch(nowMs) => [Activation(nowMs)]
    case ExpireAnswer(requestId) => [CacheExpiry(requestId)]
    case _ => []
  }

  /** The activations and expiries of a run, in order. */
  function Background(moves: seq<Move>): seq<Event>
    decreases |moves|
  {
    if moves == [] then [] else BackgroundOf(moves[0]) + Background(moves[1..])
  }

  /** The entries of a history that belong to no call. */
  function Unclaimed(history: seq<Entry>): seq<Event> {
    if history == [] then []
    else
      var n := |history| - 1;
      Unclaimed(history[..n]) + if history[n].token.None? then [history[n].event] else []
  }

  lemma {:induction false} BackgroundIsListed(plugins: map<string, Plugin>, w: World, moves: seq<Move>)
    ensures Unclaimed(RunMoves(plugins, w, moves).history) == Unclaimed(w.history) + Background(moves)
    decreases |moves|
  {
    hide Next, Unclaimed, BackgroundOf;
    if moves == [] {
      assert Unclaimed(w.history) + [] == Unclaimed(w.history);
    } else {
      var v := Next(plugins, w, moves[0]);
      BackgroundStep(plugins, w, moves[0]);
      BackgroundIsListed(plugins, v, moves[1..]);
      Regroup(Unclaimed(w.history), BackgroundOf(moves[0]), Background(moves[1..]));
      hide RunMoves, Background;
    }
  }

  lemma Regroup(a: seq<Event>, b: seq<Event>, c: seq<Event>)
    ensures a + b + c == a + (b + c)
  {
  }

  lemma AdvanceClaims(plugins: map<string, Plugin>, w: World, t: int, nowMs: int, laterMs: int)
    requires t in w.calls
    ensures var v := AdvanceCall(plugins, w, t, nowMs, laterMs);
      v.history == w.history
      || (|v.history| == |w.history| + 1 && v.history[..|w.history|] == w.history
          && v.history[|w.history|].token == Some(t))
  {
    hide Decide, Served, LockFree, SaveState, SaveMeta, Mark, TurnTimeoutSeconds, Release;
  }

  lemma BackgroundStep(plugins: map<string, Plugin>, w: World, m: Move)
    ensures Unclaimed(Next(plugins, w, m).history) == Unclaimed(w.history) + BackgroundOf(m)
  {
    hide AdvanceCall;
    var v := Next(plugins, w, m);
    if m.Advance? && m.token in w.calls {
      AdvanceClaims(plugins, w, m.token, m.nowMs, m.laterMs);
    }
    if v.history != w.history {
      assert v.history[..|w.history|] == w.history;
    }
  }

  /** The calls of a world are those it began with and those that were begun, with their actions. */
  lemma {:induction false} CallsAreBegun(plugins: map<string, Plugin>, w: World, moves: seq<Move>, t: int, a: Action)
    requires AllowedRun(plugins, w, moves)
    ensures var v := RunMoves(plugins, w, moves);
      t in v.calls && v.calls[t].action == a <==> (t in w.calls && w.calls[t].action == a) || Begin(t, a) in moves
    decreases |moves|
  {
    hide AdvanceCall;
    if moves != [] {
      var m := moves[0];
      if m.Advance? {
        AdvanceFrame(plugins, w, m.token, m.nowMs, m.laterMs);
      }
      assert moves == [m] + moves[1..];
      CallsAreBegun(plugins, Next(plugins, w, m), moves[1..], t, a);
      hide RunMoves, AllowedRun;
    }
  }

  lemma {:induction false} QuietRunKeepsInv(plugins: map<string, Plugin>, start: Data, w: World, moves: seq<Move>)
    requires Quiet(start, w) && AllowedRun(plugins, w, moves)
    ensures Inv(plugins, start, RunMoves(plugins, w, moves))
  {
    hide ReplayHistory, Next, Allowed, AllowedRun, Partial, RunMoves;
    EmptyHistory(plugins, start);
    assert Answered(plugins, start, w.history) && HistoryOk(w);
    RunKeepsInv(plugins, start, w, moves);
  }

  /**
   * Whatever the interleaving, the history is a serial order of the calls that were begun: it lists each call that
   * took effect exactly once, with its own action and the answer that the serial run of the history gives it, and no
   * call that was refused or has not taken effect; its other entries are the activations and expiries of the run, in
   * order.
   * When no call is in the middle of its work the match holds exactly what that serial run leaves.
   */
  lemma {:induction false} InterleavingIsSerial(plugins: map<string, Plugin>, start: Data, w: World, moves: seq<Move>)
    requires Quiet(start, w) && AllowedRun(plugins, w, moves)
    ensures var v := RunMoves(plugins, w, moves);
      && (forall t, a :: Begin(t, a) in moves <==> t in v.calls && v.calls[t].action == a)
      && HistoryOk(v) && Answered(plugins, start, v.history)
      && Unclaimed(v.history) == Background(moves)
      && ((forall t | t in v.calls :: !v.calls[t].pc.Working()) ==>
            v.data == Replay(plugins, start, Events(v.history), |v.history|))
      && (forall t | t in v.calls && v.calls[t].pc.Finished? ::
            exists i :: 0 <= i < |v.history| && v.history[i].token == Some(t)
              && v.history[i].event.Call? && v.history[i].event.action == v.calls[t].action
              && v.history[i].response == Some(AnswerOf(v.calls[t])))
      && (forall t | t in v.calls && v.calls[t].pc.Refused? ::
            forall i | 0 <= i < |v.history| :: v.history[i].token != Some(t))
      && (forall i, j | 0 <= i < j < |v.history| && v.history[i].token.Some? ::
          v.history[i].token != v.history[j].token)
  {
    hide ReplayHistory, Next, Allowed, AllowedRun, Partial, Replay, RunMoves, Answered;
    QuietRunKeepsInv(plugins, start, w, moves);
    BackgroundIsListed(plugins, w, moves);
    forall t, a
      ensures var v := RunMoves(plugins, w, moves); Begin(t, a) in moves <==> t in v.calls && v.calls[t].action == a
    {
      CallsAreBegun(plugins, w, moves, t, a);
    }
    var v := RunMoves(plugins, w, moves);
    HistoryIsSerialRun(plugins, start, v.history);
  }

  /** The answer of an entry is the one that the serial run up to there gives. */
  lemma {:induction false} AnsweredAt(plugins: map<string, Plugin>, start: Data, history: seq<Entry>, i: nat)
    requires Answered(plugins, start, history) && i < |history| && history[i].event.Call?
    ensures var e := history[i].event;
      history[i].response == Some(Serial(plugins, Replay(plugins, start, Events(history), i), e.action, e.checkedAtMs,
                                         e.savedAtMs).1)
    decreases |history|
  {
    hide Serial, Apply, Replay, ReplayHistory;
    var n := |history| - 1;
    HistoryIsSerialRun(plugins, start, history[..n]);
    ReplayPrefix(plugins, start, Events(history), Events(history[..n]), i) by {
      assert Events(history)[..i] == Events(history[..n])[..i];
    }
    if i < n {
      AnsweredAt(plugins, start, history[..n], i);
    }
  }

  /**
   * Whatever the interleaving, each call that took effect is answered as a call on the match at its place of the
   * serial order must be, and leaves the match as it must.
   */
  lemma {:induction false} AnswersAreExact(plugins: map<string, Plugin>, start: Data, w: World, moves: seq<Move>,
                                           i: nat)
    requires Quiet(start, w) && AllowedRun(plugins, w, moves) && Consistent(plugins, start)
    requires var v := RunMoves(plugins, w, moves); i < |v.history| && v.history[i].event.Call?
    ensures var history := RunMoves(plugins, w, moves).history;
      var before, after := Replay(plugins, start, Events(history), i), Replay(plugins, start, Events(history), i + 1);
      && HasGame(plugins, before) && history[i].response.Some?
      && AnswerTells(plugins, before, history[i].event, history[i].response.value)
      && DataTells(plugins, before, history[i].event, history[i].response.value, after)
  {
    hide Consistent, RunMoves, AllowedRun, HistoryOk, AnswerTells, DataTells, Serial, Answered;
    InterleavingIsSerial(plugins, start, w, moves);
    var history := RunMoves(plugins, w, moves).history;
    AnsweredAt(plugins, start, history, i);
    RunKeepsConsistency(plugins, start, Events(history), i, i);
    var before := Replay(plugins, start, Events(history), i);
    Parts(plugins, before);
    CallIsExact(plugins, before, history[i].event);
  }

  lemma EmptyHistory(plugins: map<string, Plugin>, start: Data)
    ensures ReplayHistory(plugins, start, []) == start
  {
  }

  lemma {:induction false} AllowedPrefix(plugins: map<string, Plugin>, w: World, a: seq<Move>, b: seq<Move>)
    requires AllowedRun(plugins, w, a + b)
    ensures AllowedRun(plugins, w, a) && AllowedRun(plugins, RunMoves(plugins, w, a), b)
    decreases |a|
  {
    hide Next, Allowed;
    if a == [] {
      assert a + b == b;
    } else {
      assert (a + b)[1..] == a[1..] + b;
      AllowedPrefix(plugins, Next(plugins, w, a[0]), a[1..], b);
    }
  }

  /**
   * The serial order respects time: a call that had taken effect before another one began stands before it,
   * whatever happens later.
   */
  lemma {:induction false} OrderRespectsTime(plugins: map<string, Plugin>, start: Data, w: World,
                                             before: seq<Move>, later: seq<Move>, t: int, u: int, i: nat, j: nat)
    requires Quiet(start, w) && AllowedRun(plugins, w, before + later)
    requires var x := RunMoves(plugins, w, before); t in x.calls && x.calls[t].pc.TookEffect() && u !in x.calls
    requires var v := RunMoves(plugins, w, before + later);
      i < |v.history| && j < |v.history| && v.history[i].token == Some(t) && v.history[j].token == Some(u)
    ensures i < j
  {
    hide ReplayHistory, Next, Allowed, AllowedRun, RunMoves, Coherent, HistoryOk, Listed;
    AllowedPrefix(plugins, w, before, later);
    RunConcat(plugins, w, before, later);
    var x := RunMoves(plugins, w, before);
    QuietRunKeepsInv(plugins, start, w, before);
    RunKeepsInv(plugins, start, x, later);
    ListedBefore(x, RunMoves(plugins, x, later), t, u, i, j);
  }

  lemma ListedBefore(x: World, v: World, t: int, u: int, i: nat, j: nat)
    requires HistoryOk(x) && HistoryOk(v) && x.history <= v.history
    requires t in x.calls && x.calls[t].pc.TookEffect() && u !in x.calls
    requires i < |v.history| && j < |v.history| && v.history[i].token == Some(t) && v.history[j].token == Some(u)
    ensures i < |x.history| <= j
  {
    assert Listed(x.history, t);
    assert forall n | 0 <= n < |x.history| :: v.history[n] == x.history[n];
    var k :| 0 <= k < |x.history| && x.history[k].token == Some(t);
    assert v.history[k] == x.history[k];
  }

  /** In every run at most one call is in its critical section, and until it leaves nobody can take the lock. */
  lemma {:induction false} SectionIsExclusive(plugins: map<string, Plugin>, start: Data, w: World, moves: seq<Move>,
                                              t: int)
    requires Quiet(start, w) && AllowedRun(plugins, w, moves)
    requires var v := RunMoves(plugins, w, moves); t in v.calls && v.calls[t].pc.InSection()
    ensures var v := RunMoves(plugins, w, moves);
      && (forall u | u in v.calls && v.calls[u].pc.InSection() :: u == t)
      && forall nowMs: int | Timely(v, nowMs) :: !LockFree(v.lock, nowMs)
  {
    hide ReplayHistory, Next, Allowed, AllowedRun, RunMoves, HistoryOk, DataOk, Answered, DistinctIds;
    QuietRunKeepsInv(plugins, start, w, moves);
    var v := RunMoves(plugins, w, moves);
    assert CallOk(v, t);
    forall u | u in v.calls && v.calls[u].pc.InSection() ensures u == t {
      assert CallOk(v, u);
    }
  }

  /** Between calls the meta hash and the state agree on the turn, and at most one retry is pending. */
  lemma {:induction false} MetaAgreesWithState(plugins: map<string, Plugin>, start: Data, w: World, moves: seq<Move>)
    requires Quiet(start, w) && AllowedRun(plugins, w, moves) && Consistent(plugins, start)
    ensures var v := RunMoves(plugins, w, moves);
      (forall t | t in v.calls :: !v.calls[t].pc.Working()) ==> Consistent(plugins, v.data)
  {
    hide Consistent, Replay, Answered, RunMoves, AllowedRun, HistoryOk;
    InterleavingIsSerial(plugins, start, w, moves);
    var v := RunMoves(plugins, w, moves);
    RunKeepsConsistency(plugins, start, Events(v.history), |v.history|, |v.history|);
  }

  /** In any world, timely or not, a call that releases never removes a lock held under another token. */
  lemma ReleaseSparesOthers(plugins: map<string, Plugin>, w: World, token: int, nowMs: int, laterMs: int)
    requires token in w.calls && w.calls[token].pc.Releasing? && w.lock.Some? && w.lock.value.owner != token
    ensures Next(plugins, w, Advance(token, nowMs, laterMs)).lock == w.lock
  {
  }
}
