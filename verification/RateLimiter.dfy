/** The sliding-window limiter: a pruned, expiring sorted set that stands for the full log of admissions. */
module RateLimiter {
  import opened Wrappers

  /** The sorted set of one match: scores by member, and when Redis drops the key. */
  datatype ZSet = ZSet(members: map<string, int>, expiresAtMs: Option<int>)

  const EMPTY := ZSet(map[], None)

  /** A key whose time to live is over reads as missing. */
  function Live(z: ZSet, nowMs: int): map<string, int> {
    if z.expiresAtMs.Some? && z.expiresAtMs.value <= nowMs then map[] else z.members
  }

  /** ZREMRANGEBYSCORE -inf start. */
  function Prune(members: map<string, int>, start: int): map<string, int> {
    map m | m in members && members[m] > start :: members[m]
  }

  /** PEXPIRE: a missing key stays missing, a window that is not positive deletes the key. */
  function Expire(members: map<string, int>, nowMs: int, windowMs: int): ZSet {
    if members == map[] || windowMs <= 0 then EMPTY else ZSet(members, Some(nowMs + windowMs))
  }

  function ScriptResult(z: ZSet, nowMs: int, windowMs: int, maxRequests: int, member: string): (ZSet, bool) {
    var kept := Prune(Live(z, nowMs), nowMs - windowMs);
    if |kept| >= maxRequests then (Expire(kept, nowMs, windowMs), false)
    else (Expire(kept[member := nowMs], nowMs, windowMs), true)
  }

  class RedisMatchActionRateLimiter {
    const windowMs: int
    const maxRequests: int
    var members: map<string, int>
    var expiresAtMs: Option<int>

    constructor (windowMs: int, maxRequests: int)
      ensures this.windowMs == windowMs && this.maxRequests == maxRequests && Key() == EMPTY
    {
      this.windowMs, this.maxRequests := windowMs, maxRequests;
      members, expiresAtMs := map[], None;
    }

    ghost function Key(): ZSet
      reads this
    {
      ZSet(members, expiresAtMs)
    }

    /** PEXPIRE on the key as it stands. */
    method PExpire(nowMs: int)
      modifies this
      ensures Key() == Expire(old(members), nowMs, windowMs)
    {
      if members == map[] || windowMs <= 0 {
        members, expiresAtMs := map[], None;
      } else {
        expiresAtMs := Some(nowMs + windowMs);
      }
    }

    method Allow(nowMs: int, member: string) returns (allowed: bool)
      modifies this
      ensures (Key(), allowed) == ScriptResult(old(Key()), nowMs, windowMs, maxRequests, member)
    {
      members := Live(ZSet(members, expiresAtMs), nowMs);
      members := map m | m in members && members[m] > nowMs - windowMs :: members[m];
      if |members| >= maxRequests {
        PExpire(nowMs);
        return false;
      }
      members := members[member := nowMs];
      PExpire(nowMs);
      allowed := true;
    }

    method Clear()
      modifies this
      ensures Key() == EMPTY
    {
      members, expiresAtMs := map[], None;
    }
  }

  // ------------------------------------------------------------------- the log

  /** All admissions since the last clear: time by member. */
  type Log = map<string, int>

  function Window(log: Log, t: int, windowMs: int): Log {
    map m | m in log && t - windowMs < log[m] <= t :: log[m]
  }

  datatype Event = Allow(nowMs: int, member: string) | Clear(nowMs: int)

  datatype World = World(key: ZSet, log: Log)

  function Next(w: World, e: Event, windowMs: int, maxRequests: int): World {
    match e
    case Clear(_) => World(EMPTY, map[])
    case Allow(nowMs, member) =>
      var (key, allowed) := ScriptResult(w.key, nowMs, windowMs, maxRequests, member);
      World(key, if allowed then w.log[member := nowMs] else w.log)
  }

  function Run(events: seq<Event>, n: nat, windowMs: int, maxRequests: int): World
    requires n <= |events|
  {
    if n == 0 then World(EMPTY, map[])
        else Next(Run(events, n - 1, windowMs, maxRequests), events[n - 1], windowMs, maxRequests)
  }

  /** The clock does not go back and every request brings a member of its own. */
  ghost predicate Proper(events: seq<Event>) {
    && (forall i, j | 0 <= i < j < |events| :: events[i].nowMs <= events[j].nowMs)
    && (forall i, j | 0 <= i < j < |events| && events[i].Allow? && events[j].Allow? ::
        events[i].member != events[j].member)
  }

  // -------------------------------------------------------------- the refinement

  /** How the key relates to the log at time `lastMs` of the latest event. */
  ghost predicate Refines(w: World, lastMs: int, windowMs: int) {
    && (forall m | m in w.log :: w.log[m] <= lastMs)
    && (forall m | m in w.key.members :: m in w.log && w.log[m] == w.key.members[m])
    && (forall m | m in w.log && w.log[m] > lastMs - windowMs :: m in w.key.members)
    && (w.key.members == map[] <==> w.key.expiresAtMs.None?)
    && (w.key.expiresAtMs.Some? ==> w.key.expiresAtMs.value == lastMs + windowMs)
  }

  /** At any later time, pruning what the key still holds gives exactly the window of the full log. */
  lemma {:induction false} KeyShowsWindow(w: World, lastMs: int, windowMs: int, nowMs: int)
    requires Refines(w, lastMs, windowMs) && lastMs <= nowMs
    ensures Prune(Live(w.key, nowMs), nowMs - windowMs) == Window(w.log, nowMs, windowMs)
  {
    var kept, window := Prune(Live(w.key, nowMs), nowMs - windowMs), Window(w.log, nowMs, windowMs);
    forall m ensures m in kept <==> m in window {
    }
  }

  /** The expiry of the key drops nothing that pruning at that moment would keep. */
  lemma {:induction false} ExpiryDropsOnlyOldEntries(w: World, lastMs: int, windowMs: int, nowMs: int)
    requires Refines(w, lastMs, windowMs) && w.key.expiresAtMs.Some? && w.key.expiresAtMs.value <= nowMs
    ensures Prune(w.key.members, nowMs - windowMs) == map[]
  {
    assert forall m | m in w.key.members :: w.key.members[m] <= nowMs - windowMs;
  }

  /** Giving the window of the log a time to live makes it refine the log. */
  lemma ExpireRefines(members: map<string, int>, log: Log, nowMs: int, windowMs: int)
    requires forall m | m in log :: log[m] <= nowMs
    requires windowMs > 0 ==> members == Window(log, nowMs, windowMs)
    ensures Refines(World(Expire(members, nowMs, windowMs), log), nowMs, windowMs)
  {
  }

  lemma WindowAfterAdmission(log: Log, nowMs: int, member: string, windowMs: int)
    requires windowMs > 0
    ensures Window(log[member := nowMs], nowMs, windowMs) == Window(log, nowMs, windowMs)[member := nowMs]
  {
  }

  lemma ScriptSeesWindow(w: World, lastMs: int, nowMs: int, windowMs: int, maxRequests: int, member: string)
    requires Refines(w, lastMs, windowMs) && lastMs <= nowMs
    ensures var window := Window(w.log, nowMs, windowMs);
      ScriptResult(w.key, nowMs, windowMs, maxRequests, member)
      == if |window| >= maxRequests then (Expire(window, nowMs, windowMs), false)
         else (Expire(window[member := nowMs], nowMs, windowMs), true)
  {
    KeyShowsWindow(w, lastMs, windowMs, nowMs);
    hide Refines, Window, Expire, Prune, Live;
  }

  lemma {:induction false} StepRefines(w: World, lastMs: int, e: Event, windowMs: int, maxRequests: int)
    requires Refines(w, lastMs, windowMs) && lastMs <= e.nowMs
    ensures Refines(Next(w, e, windowMs, maxRequests), e.nowMs, windowMs)
    ensures e.Allow? ==>
      (ScriptResult(w.key, e.nowMs, windowMs, maxRequests, e.member).1 <==>
          |Window(w.log, e.nowMs, windowMs)| < maxRequests)
  {
    LogTimes(w, lastMs, windowMs);
    if e.Allow? {
      ScriptSeesWindow(w, lastMs, e.nowMs, windowMs, maxRequests, e.member);
      hide Refines, Window, Expire, ScriptResult;
      var window := Window(w.log, e.nowMs, windowMs);
      if |window| >= maxRequests {
        ExpireRefines(window, w.log, e.nowMs, windowMs);
      } else {
        if windowMs > 0 {
          WindowAfterAdmission(w.log, e.nowMs, e.member, windowMs);
        }
        ExpireRefines(window[e.member := e.nowMs], w.log[e.member := e.nowMs], e.nowMs, windowMs);
      }
    } else {
      EmptyRefines(e.nowMs, windowMs);
    }
  }

  /** A log is within the limit when no window of it holds more than `maxRequests` admissions. */
  ghost predicate WithinLimit(log: Log, windowMs: int, maxRequests: int) {
    forall t: int :: |Window(log, t, windowMs)| <= maxRequests
  }

  lemma {:induction false} SmallerSet(a: set<string>, b: set<string>)
    requires a <= b
    ensures |a| <= |b|
  {
    if a != {} {
      var x :| x in a;
      SmallerSet(a - {x}, b - {x});
    }
  }

  lemma {:induction false} AdmissionKeepsLimit(log: Log, nowMs: int, member: string, windowMs: int, maxRequests: int)
    requires WithinLimit(log, windowMs, maxRequests) && |Window(log, nowMs, windowMs)| < maxRequests
    requires member !in log && forall m | m in log :: log[m] <= nowMs
    ensures WithinLimit(log[member := nowMs], windowMs, maxRequests)
  {
    var longer := log[member := nowMs];
    forall t: int ensures |Window(longer, t, windowMs)| <= maxRequests {
      if t < nowMs {
        EarlierWindow(log, nowMs, member, windowMs, t);
      } else {
        LaterWindow(log, nowMs, member, windowMs, t);
      }
    }
  }

  lemma EarlierWindow(log: Log, nowMs: int, member: string, windowMs: int, t: int)
    requires t < nowMs && member !in log
    ensures Window(log[member := nowMs], t, windowMs) == Window(log, t, windowMs)
  {
  }

  lemma LaterWindow(log: Log, nowMs: int, member: string, windowMs: int, t: int)
    requires nowMs <= t && forall m | m in log :: log[m] <= nowMs
    ensures |Window(log[member := nowMs], t, windowMs)| <= |Window(log, nowMs, windowMs)| + 1
  {
    var later, recent := Window(log[member := nowMs], t, windowMs), Window(log, nowMs, windowMs);
    assert later.Keys <= recent.Keys + {member};
    SmallerSet(later.Keys, recent.Keys + {member});
  }

  /**
   * After any proper run the key refines the log, and between clears no time window of the given
   * length ever holds more than `maxRequests` admitted actions.
   */
  lemma {:induction false} LimiterIsSound(events: seq<Event>, n: nat, windowMs: int, maxRequests: int)
    requires Proper(events) && n <= |events| && maxRequests >= 0
    ensures var w := Run(events, n, windowMs, maxRequests);
      && (n > 0 ==> Refines(w, events[n - 1].nowMs, windowMs))
      && (n == 0 ==> w == World(EMPTY, map[]))
      && WithinLimit(w.log, windowMs, maxRequests)
      && forall m | m in w.log :: exists i :: 0 <= i < n && events[i].Allow? && events[i].member == m
  {
    hide ScriptResult, WithinLimit, Refines;
    if n == 0 {
      EmptyWithinLimit(windowMs, maxRequests);
    } else {
      LimiterIsSound(events, n - 1, windowMs, maxRequests);
      var w, e := Run(events, n - 1, windowMs, maxRequests), events[n - 1];
      var lastMs := if n == 1 then e.nowMs else events[n - 2].nowMs;
      EmptyRefines(lastMs, windowMs);
      StepRefines(w, lastMs, e, windowMs, maxRequests);
      LogTimes(w, lastMs, windowMs);
      if e.Allow? {
        assert e.member !in w.log;
        if ScriptResult(w.key, e.nowMs, windowMs, maxRequests, e.member).1 {
          AdmissionKeepsLimit(w.log, e.nowMs, e.member, windowMs, maxRequests);
        }
      } else {
        EmptyWithinLimit(windowMs, maxRequests);
      }
    }
  }

  lemma EmptyWithinLimit(windowMs: int, maxRequests: int)
    requires maxRequests >= 0
    ensures WithinLimit(map[], windowMs, maxRequests)
  {
    forall t: int ensures |Window(map[], t, windowMs)| <= maxRequests {
      assert Window(map[], t, windowMs) == map[];
    }
  }

  lemma EmptyRefines(lastMs: int, windowMs: int)
    ensures Refines(World(EMPTY, map[]), lastMs, windowMs)
  {
  }

  lemma LogTimes(w: World, lastMs: int, windowMs: int)
    requires Refines(w, lastMs, windowMs)
    ensures forall m | m in w.log :: w.log[m] <= lastMs
  {
  }

  /** A request is refused exactly when the window that ends now is full. */
  lemma {:induction false} RefusedOnlyWhenFull(events: seq<Event>, n: nat, windowMs: int, maxRequests: int)
    requires Proper(events) && n < |events| && events[n].Allow? && maxRequests >= 0
    ensures var w, e := Run(events, n, windowMs, maxRequests), events[n];
      !ScriptResult(w.key, e.nowMs, windowMs, maxRequests, e.member).1
      <==> |Window(w.log, e.nowMs, windowMs)| == maxRequests
  {
    hide ScriptResult, Refines, Window;
    LimiterIsSound(events, n, windowMs, maxRequests);
    var w, e := Run(events, n, windowMs, maxRequests), events[n];
    var lastMs := if n == 0 then e.nowMs else events[n - 1].nowMs;
    EmptyRefines(lastMs, windowMs);
    StepRefines(w, lastMs, e, windowMs, maxRequests);
    assert |Window(w.log, e.nowMs, windowMs)| <= maxRequests;
  }
}
