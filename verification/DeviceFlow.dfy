/**
 * Device authorization: the in-memory session store, the service over it, and what a device code is answered over a
 * run.
 */
module DeviceFlow {
  import opened Wrappers
  import opened Text

  const KNOWN_TTL_SECONDS := 3600

  datatype Status = Pending | Approved | Consumed

  datatype Tokens = Tokens(uid: string, idToken: string, refreshToken: string, expiresIn: int)

  datatype ErrorCode = InvalidRequest | NotFound | AuthorizationPending | AuthorizationAlreadyConsumed | ExpiredToken

  datatype Session = Session(
    deviceCode: string, userCode: string, verificationUri: string, issuedAt: int, expiresAt: int, interval: int,
    status: Status, tokens: Option<Tokens>, approvedAt: Option<int>, consumedAt: Option<int>)

  datatype Activation = Activation(userCode: string, tokens: Tokens, deviceCode: Option<string>)

  datatype Config = Config(verificationUri: string, ttlSeconds: int, intervalSeconds: int)

  datatype Contents = Contents(sessions: map<string, Session>, deviceByUser: map<string, string>,
                               knownDevice: map<string, int>, knownUser: map<string, int>)

  const EMPTY := Contents(map[], map[], map[], map[])

  predicate NonEmpty(s: string) {
    Trim(s) != ""
  }

  /** A code or token counts when some character of it can be seen. */
  lemma NonEmptyMeansVisible(s: string)
    ensures NonEmpty(s) <==> exists c :: c in s && !IsSpace(c)
  {
    BlankMeansAllSpace(s);
  }

  predicate CompleteTokens(t: Tokens) {
    NonEmpty(t.uid) && NonEmpty(t.idToken) && NonEmpty(t.refreshToken)
  }

  predicate ValidActivation(a: Activation) {
    NonEmpty(a.userCode) && CompleteTokens(a.tokens) && a.tokens.expiresIn > 0
  }

  // ------------------------------------------------------------------ the store

  function DropExpired(known: map<string, int>, now: int): map<string, int> {
    map code | code in known && now < known[code] :: known[code]
  }

  function Cleanup(s: Contents, now: int): Contents {
    s.(knownDevice := DropExpired(s.knownDevice, now), knownUser := DropExpired(s.knownUser, now))
  }

  function Saved(s: Contents, x: Session): Contents {
    Contents(s.sessions[x.deviceCode := x], s.deviceByUser[x.userCode := x.deviceCode],
             s.knownDevice[x.deviceCode := x.expiresAt + KNOWN_TTL_SECONDS],
             s.knownUser[x.userCode := x.expiresAt + KNOWN_TTL_SECONDS])
  }

  function Updated(s: Contents, x: Session): Contents {
    s.(sessions := s.sessions[x.deviceCode := x], deviceByUser := s.deviceByUser[x.userCode := x.deviceCode])
  }

  function Deleted(s: Contents, x: Session): Contents {
    s.(sessions := s.sessions - {x.deviceCode}, deviceByUser := s.deviceByUser - {x.userCode})
  }

  /** Looking up an expired session deletes it. */
  function FoundByDevice(s: Contents, code: string, now: int): (Contents, Option<Session>) {
    var clean := Cleanup(s, now);
    if code !in clean.sessions then (clean, None)
    else if now >= clean.sessions[code].expiresAt then (Deleted(clean, clean.sessions[code]), None)
    else (clean, Some(clean.sessions[code]))
  }

  function FoundByUser(s: Contents, code: string, now: int): (Contents, Option<Session>) {
    var clean := Cleanup(s, now);
    if code !in clean.deviceByUser then (clean, None)
    else FoundByDevice(clean, clean.deviceByUser[code], now)
  }

  /** A lookup finds what is stored and not over, removes what is over, and touches no other session. */
  lemma {:induction false} LookupTells(s: Contents, code: string, now: int)
    ensures var (after, found) := FoundByDevice(s, code, now);
      && (found.Some? <==> code in s.sessions && now < s.sessions[code].expiresAt)
      && (found.Some? ==> found.value == s.sessions[code] && after.sessions == s.sessions)
      && (forall c | c in after.sessions :: c in s.sessions && after.sessions[c] == s.sessions[c])
      && (forall c | c in s.sessions :: c in after.sessions || (code in s.sessions && c == s.sessions[code].deviceCode))
      && (code in s.sessions && now >= s.sessions[code].expiresAt ==>
            s.sessions[code].deviceCode !in after.sessions && s.sessions[code].userCode !in after.deviceByUser)
  {
  }

  class InMemoryDeviceAuthSessionStore {
    var sessionsByDeviceCode: map<string, Session>
    var deviceCodeByUserCode: map<string, string>
    var knownDeviceCodes: map<string, int>
    var knownUserCodes: map<string, int>

    constructor ()
      ensures State() == EMPTY
    {
      sessionsByDeviceCode, deviceCodeByUserCode, knownDeviceCodes, knownUserCodes := map[], map[], map[], map[];
    }

    ghost function State(): Contents
      reads this
    {
      Contents(sessionsByDeviceCode, deviceCodeByUserCode, knownDeviceCodes, knownUserCodes)
    }

    method Save(x: Session)
      modifies this
      ensures State() == Saved(old(State()), x)
    {
      sessionsByDeviceCode := sessionsByDeviceCode[x.deviceCode := x];
      deviceCodeByUserCode := deviceCodeByUserCode[x.userCode := x.deviceCode];
      knownDeviceCodes := knownDeviceCodes[x.deviceCode := x.expiresAt + KNOWN_TTL_SECONDS];
      knownUserCodes := knownUserCodes[x.userCode := x.expiresAt + KNOWN_TTL_SECONDS];
    }

    method CleanupKnownMaps(now: int)
      modifies this
      ensures State() == Cleanup(old(State()), now)
    {
      knownDeviceCodes := WithoutExpired(knownDeviceCodes, now);
      knownUserCodes := WithoutExpired(knownUserCodes, now);
    }

    method FindByDeviceCode(code: string, now: int) returns (found: Option<Session>)
      modifies this
      ensures (State(), found) == FoundByDevice(old(State()), code, now)
    {
      CleanupKnownMaps(now);
      if code !in sessionsByDeviceCode {
        return None;
      }
      var x := sessionsByDeviceCode[code];
      if now >= x.expiresAt {
        sessionsByDeviceCode := sessionsByDeviceCode - {x.deviceCode};
        deviceCodeByUserCode := deviceCodeByUserCode - {x.userCode};
        return None;
      }
      found := Some(x);
    }

    method FindByUserCode(code: string, now: int) returns (found: Option<Session>)
      modifies this
      ensures (State(), found) == FoundByUser(old(State()), code, now)
    {
      CleanupKnownMaps(now);
      if code !in deviceCodeByUserCode {
        return None;
      }
      found := FindByDeviceCode(deviceCodeByUserCode[code], now);
    }

    /** Fails when the session is gone. */
    method Update(x: Session) returns (ok: bool)
      modifies this
      ensures ok == (x.deviceCode in old(State()).sessions)
      ensures State() == if ok then Updated(old(State()), x) else old(State())
    {
      ok := x.deviceCode in sessionsByDeviceCode;
      if ok {
        sessionsByDeviceCode := sessionsByDeviceCode[x.deviceCode := x];
        deviceCodeByUserCode := deviceCodeByUserCode[x.userCode := x.deviceCode];
      }
    }

    method HasKnownDeviceCode(code: string, now: int) returns (known: bool)
      modifies this
      ensures State() == Cleanup(old(State()), now) && known == (code in State().knownDevice)
    {
      CleanupKnownMaps(now);
      known := code in knownDeviceCodes;
    }

    method HasKnownUserCode(code: string, now: int) returns (known: bool)
      modifies this
      ensures State() == Cleanup(old(State()), now) && known == (code in State().knownUser)
    {
      CleanupKnownMaps(now);
      known := code in knownUserCodes;
    }
  }

  method WithoutExpired(known: map<string, int>, now: int) returns (left: map<string, int>)
    ensures left == DropExpired(known, now)
  {
    left := known;
    var entries := known.Keys;
    while entries != {}
      invariant entries <= known.Keys
      invariant forall code :: code in left <==> code in known && (code in entries || now < known[code])
      invariant forall code | code in left :: left[code] == known[code]
      decreases |entries|
    {
      var code :| code in entries;
      if now >= known[code] {
        left := left - {code};
      }
      entries := entries - {code};
    }
  }

  // ---------------------------------------------------------------- the service

  /** The first drawn user code that is not known; drawing also cleans the known maps. */
  function Picked(s: Contents, draws: seq<string>, now: int): (Contents, Option<string>)
    decreases |draws|
  {
    if draws == [] then (s, None)
    else
      var clean := Cleanup(s, now);
      if draws[0] in clean.knownUser then Picked(clean, draws[1..], now) else (clean, Some(draws[0]))
  }

  function NewSession(config: Config, deviceCode: string, userCode: string, now: int): Session {
    Session(deviceCode, userCode, config.verificationUri, now, now + config.ttlSeconds, config.intervalSeconds, Pending,
        None, None, None)
  }

  function Issued(s: Contents, config: Config, deviceCode: string, draws: seq<string>, now: int)
    : (Contents, Option<Session>)
  {
    var (picked, code) := Picked(s, draws, now);
    if code.None? then (picked, None)
    else
      var x := NewSession(config, deviceCode, code.value, now);
      (Saved(picked, x), Some(x))
  }

  /** The session an activation would approve: present, not expired, named correctly and not consumed. */
  function Activated(s: Contents, a: Activation, now: int): (Contents, Result<Session, ErrorCode>) {
    if !ValidActivation(a) then (s, Err(InvalidRequest))
    else
      var (after, found) := FoundByUser(s, a.userCode, now);
      if found.None? then (after, Err(if a.userCode in after.knownUser then ExpiredToken else NotFound))
      else if a.deviceCode.Some? && a.deviceCode.value != found.value.deviceCode then (after, Err(InvalidRequest))
      else if found.value.status == Consumed then (after, Err(AuthorizationAlreadyConsumed))
      else if found.value.deviceCode !in after.sessions then (after, Err(NotFound))
      else
        var x := found.value.(status := Approved, tokens := Some(a.tokens), approvedAt := Some(now));
        (Updated(after, x), Ok(x))
  }

  function Exchanged(s: Contents, deviceCode: string, now: int): (Contents, Result<Tokens, ErrorCode>) {
    if !NonEmpty(deviceCode) then (s, Err(InvalidRequest))
    else
      var (after, found) := FoundByDevice(s, deviceCode, now);
      if found.None? then (after, Err(if deviceCode in after.knownDevice then ExpiredToken else NotFound))
      else
        var x := found.value;
        if x.status == Pending then (after, Err(AuthorizationPending))
        else if x.status == Consumed then (after, Err(AuthorizationAlreadyConsumed))
        else if x.tokens.None? || !CompleteTokens(x.tokens.value) then (after, Err(InvalidRequest))
        else if x.deviceCode !in after.sessions then (after, Err(NotFound))
        else (Updated(after, x.(status := Consumed, consumedAt := Some(now))), Ok(x.tokens.value))
  }

  lemma CleanupTwice(s: Contents, now: int)
    ensures Cleanup(Cleanup(s, now), now) == Cleanup(s, now)
  {
  }

  class DeviceAuthService {
    const store: InMemoryDeviceAuthSessionStore
    const config: Config

    constructor (store: InMemoryDeviceAuthSessionStore, config: Config)
      ensures this.store == store && this.config == config
    {
      this.store, this.config := store, config;
    }

    method IssueAuthorization(deviceCode: string, draws: seq<string>, now: int) returns (issued: Option<Session>)
      modifies store
      ensures (store.State(), issued) == Issued(old(store.State()), config, deviceCode, draws, now)
    {
      var i := 0;
      while i < |draws|
        invariant 0 <= i <= |draws|
        invariant Picked(store.State(), draws[i..], now) == Picked(old(store.State()), draws, now)
      {
        var known := store.HasKnownUserCode(draws[i], now);
        if !known {
          var x := NewSession(config, deviceCode, draws[i], now);
          store.Save(x);
          return Some(x);
        }
        assert draws[i..][1..] == draws[i + 1..];
        i := i + 1;
      }
      issued := None;
    }

    method ActivateAuthorization(a: Activation, now: int) returns (answer: Result<Session, ErrorCode>)
      modifies store
      ensures (store.State(), answer) == Activated(old(store.State()), a, now)
    {
      hide NonEmpty;
      if !ValidActivation(a) {
        return Err(InvalidRequest);
      }
      var found := store.FindByUserCode(a.userCode, now);
      if found.None? {
        CleanupTwice(old(store.State()), now);
        var known := store.HasKnownUserCode(a.userCode, now);
        return Err(if known then ExpiredToken else NotFound);
      }
      var x := found.value;
      if now >= x.expiresAt {
        return Err(ExpiredToken);
      }
      if a.deviceCode.Some? && a.deviceCode.value != x.deviceCode {
        return Err(InvalidRequest);
      }
      if x.status == Consumed {
        return Err(AuthorizationAlreadyConsumed);
      }
      x := x.(status := Approved, tokens := Some(a.tokens), approvedAt := Some(now));
      var ok := store.Update(x);
      answer := if ok then Ok(x) else Err(NotFound);
    }

    method ExchangeToken(deviceCode: string, now: int) returns (answer: Result<Tokens, ErrorCode>)
      modifies store
      ensures (store.State(), answer) == Exchanged(old(store.State()), deviceCode, now)
    {
      hide NonEmpty;
      if !NonEmpty(deviceCode) {
        return Err(InvalidRequest);
      }
      var found := store.FindByDeviceCode(deviceCode, now);
      if found.None? {
        CleanupTwice(old(store.State()), now);
        var known := store.HasKnownDeviceCode(deviceCode, now);
        return Err(if known then ExpiredToken else NotFound);
      }
      var x := found.value;
      if now >= x.expiresAt {
        return Err(ExpiredToken);
      }
      if x.status == Pending {
        return Err(AuthorizationPending);
      }
      if x.status == Consumed {
        return Err(AuthorizationAlreadyConsumed);
      }
      if x.tokens.None? || !CompleteTokens(x.tokens.value) {
        return Err(InvalidRequest);
      }
      var ok := store.Update(x.(status := Consumed, consumedAt := Some(now)));
      answer := if ok then Ok(x.tokens.value) else Err(NotFound);
    }
  }

  // ------------------------------------------------------------- histories of codes

  /** What has happened to one issued device code: no store, no clean-up, no deletion. */
  datatype History = History(userCode: string, expiresAt: int, activation: Option<Tokens>, exchanged: bool)

  datatype World = World(store: Contents, issued: map<string, History>)

  datatype Event =
    | Issue(now: int, deviceCode: string, draws: seq<string>)
    | Activate(now: int, a: Activation)
    | Exchange(now: int, deviceCode: string)

  function Next(w: World, e: Event, config: Config): World {
    match e
    case Issue(now, code, draws) =>
      var (store, x) := Issued(w.store, config, code, draws, now);
      World(store, if x.None? then w.issued
          else w.issued[code := History(x.value.userCode, now + config.ttlSeconds, None, false)])
    case Activate(now, a) =>
      var (store, answer) := Activated(w.store, a, now);
      World(store,
            if answer.Ok? && answer.value.deviceCode in w.issued
            then w.issued[answer.value.deviceCode := w.issued[answer.value.deviceCode].(activation := Some(a.tokens))]
            else w.issued)
    case Exchange(now, code) =>
      var (store, answer) := Exchanged(w.store, code, now);
      World(store, if answer.Ok? && code in w.issued then w.issued[code := w.issued[code].(exchanged := true)]
          else w.issued)
  }

  function Run(events: seq<Event>, n: nat, config: Config): World
    requires n <= |events|
  {
    if n == 0 then World(EMPTY, map[]) else Next(Run(events, n - 1, config), events[n - 1], config)
  }

  /** What a device code is answered, told from its history alone. */
  function Due(issued: map<string, History>, code: string, now: int): Result<Tokens, ErrorCode> {
    if code !in issued || now >= issued[code].expiresAt + KNOWN_TTL_SECONDS then Err(NotFound)
    else if now >= issued[code].expiresAt then Err(ExpiredToken)
    else if issued[code].exchanged then Err(AuthorizationAlreadyConsumed)
    else if issued[code].activation.Some? then Ok(issued[code].activation.value)
    else Err(AuthorizationPending)
  }

  /** The clock does not go back; device codes are not blank and never drawn twice. */
  ghost predicate Proper(events: seq<Event>) {
    && (forall i, j | 0 <= i < j < |events| :: events[i].now <= events[j].now)
    && (forall i | 0 <= i < |events| && events[i].Issue? :: NonEmpty(events[i].deviceCode))
    && (forall i, j | 0 <= i < j < |events| && events[i].Issue? && events[j].Issue? ::
        events[i].deviceCode != events[j].deviceCode)
  }

  ghost predicate SessionTells(x: Session, code: string, h: History) {
    && x.deviceCode == code && x.userCode == h.userCode && x.expiresAt == h.expiresAt
    && x.status == (if h.exchanged then Consumed else if h.activation.Some? then Approved else Pending)
    && x.tokens == h.activation
  }

  /** The store holds what the histories say, for every code whose time is not over at `now`. */
  ghost predicate Agrees(w: World, now: int) {
    SessionsAgree(w, now) && KnownAgree(w, now) && HistoriesOk(w.issued) && IndexIsSound(w.store)
  }

  ghost predicate SessionsAgree(w: World, now: int) {
    && (forall c | c in w.issued :: now < w.issued[c].expiresAt ==> c in w.store.sessions)
    && (forall c | c in w.store.sessions :: c in w.issued && SessionTells(w.store.sessions[c], c, w.issued[c]))
  }

  ghost predicate KnownAgree(w: World, now: int) {
    && (forall c | c in w.issued :: now < w.issued[c].expiresAt + KNOWN_TTL_SECONDS ==> c in w.store.knownDevice)
    && (forall c | c in w.store.knownDevice ::
          c in w.issued && w.store.knownDevice[c] == w.issued[c].expiresAt + KNOWN_TTL_SECONDS)
  }

  ghost predicate HistoriesOk(issued: map<string, History>) {
    && (forall c | c in issued && issued[c].activation.Some? :: CompleteTokens(issued[c].activation.value))
    && (forall c | c in issued && issued[c].exchanged :: issued[c].activation.Some?)
  }

  /** A user code leads to a present session that carries it. */
  ghost predicate IndexIsSound(s: Contents) {
    forall u | u in s.deviceByUser :: s.deviceByUser[u] in s.sessions && s.sessions[s.deviceByUser[u]].userCode == u
  }

  lemma PickedOnlyCleans(s: Contents, draws: seq<string>, now: int)
    ensures var (after, code) := Picked(s, draws, now);
      && (after == s || after == Cleanup(s, now))
      && (code.Some? ==> after == Cleanup(s, now) && code.value !in after.knownUser)
    decreases |draws|
  {
    if draws != [] {
      CleanupTwice(s, now);
      PickedOnlyCleans(Cleanup(s, now), draws[1..], now);
    }
  }

  lemma CleanupAgrees(w: World, last: int, now: int)
    requires Agrees(w, last) && last <= now
    ensures Agrees(w.(store := Cleanup(w.store, now)), now) && Agrees(w, now)
  {
    hide SessionTells, CompleteTokens;
  }

  lemma DeletionAgrees(w: World, now: int, c: string)
    requires Agrees(w, now) && c in w.store.sessions && now >= w.store.sessions[c].expiresAt
    ensures Agrees(w.(store := Deleted(w.store, w.store.sessions[c])), now)
  {
    hide CompleteTokens;
  }

  lemma FoundAgrees(w: World, last: int, now: int, code: string)
    requires Agrees(w, last) && last <= now
    ensures var (after, found) := FoundByDevice(w.store, code, now);
      && Agrees(w.(store := after), now)
      && (found.Some? <==> code in w.issued && now < w.issued[code].expiresAt)
      && (found.Some? ==>
            && code in after.sessions && after.sessions[code] == found.value
            && SessionTells(found.value, code, w.issued[code]))
      && (code in after.knownDevice <==> code in w.issued && now < w.issued[code].expiresAt + KNOWN_TTL_SECONDS)
      && (found.Some? && w.issued[code].activation.Some? ==> CompleteTokens(w.issued[code].activation.value))
  {
    CleanupAgrees(w, last, now);
    var clean := Cleanup(w.store, now);
    if code in clean.sessions && now >= clean.sessions[code].expiresAt {
      DeletionAgrees(w.(store := clean), now, code);
    }
    hide CompleteTokens;
  }

  lemma UpdateAgrees(w: World, now: int, code: string, x: Session, h: History)
    requires Agrees(w, now) && code in w.store.sessions && SessionTells(x, code, h)
    requires h.userCode == w.issued[code].userCode && h.expiresAt == w.issued[code].expiresAt
    requires h.activation.Some? ==> CompleteTokens(h.activation.value)
    requires h.exchanged ==> h.activation.Some?
    ensures Agrees(World(Updated(w.store, x), w.issued[code := h]), now)
  {
    assert SessionTells(w.store.sessions[code], code, w.issued[code]) && x.userCode == w.store.sessions[code].userCode;
    hide SessionsAgree, KnownAgree, HistoriesOk, IndexIsSound, CompleteTokens;
    SessionsWith(w, now, code, x, h);
    KnownWith(w, now, code, x, h);
    HistoriesWith(w.issued, code, h);
    IndexWith(w.store, x);
  }

  lemma SessionsWith(w: World, now: int, code: string, x: Session, h: History)
    requires SessionsAgree(w, now) && SessionTells(x, code, h)
    ensures SessionsAgree(World(Updated(w.store, x), w.issued[code := h]), now)
  {
    hide SessionTells;
    assert x.deviceCode == code by { DeviceOf(x, code, h); }
  }

  lemma DeviceOf(x: Session, code: string, h: History)
    requires SessionTells(x, code, h)
    ensures x.deviceCode == code
  {
  }

  lemma KnownWith(w: World, now: int, code: string, x: Session, h: History)
    requires KnownAgree(w, now) && code in w.issued && h.expiresAt == w.issued[code].expiresAt
    ensures KnownAgree(World(Updated(w.store, x), w.issued[code := h]), now)
  {
  }

  lemma HistoriesWith(issued: map<string, History>, code: string, h: History)
    requires HistoriesOk(issued)
    requires h.activation.Some? ==> CompleteTokens(h.activation.value)
    requires h.exchanged ==> h.activation.Some?
    ensures HistoriesOk(issued[code := h])
  {
    hide CompleteTokens;
  }

  /** Writing a session under its own codes; another session is not written under its device code. */
  lemma IndexWith(s: Contents, x: Session)
    requires IndexIsSound(s)
    requires x.deviceCode in s.sessions ==> s.sessions[x.deviceCode].userCode == x.userCode
    ensures IndexIsSound(Updated(s, x))
  {
  }

  lemma SavedAgrees(w: World, now: int, x: Session)
    requires Agrees(w, now) && x.deviceCode !in w.issued && x.status == Pending && x.tokens == None
    ensures Agrees(World(Saved(w.store, x), w.issued[x.deviceCode := History(x.userCode, x.expiresAt, None, false)]),
      now)
  {
    var h := History(x.userCode, x.expiresAt, None, false);
    assert SessionTells(x, x.deviceCode, h) && x.deviceCode !in w.store.sessions;
    SavedKnown(w, now, x, h);
    hide SessionsAgree, KnownAgree, HistoriesOk, IndexIsSound, CompleteTokens, SessionTells;
    SessionsWith(w, now, x.deviceCode, x, h);
    SameSessions(Updated(w.store, x), Saved(w.store, x), w.issued[x.deviceCode := h], now);
    HistoriesWith(w.issued, x.deviceCode, h);
    IndexWith(w.store, x);
  }

  lemma SavedKnown(w: World, now: int, x: Session, h: History)
    requires KnownAgree(w, now) && x.deviceCode !in w.issued && h.expiresAt == x.expiresAt
    ensures KnownAgree(World(Saved(w.store, x), w.issued[x.deviceCode := h]), now)
  {
  }

  lemma SameSessions(s: Contents, t: Contents, issued: map<string, History>, now: int)
    requires s.sessions == t.sessions && s.deviceByUser == t.deviceByUser
    ensures SessionsAgree(World(s, issued), now) == SessionsAgree(World(t, issued), now)
    ensures IndexIsSound(s) == IndexIsSound(t)
  {
    hide SessionTells;
  }

  /** A new session carries the first drawn user code that is not known; there is none when all drawn ones are known. */
  lemma {:induction false} IssueTells(s: Contents, config: Config, deviceCode: string, draws: seq<string>, now: int)
    ensures var x, known := Issued(s, config, deviceCode, draws, now).1, Cleanup(s, now).knownUser;
      match x
      case None => forall i | 0 <= i < |draws| :: draws[i] in known
      case Some(x) =>
        && (exists k :: 0 <= k < |draws| && draws[k] == x.userCode && draws[k] !in known
                        && forall i | 0 <= i < k :: draws[i] in known)
        && x.deviceCode == deviceCode && x.verificationUri == config.verificationUri
        && x.issuedAt == now && x.expiresAt == now + config.ttlSeconds && x.interval == config.intervalSeconds
        && x.status == Pending && x.tokens == None && x.approvedAt == None && x.consumedAt == None
    decreases |draws|
  {
    hide Cleanup;
    if draws != [] {
      CleanupTwice(s, now);
      IssueTells(Cleanup(s, now), config, deviceCode, draws[1..], now);
      var x := Issued(Cleanup(s, now), config, deviceCode, draws[1..], now).1;
      if draws[0] in Cleanup(s, now).knownUser {
        assert forall i | 0 < i < |draws| :: draws[i] == draws[1..][i - 1];
        if x.Some? {
          var known := Cleanup(s, now).knownUser;
          var k :| 0 <= k < |draws[1..]| && draws[1..][k] == x.value.userCode && draws[1..][k] !in known
                   && forall i | 0 <= i < k :: draws[1..][i] in known;
          assert draws[k + 1] == x.value.userCode;
        }
      }
    }
  }

  ghost predicate Fresh(w: World, e: Event) {
    e.Issue? ==> NonEmpty(e.deviceCode) && e.deviceCode !in w.issued
  }

  /** Every service call keeps store and histories in agreement. */
  lemma {:induction false} StepAgrees(w: World, last: int, e: Event, config: Config)
    requires Agrees(w, last) && last <= e.now && Fresh(w, e)
    ensures Agrees(Next(w, e, config), e.now)
  {
    hide NonEmpty, Agrees, Picked, Cleanup;
    CleanupAgrees(w, last, e.now);
    match e
    case Issue(now, code, draws) =>
      PickedOnlyCleans(w.store, draws, now);
      var (picked, user) := Picked(w.store, draws, now);
      if user.Some? {
        SavedAgrees(w.(store := picked), now, NewSession(config, code, user.value, now));
      }
    case Activate(now, a) =>
      ActivationAgrees(w, last, a, now);
    case Exchange(now, code) =>
      ExchangeAgrees(w, last, code, now);
  }

  lemma ActivationAgrees(w: World, last: int, a: Activation, now: int)
    requires Agrees(w, last) && last <= now
    ensures var (after, answer) := Activated(w.store, a, now);
      && (answer.Err? ==> Agrees(w.(store := after), now))
      && (answer.Ok? ==>
            var code := answer.value.deviceCode;
            && code in w.issued && w.issued[code].userCode == a.userCode
            && !w.issued[code].exchanged && now < w.issued[code].expiresAt
            && Agrees(World(after, w.issued[code := w.issued[code].(activation := Some(a.tokens))]), now))
  {
    hide NonEmpty, Agrees, FoundByDevice, Cleanup;
    CleanupAgrees(w, last, now);
    if ValidActivation(a) {
      IndexLeadsHome(w, last, now, a.userCode);
      var clean := Cleanup(w.store, now);
      if a.userCode in clean.deviceByUser {
        var code := clean.deviceByUser[a.userCode];
        FoundAgrees(w.(store := clean), now, now, code);
        var (after, found) := FoundByDevice(clean, code, now);
        if found.Some? && found.value.status != Consumed {
          var x := found.value.(status := Approved, tokens := Some(a.tokens), approvedAt := Some(now));
          UpdateAgrees(w.(store := after), now, code, x, w.issued[code].(activation := Some(a.tokens)));
        }
      }
    }
  }

  lemma IndexLeadsHome(w: World, last: int, now: int, user: string)
    requires Agrees(w, last)
    ensures var clean := Cleanup(w.store, now);
      user in clean.deviceByUser ==>
        clean.deviceByUser[user] in w.issued && w.issued[clean.deviceByUser[user]].userCode == user
  {
    hide CompleteTokens;
  }

  lemma ExchangeAgrees(w: World, last: int, code: string, now: int)
    requires Agrees(w, last) && last <= now
    ensures var (after, answer) := Exchanged(w.store, code, now);
      && (NonEmpty(code) ==> answer == Due(w.issued, code, now))
      && (answer.Err? ==> Agrees(w.(store := after), now))
      && (answer.Ok? ==>
            && code in w.issued
            && Agrees(World(after, w.issued[code := w.issued[code].(exchanged := true)]), now))
  {
    hide NonEmpty, CompleteTokens, Agrees, FoundByDevice;
    CleanupAgrees(w, last, now);
    FoundAgrees(w, last, now, code);
    var (after, found) := FoundByDevice(w.store, code, now);
    if found.Some? && found.value.status == Approved {
      var x := found.value;
      UpdateAgrees(w.(store := after), now, code, x.(status := Consumed, consumedAt := Some(now)),
          w.issued[code].(exchanged := true));
    }
  }

  // --------------------------------------------------------------------- runs

  lemma RunStep(events: seq<Event>, n: nat, config: Config)
    requires n < |events|
    ensures Run(events, n + 1, config) == Next(Run(events, n, config), events[n], config)
  {
  }

  lemma SomethingIssued(events: seq<Event>, n: nat, config: Config)
    requires n <= |events| && Run(events, n, config).issued != map[]
    ensures n > 0
  {
  }

  lemma NewCodeIsIssued(w: World, e: Event, config: Config, code: string)
    requires code in Next(w, e, config).issued && code !in w.issued
    ensures e.Issue? && e.deviceCode == code
  {
    hide Issued, Activated, Exchanged;
  }

  lemma {:induction false} IssuedByAnEvent(events: seq<Event>, n: nat, config: Config, code: string) returns (k: nat)
    requires n <= |events| && code in Run(events, n, config).issued
    ensures k < n && events[k].Issue? && events[k].deviceCode == code
  {
    hide Run, Next;
    SomethingIssued(events, n, config);
    RunStep(events, n - 1, config);
    if code in Run(events, n - 1, config).issued {
      k := IssuedByAnEvent(events, n - 1, config, code);
    } else {
      NewCodeIsIssued(Run(events, n - 1, config), events[n - 1], config, code);
      k := n - 1;
    }
  }

  lemma IssuedCodesAreNotBlank(events: seq<Event>, n: nat, config: Config, code: string)
    requires Proper(events) && n <= |events| && code in Run(events, n, config).issued
    ensures NonEmpty(code)
  {
    hide NonEmpty, Run;
    var k := IssuedByAnEvent(events, n, config, code);
  }

  lemma TimeMovesOn(events: seq<Event>, n: nat)
    requires Proper(events) && n < |events|
    ensures LastTime(events, n) <= events[n].now
    ensures forall m | n < m < |events| :: events[n].now <= events[m].now
  {
  }

  lemma {:induction false} EventIsFresh(events: seq<Event>, n: nat, config: Config)
    requires Proper(events) && n < |events|
    ensures Fresh(Run(events, n, config), events[n])
  {
    if events[n].Issue? && events[n].deviceCode in Run(events, n, config).issued {
      var k := IssuedByAnEvent(events, n, config, events[n].deviceCode);
      hide Run, NonEmpty;
    }
  }

  function LastTime(events: seq<Event>, n: nat): int
    requires n <= |events|
  {
    if n > 0 then events[n - 1].now else if events == [] then 0 else events[0].now
  }

  lemma {:induction false} RunAgrees(events: seq<Event>, n: nat, config: Config)
    requires Proper(events) && n <= |events|
    ensures Agrees(Run(events, n, config), LastTime(events, n))
  {
    hide Next, Proper, NonEmpty, Fresh;
    if n > 0 {
      hide Agrees, Run, LastTime;
      RunAgrees(events, n - 1, config);
      EventIsFresh(events, n - 1, config);
      TimeMovesOn(events, n - 1);
      RunStep(events, n - 1, config);
      StepAgrees(Run(events, n - 1, config), LastTime(events, n - 1), events[n - 1], config);
      LastTimeStep(events, n - 1);
    }
  }

  lemma LastTimeStep(events: seq<Event>, n: nat)
    requires n < |events|
    ensures LastTime(events, n + 1) == events[n].now
  {
  }

  function AnswerAt(events: seq<Event>, i: nat, config: Config): Result<Tokens, ErrorCode>
    requires i < |events| && events[i].Exchange?
  {
    Exchanged(Run(events, i, config).store, events[i].deviceCode, events[i].now).1
  }

  /** The store with its lazy deletions answers every exchange exactly as the history of the code demands. */
  lemma {:induction false} AnswersAreDue(events: seq<Event>, i: nat, config: Config)
    requires Proper(events) && i < |events| && events[i].Exchange? && NonEmpty(events[i].deviceCode)
    ensures AnswerAt(events, i, config) == Due(Run(events, i, config).issued, events[i].deviceCode, events[i].now)
  {
    RunAgrees(events, i, config);
    hide Agrees, Exchanged, Due, Run, NonEmpty;
    ExchangeAgrees(Run(events, i, config), LastTime(events, i), events[i].deviceCode, events[i].now);
  }

  function Stage(answer: Result<Tokens, ErrorCode>): nat {
    match answer
    case Err(AuthorizationPending) => 0
    case Ok(_) => 1
    case Err(AuthorizationAlreadyConsumed) => 2
    case Err(ExpiredToken) => 3
    case Err(NotFound) => 4
    case Err(InvalidRequest) => 5
  }

  ghost predicate Continues(before: map<string, History>, after: map<string, History>, code: string) {
    && code in before && code in after
    && after[code].userCode == before[code].userCode && after[code].expiresAt == before[code].expiresAt
    && (before[code].activation.Some? ==> after[code].activation.Some?)
    && (before[code].exchanged ==> after[code].exchanged)
  }

  lemma StepContinues(w: World, e: Event, config: Config, code: string)
    requires code in w.issued && Fresh(w, e)
    ensures Continues(w.issued, Next(w, e, config).issued, code)
  {
    hide Issued, Activated, Exchanged, NonEmpty;
  }

  lemma ContinuesIsAPreorder(x: map<string, History>, y: map<string, History>, z: map<string, History>, code: string)
    ensures code in x ==> Continues(x, x, code)
    ensures Continues(x, y, code) && Continues(y, z, code) ==> Continues(x, z, code)
    ensures Continues(x, y, code) ==> code in y
  {
  }

  lemma {:induction false} HistoriesContinue(events: seq<Event>, i: nat, j: nat, config: Config, code: string)
    requires Proper(events) && i <= j <= |events| && code in Run(events, i, config).issued
    ensures Continues(Run(events, i, config).issued, Run(events, j, config).issued, code)
  {
    hide Proper, Next, Fresh, Run, Continues;
    var x, y, z := Run(events, i, config), Run(events, if i < j then j - 1 else i, config), Run(events, j, config);
    ContinuesIsAPreorder(x.issued, y.issued, z.issued, code);
    if i < j {
      HistoriesContinue(events, i, j - 1, config, code);
      EventIsFresh(events, j - 1, config);
      RunStep(events, j - 1, config);
      StepContinues(y, events[j - 1], config, code);
    }
  }

  lemma DueMovesForward(before: map<string, History>, after: map<string, History>, code: string, earlier: int,
                        later: int)
    requires Continues(before, after, code) && earlier <= later
    ensures Stage(Due(before, code, earlier)) <= Stage(Due(after, code, later)) <= 4
    ensures Due(before, code, earlier).Ok? && after[code].exchanged ==> Stage(Due(after, code, later)) >= 2
  {
  }

  /**
   * The answers to an issued code only move forward: pending, one success, already consumed,
   * expired, not found. No answer after a success repeats it.
   */
  lemma {:induction false} AnswersMoveForward(events: seq<Event>, i: nat, j: nat, config: Config)
    requires Proper(events) && i < j < |events| && events[i].Exchange? && events[j].Exchange?
    requires events[i].deviceCode == events[j].deviceCode && events[i].deviceCode in Run(events, i, config).issued
    ensures Stage(AnswerAt(events, i, config)) <= Stage(AnswerAt(events, j, config)) <= 4
    ensures AnswerAt(events, i, config).Ok? ==> Stage(AnswerAt(events, j, config)) >= 2
  {
    hide *;
    var code := events[i].deviceCode;
    TimeMovesOn(events, i);
    IssuedCodesAreNotBlank(events, i, config, code);
    AnswersAreDue(events, i, config);
    AnswersAreDue(events, j, config);
    HistoriesContinue(events, i, j, config, code);
    DueMovesForward(Run(events, i, config).issued, Run(events, j, config).issued, code, events[i].now, events[j].now);
    if AnswerAt(events, i, config).Ok? {
      SuccessIsRecorded(events, i, j, config);
    }
  }

  lemma SuccessIsRecorded(events: seq<Event>, i: nat, j: nat, config: Config)
    requires Proper(events) && i < j <= |events| && events[i].Exchange? && AnswerAt(events, i, config).Ok?
    requires events[i].deviceCode in Run(events, i, config).issued
    ensures events[i].deviceCode in Run(events, j, config).issued
      && Run(events, j, config).issued[events[i].deviceCode].exchanged
  {
    hide Run, Proper, Exchanged;
    RunStep(events, i, config);
    HistoriesContinue(events, i + 1, j, config, events[i].deviceCode);
  }

  /** The event is an activation that approves `code`. */
  ghost predicate Approves(w: World, e: Event, code: string) {
    && e.Activate?
    && var answer := Activated(w.store, e.a, e.now).1;
    answer.Ok? && answer.value.deviceCode == code
  }

  lemma ApprovalIsAnActivation(w: World, e: Event, code: string)
    ensures Approves(w, e, code) ==> e.Activate?
  {
  }

  lemma StepRecordsApproval(w: World, last: int, e: Event, config: Config, code: string)
    requires Agrees(w, last) && last <= e.now && Fresh(w, e) && code in Next(w, e, config).issued
    ensures Approves(w, e, code) ==> Next(w, e, config).issued[code].activation == Some(e.a.tokens)
    ensures !Approves(w, e, code) && Next(w, e, config).issued[code].activation.Some? ==>
              code in w.issued && Next(w, e, config).issued[code].activation == w.issued[code].activation
  {
    if e.Activate? {
      ActivationAgrees(w, last, e.a, e.now);
    }
    hide Agrees, Issued, Activated, Exchanged, NonEmpty;
  }

  /** The history holds the tokens of the last approval of the code. */
  lemma {:induction false} HistoryHoldsLastApproval(events: seq<Event>, n: nat, config: Config, code: string)
    returns (k: nat)
    requires Proper(events) && n <= |events|
    requires code in Run(events, n, config).issued && Run(events, n, config).issued[code].activation.Some?
    ensures k < n && Approves(Run(events, k, config), events[k], code)
    ensures Run(events, n, config).issued[code].activation == Some(events[k].a.tokens)
    ensures forall m | k < m < n :: !Approves(Run(events, m, config), events[m], code)
  {
    hide *;
    SomethingIssued(events, n, config);
    TimeMovesOn(events, n - 1);
    RunStep(events, n - 1, config);
    var w, e := Run(events, n - 1, config), events[n - 1];
    EventIsFresh(events, n - 1, config);
    RunAgrees(events, n - 1, config);
    StepRecordsApproval(w, LastTime(events, n - 1), e, config, code);
    ApprovalIsAnActivation(w, e, code);
    if Approves(w, e, code) {
      k := n - 1;
    } else {
      k := HistoryHoldsLastApproval(events, n - 1, config, code);
    }
  }

  /** A success carries the token details of the last activation of the code, made with the code's own user code. */
  lemma {:induction false} SuccessCarriesLastActivation(events: seq<Event>, i: nat, config: Config) returns (k: nat)
    requires Proper(events) && i < |events| && events[i].Exchange? && AnswerAt(events, i, config).Ok?
    ensures k < i && Approves(Run(events, k, config), events[k], events[i].deviceCode)
    ensures AnswerAt(events, i, config) == Ok(events[k].a.tokens)
    ensures forall m | k < m < i :: !Approves(Run(events, m, config), events[m], events[i].deviceCode)
    ensures events[i].deviceCode in Run(events, i, config).issued
    ensures events[k].a.userCode == Run(events, i, config).issued[events[i].deviceCode].userCode
  {
    var code := events[i].deviceCode;
    AnswersAreDue(events, i, config);
    k := HistoryHoldsLastApproval(events, i, config, code);
    RunAgrees(events, k, config);
    ActivationAgrees(Run(events, k, config), LastTime(events, k), events[k].a, events[k].now);
    HistoriesContinue(events, k, i, config, code);
    hide Exchanged, Activated, Agrees;
  }
}
