/** The index from user codes to device codes: exactly when an activation reaches the session it is meant for. */
module DeviceIndex {
  import opened Wrappers
  import opened DeviceFlow

  ghost predicate Leads(s: Contents, user: string, code: string) {
    user in s.deviceByUser && s.deviceByUser[user] == code
  }

  /** A live code's user code is known, so it is not drawn again: live codes have different user codes. */
  ghost predicate UserCodesOk(w: World, now: int) {
    && (forall c | c in w.issued && now < w.issued[c].expiresAt + KNOWN_TTL_SECONDS ::
          w.issued[c].userCode in w.store.knownUser
          && w.store.knownUser[w.issued[c].userCode] >= w.issued[c].expiresAt + KNOWN_TTL_SECONDS)
    && (forall c, d | c in w.issued && d in w.issued && c != d && w.issued[c].userCode == w.issued[d].userCode ::
          now >= w.issued[c].expiresAt || now >= w.issued[d].expiresAt)
  }

  // -------------------------------------------------------------- user codes stay apart

  /** Steps other than an issue keep user codes and expiries, and the known user codes up to clean-up. */
  lemma SameCodes(w: World, v: World, last: int, now: int)
    requires UserCodesOk(w, last) && last <= now && v.issued.Keys == w.issued.Keys
    requires forall c | c in w.issued ::
      v.issued[c].userCode == w.issued[c].userCode && v.issued[c].expiresAt == w.issued[c].expiresAt
    requires v.store.knownUser == w.store.knownUser || v.store.knownUser == DropExpired(w.store.knownUser, now)
    ensures UserCodesOk(v, now)
  {
  }

  lemma IssueKeepsApart(w: World, now: int, x: Session)
    requires UserCodesOk(w, now) && x.deviceCode !in w.issued && x.userCode !in w.store.knownUser
    ensures UserCodesOk(World(Saved(w.store, x),
      w.issued[x.deviceCode := History(x.userCode, x.expiresAt, None, false)]), now)
  {
    assert forall c | c in w.issued && w.issued[c].userCode == x.userCode ::
      now >= w.issued[c].expiresAt + KNOWN_TTL_SECONDS;
  }

  lemma CleanupKeepsApart(w: World, last: int, now: int)
    requires UserCodesOk(w, last) && last <= now
    ensures UserCodesOk(w.(store := Cleanup(w.store, now)), now)
  {
    SameCodes(w, w.(store := Cleanup(w.store, now)), last, now);
  }

  lemma KnownUsersAreCleaned(s: Contents, e: Event)
    ensures e.Activate? ==>
      Activated(s, e.a, e.now).0.knownUser == s.knownUser
      || Activated(s, e.a, e.now).0.knownUser == DropExpired(s.knownUser, e.now)
    ensures e.Exchange? ==>
      Exchanged(s, e.deviceCode, e.now).0.knownUser == s.knownUser
      || Exchanged(s, e.deviceCode, e.now).0.knownUser == DropExpired(s.knownUser, e.now)
  {
    hide NonEmpty;
    CleanupTwice(s, e.now);
  }

  lemma {:induction false} StepKeepsApart(w: World, last: int, e: Event, config: Config)
    requires UserCodesOk(w, last) && last <= e.now && Fresh(w, e)
    ensures UserCodesOk(Next(w, e, config), e.now)
  {
    hide NonEmpty, Picked, UserCodesOk, DropExpired;
    var v := Next(w, e, config);
    if e.Issue? {
      PickedOnlyCleans(w.store, e.draws, e.now);
      if Picked(w.store, e.draws, e.now).1.Some? {
        CleanupKeepsApart(w, last, e.now);
        hide Cleanup;
        var clean := w.(store := Cleanup(w.store, e.now));
        IssueKeepsApart(clean, e.now, Issued(w.store, config, e.deviceCode, e.draws, e.now).1.value);
      } else {
        SameCodes(w, v, last, e.now);
      }
    } else {
      KnownUsersAreCleaned(w.store, e);
      hide Activated, Exchanged;
      SameCodes(w, v, last, e.now);
    }
  }

  lemma {:induction false} RunKeepsApart(events: seq<Event>, n: nat, config: Config)
    requires Proper(events) && n <= |events|
    ensures UserCodesOk(Run(events, n, config), LastTime(events, n))
  {
    hide Next, Proper, Fresh, Run, LastTime;
    if n > 0 {
      hide UserCodesOk;
      RunKeepsApart(events, n - 1, config);
      EventIsFresh(events, n - 1, config);
      TimeMovesOn(events, n - 1);
      RunStep(events, n - 1, config);
      StepKeepsApart(Run(events, n - 1, config), LastTime(events, n - 1), events[n - 1], config);
      LastTimeStep(events, n - 1);
    } else {
      EmptyRun(events, config);
    }
  }

  lemma EmptyRun(events: seq<Event>, config: Config)
    ensures Run(events, 0, config) == World(EMPTY, map[])
  {
  }

  // ------------------------------------------------------- the index knows no other code

  /** A live code's user code leads to that code or nowhere. */
  ghost predicate IndexAlone(w: World, now: int) {
    forall c | c in w.issued && now < w.issued[c].expiresAt && w.issued[c].userCode in w.store.deviceByUser ::
      w.store.deviceByUser[w.issued[c].userCode] == c
  }

  /** For live codes, the entries of `t` are those of `s` or lead to the code itself. */
  ghost predicate IndexFrom(issued: map<string, History>, s: Contents, t: Contents, now: int) {
    forall c | c in issued && now < issued[c].expiresAt && issued[c].userCode in t.deviceByUser ::
      var u := issued[c].userCode;
      t.deviceByUser[u] == c || (u in s.deviceByUser && s.deviceByUser[u] == t.deviceByUser[u])
  }

  lemma StaysAlone(w: World, v: World, last: int, now: int)
    requires IndexAlone(w, last) && last <= now && v.issued.Keys == w.issued.Keys
    requires forall c | c in w.issued ::
      v.issued[c].userCode == w.issued[c].userCode && v.issued[c].expiresAt == w.issued[c].expiresAt
    requires IndexFrom(w.issued, w.store, v.store, now)
    ensures IndexAlone(v, now)
  {
  }

  lemma LookupOnlyDrops(s: Contents, code: string, now: int)
    ensures var after := FoundByDevice(s, code, now).0;
      forall u | u in after.deviceByUser :: u in s.deviceByUser && after.deviceByUser[u] == s.deviceByUser[u]
  {
  }

  lemma ActivationIndexFrom(w: World, last: int, now: int, a: Activation)
    requires Agrees(w, last) && UserCodesOk(w, last) && last <= now
    ensures IndexFrom(w.issued, w.store, Activated(w.store, a, now).0, now)
  {
    hide NonEmpty, CompleteTokens, Agrees, FoundByDevice;
    CleanupAgrees(w, last, now);
    var clean := Cleanup(w.store, now);
    if ValidActivation(a) && a.userCode in clean.deviceByUser {
      var code := clean.deviceByUser[a.userCode];
      FoundAgrees(w.(store := clean), now, now, code);
      LookupOnlyDrops(clean, code, now);
    }
  }

  lemma ExchangeIndexFrom(w: World, last: int, now: int, code: string)
    requires Agrees(w, last) && UserCodesOk(w, last) && last <= now
    ensures IndexFrom(w.issued, w.store, Exchanged(w.store, code, now).0, now)
  {
    hide NonEmpty, CompleteTokens, Agrees, FoundByDevice;
    FoundAgrees(w, last, now, code);
    LookupOnlyDrops(w.store, code, now);
  }

  lemma IssueStaysAlone(w: World, last: int, e: Event, config: Config)
    requires Agrees(w, last) && UserCodesOk(w, last) && IndexAlone(w, last) && last <= e.now && Fresh(w, e) && e.Issue?
    ensures IndexAlone(Next(w, e, config), e.now)
  {
    hide NonEmpty, CompleteTokens, Agrees, Picked, DropExpired;
    PickedOnlyCleans(w.store, e.draws, e.now);
    CleanupKeepsApart(w, last, e.now);
    var picked := Picked(w.store, e.draws, e.now);
    assert picked.0.deviceByUser == w.store.deviceByUser;
    assert picked.1.Some? ==>
      forall c | c in w.issued && e.now < w.issued[c].expiresAt :: w.issued[c].userCode != picked.1.value;
  }

  lemma {:induction false} StepStaysAlone(w: World, last: int, e: Event, config: Config)
    requires Agrees(w, last) && UserCodesOk(w, last) && IndexAlone(w, last) && last <= e.now && Fresh(w, e)
    ensures IndexAlone(Next(w, e, config), e.now)
  {
    hide NonEmpty, Agrees, UserCodesOk, IndexAlone, IndexFrom, Issued, Activated, Exchanged;
    match e
    case Issue(_, _, _) => IssueStaysAlone(w, last, e, config);
    case Activate(now, a) =>
      ActivationIndexFrom(w, last, now, a);
      StaysAlone(w, Next(w, e, config), last, now);
    case Exchange(now, code) =>
      ExchangeIndexFrom(w, last, now, code);
      StaysAlone(w, Next(w, e, config), last, now);
  }

  lemma {:induction false} RunStaysAlone(events: seq<Event>, n: nat, config: Config)
    requires Proper(events) && n <= |events|
    ensures IndexAlone(Run(events, n, config), LastTime(events, n))
  {
    hide Next, Proper, Fresh, Run, LastTime, Agrees, UserCodesOk;
    if n > 0 {
      hide IndexAlone;
      RunStaysAlone(events, n - 1, config);
      RunAgrees(events, n - 1, config);
      RunKeepsApart(events, n - 1, config);
      EventIsFresh(events, n - 1, config);
      TimeMovesOn(events, n - 1);
      RunStep(events, n - 1, config);
      StepStaysAlone(Run(events, n - 1, config), LastTime(events, n - 1), events[n - 1], config);
      LastTimeStep(events, n - 1);
    } else {
      EmptyRun(events, config);
    }
  }

  // ------------------------------------------------------------- one step of the index

  /** The event is the exchange of another code, expired but still stored, that carries the same user code. */
  ghost predicate LosesTwin(w: World, e: Event, c: string) {
    && c in w.issued && e.Exchange? && e.deviceCode != c && e.deviceCode in w.store.sessions
    && w.store.sessions[e.deviceCode].userCode == w.issued[c].userCode
    && e.now >= w.store.sessions[e.deviceCode].expiresAt
  }

  lemma FoundIndex(w: World, last: int, now: int, code: string, c: string)
    requires Agrees(w, last) && last <= now && c in w.issued && now < w.issued[c].expiresAt
    ensures var (after, found) := FoundByDevice(w.store, code, now);
      var user := w.issued[c].userCode;
      && (Leads(after, user, c) <==> Leads(w.store, user, c) && !LosesTwin(w, Exchange(now, code), c))
      && (found.Some? ==> after.deviceByUser == w.store.deviceByUser)
  {
    hide CompleteTokens, KnownAgree, HistoriesOk;
    var clean := Cleanup(w.store, now);
    if code in clean.sessions && now >= clean.sessions[code].expiresAt {
      assert SessionTells(w.store.sessions[code], code, w.issued[code]) && code != c;
    }
  }

  lemma UpdateIndex(s: Contents, x: Session, user: string, c: string)
    requires x.userCode == user ==> x.deviceCode == c || Leads(s, user, x.deviceCode)
    requires x.deviceCode == c && x.userCode == user ==> Leads(s, user, c)
    ensures Leads(Updated(s, x), user, c) == Leads(s, user, c)
  {
  }

  lemma {:induction false} ExchangeIndex(w: World, last: int, now: int, code: string, c: string)
    requires Agrees(w, last) && UserCodesOk(w, last) && last <= now && c in w.issued && now < w.issued[c].expiresAt
    requires code in w.issued ==> NonEmpty(code)
    requires Exchanged(w.store, code, now).1.Ok? ==> code != c
    ensures var after, user := Exchanged(w.store, code, now).0, w.issued[c].userCode;
      Leads(after, user, c) <==> Leads(w.store, user, c) && !LosesTwin(w, Exchange(now, code), c)
  {
    hide NonEmpty, CompleteTokens, Agrees, FoundByDevice, Leads;
    var user := w.issued[c].userCode;
    StoredIsIssued(w, last, code);
    FoundAgrees(w, last, now, code);
    FoundIndex(w, last, now, code, c);
    var (after, found) := FoundByDevice(w.store, code, now);
    if Exchanged(w.store, code, now).1.Ok? {
      assert found.value.userCode != user;
      UpdateIndex(after, found.value.(status := Consumed, consumedAt := Some(now)), user, c);
    }
  }

  lemma StoredIsIssued(w: World, last: int, code: string)
    requires Agrees(w, last)
    ensures code in w.store.sessions ==> code in w.issued
  {
    hide SessionTells, CompleteTokens;
  }

  /** An activation never looks up a twin of a live code: the index knows no other code. */
  lemma {:induction false} ActivationIndex(w: World, last: int, now: int, a: Activation, c: string)
    requires Agrees(w, last) && UserCodesOk(w, last) && IndexAlone(w, last) && last <= now
    requires c in w.issued && now < w.issued[c].expiresAt
    ensures Leads(Activated(w.store, a, now).0, w.issued[c].userCode, c) <==> Leads(w.store, w.issued[c].userCode, c)
  {
    hide NonEmpty, CompleteTokens, Agrees, FoundByDevice;
    var clean, user := Cleanup(w.store, now), w.issued[c].userCode;
    CleanupAgrees(w, last, now);
    if ValidActivation(a) && a.userCode in clean.deviceByUser {
      var code := clean.deviceByUser[a.userCode];
      var x := w.(store := clean);
      IndexLeadsHome(w, last, now, a.userCode);
      FoundAgrees(x, now, now, code);
      FoundIndex(x, now, now, code, c);
      NoTwinByIndex(w, last, now, a.userCode, c);
      var (after, found) := FoundByDevice(clean, code, now);
      if Activated(w.store, a, now).1.Ok? {
        hide LosesTwin;
        var approved := found.value.(status := Approved, tokens := Some(a.tokens), approvedAt := Some(now));
        UpdateIndex(after, approved, user, c);
      }
    }
  }

  lemma NoTwinByIndex(w: World, last: int, now: int, user: string, c: string)
    requires Agrees(w, last) && IndexAlone(w, last) && last <= now && c in w.issued && now < w.issued[c].expiresAt
    requires user in w.store.deviceByUser
    ensures !LosesTwin(w.(store := Cleanup(w.store, now)), Exchange(now, w.store.deviceByUser[user]), c)
  {
    hide SessionTells, CompleteTokens;
  }

  lemma {:induction false} IssueIndex(w: World, last: int, e: Event, config: Config, c: string)
    requires Agrees(w, last) && UserCodesOk(w, last) && last <= e.now && Fresh(w, e) && e.Issue?
    requires c in w.issued && e.now < w.issued[c].expiresAt
    ensures Leads(Next(w, e, config).store, w.issued[c].userCode, c) == Leads(w.store, w.issued[c].userCode, c)
  {
    hide NonEmpty, CompleteTokens, Agrees, Picked, DropExpired;
    PickedOnlyCleans(w.store, e.draws, e.now);
    CleanupKeepsApart(w, last, e.now);
    var user, picked := w.issued[c].userCode, Picked(w.store, e.draws, e.now);
    assert user in Cleanup(w.store, e.now).knownUser;
    assert picked.1.Some? ==> picked.1.value != user;
    assert picked.0.deviceByUser == w.store.deviceByUser;
  }

  lemma {:induction false} StepIndex(w: World, last: int, e: Event, config: Config, c: string)
    requires Agrees(w, last) && UserCodesOk(w, last) && IndexAlone(w, last) && last <= e.now && Fresh(w, e)
    requires c in w.issued && e.now < w.issued[c].expiresAt && c in Next(w, e, config).issued
    requires !Next(w, e, config).issued[c].exchanged
    requires e.Exchange? && e.deviceCode in w.issued ==> NonEmpty(e.deviceCode)
    ensures var after, user := Next(w, e, config).store, w.issued[c].userCode;
      Leads(after, user, c) <==> Leads(w.store, user, c) && !LosesTwin(w, e, c)
  {
    hide NonEmpty, Agrees, UserCodesOk, IndexAlone, Issued, Activated, Exchanged, Leads;
    match e
    case Issue(_, _, _) => IssueIndex(w, last, e, config, c);
    case Activate(now, a) => ActivationIndex(w, last, now, a, c);
    case Exchange(now, code) => ExchangeIndex(w, last, now, code, c);
  }

  lemma NewCodeLeads(w: World, e: Event, config: Config, c: string)
    requires c !in w.issued && c in Next(w, e, config).issued
    ensures Leads(Next(w, e, config).store, Next(w, e, config).issued[c].userCode, c)
  {
    hide Activated, Exchanged, Picked;
  }

  // --------------------------------------------------------------------- whole runs

  /**
   * Before `n`, and since the code was issued, another code with the same user code was exchanged that had expired
   * but was still stored.
   */
  ghost predicate TwinLost(events: seq<Event>, n: nat, config: Config, c: string)
    requires n <= |events|
  {
    exists k | 0 <= k < n :: LosesTwin(Run(events, k, config), events[k], c)
  }

  lemma TwinLostStep(events: seq<Event>, n: nat, config: Config, c: string)
    requires n < |events|
    ensures TwinLost(events, n + 1, config, c)
      <==> TwinLost(events, n, config, c) || LosesTwin(Run(events, n, config), events[n], c)
    ensures !TwinLost(events, 0, config, c)
  {
    hide LosesTwin, Run;
  }

  lemma {:induction false} NotIssuedNoTwin(events: seq<Event>, n: nat, config: Config, c: string)
    requires Proper(events) && n <= |events| && c !in Run(events, n, config).issued
    ensures !TwinLost(events, n, config, c)
  {
    hide Run, Proper, Next;
    forall k | 0 <= k < n ensures !LosesTwin(Run(events, k, config), events[k], c) {
      if c in Run(events, k, config).issued {
        HistoriesContinue(events, k, n, config, c);
      }
    }
  }

  /** The index leads from the user code of a live, unexchanged code to that code until a twin of it is lost. */
  lemma {:induction false} LeadsUntilTwinLost(events: seq<Event>, n: nat, config: Config, c: string)
    requires Proper(events) && n <= |events| && c in Run(events, n, config).issued
    requires !Run(events, n, config).issued[c].exchanged
      && LastTime(events, n) < Run(events, n, config).issued[c].expiresAt
    ensures Leads(Run(events, n, config).store, Run(events, n, config).issued[c].userCode, c)
      <==> !TwinLost(events, n, config, c)
  {
    hide Run, Proper, Next, Agrees, UserCodesOk, IndexAlone, Fresh, Leads, LosesTwin, TwinLost, LastTime, NonEmpty;
    SomethingIssued(events, n, config);
    var w, e := Run(events, n - 1, config), events[n - 1];
    RunStep(events, n - 1, config);
    TwinLostStep(events, n - 1, config, c);
    LastTimeStep(events, n - 1);
    TimeMovesOn(events, n - 1);
    if c in w.issued {
      HistoriesContinue(events, n - 1, n, config, c);
      LeadsUntilTwinLost(events, n - 1, config, c);
      RunAgrees(events, n - 1, config);
      RunKeepsApart(events, n - 1, config);
      EventIsFresh(events, n - 1, config);
      RunStaysAlone(events, n - 1, config);
      IssuedNotBlank(events, n - 1, config, e);
      StepIndex(w, LastTime(events, n - 1), e, config, c);
    } else {
      NotIssuedNoTwin(events, n - 1, config, c);
      NotYetTwin(w, e, c);
      NewCodeLeads(w, e, config, c);
    }
  }

  lemma NotYetTwin(w: World, e: Event, c: string)
    requires c !in w.issued
    ensures !LosesTwin(w, e, c)
  {
  }

  lemma IssuedNotBlank(events: seq<Event>, n: nat, config: Config, e: Event)
    requires Proper(events) && n <= |events|
    ensures e.Exchange? && e.deviceCode in Run(events, n, config).issued ==> NonEmpty(e.deviceCode)
  {
    hide NonEmpty, Run, Proper;
    if e.Exchange? && e.deviceCode in Run(events, n, config).issued {
      IssuedCodesAreNotBlank(events, n, config, e.deviceCode);
    }
  }

  lemma {:induction false} LeadingApproves(w: World, last: int, e: Event, c: string)
    requires Agrees(w, last) && last <= e.now && e.Activate? && c in w.issued && e.now < w.issued[c].expiresAt
    requires w.issued[c].userCode == e.a.userCode
    ensures Approves(w, e, c) <==>
      && ValidActivation(e.a) && (e.a.deviceCode.Some? ==> e.a.deviceCode.value == c)
      && !w.issued[c].exchanged && Leads(w.store, e.a.userCode, c)
  {
    hide NonEmpty, CompleteTokens, Agrees, FoundByDevice;
    CleanupAgrees(w, last, e.now);
    var clean := Cleanup(w.store, e.now);
    assert clean.deviceByUser == w.store.deviceByUser;
    if e.a.userCode in clean.deviceByUser {
      var code := clean.deviceByUser[e.a.userCode];
      FoundAgrees(w.(store := clean), e.now, e.now, code);
      assert FoundByUser(w.store, e.a.userCode, e.now) == FoundByDevice(clean, code, e.now);
      hide Cleanup, FoundByUser;
    }
  }

  /**
   * Over any run an activation approves a device code exactly when it is valid, the code is live, not exchanged and
   * carries the user code, and since its issue no other code with that user code was exchanged that had expired but
   * was still stored.
   */
  lemma {:induction false} ActivationReachesExactly(events: seq<Event>, n: nat, config: Config, code: string)
    requires Proper(events) && n < |events| && events[n].Activate?
    ensures var a, now, issued := events[n].a, events[n].now, Run(events, n, config).issued;
      Approves(Run(events, n, config), events[n], code) <==>
      && ValidActivation(a) && (a.deviceCode.Some? ==> a.deviceCode.value == code)
      && code in issued && issued[code].userCode == a.userCode
      && now < issued[code].expiresAt && !issued[code].exchanged
      && !TwinLost(events, n, config, code)
  {
    hide NonEmpty, Run, Proper, Agrees, Leads, TwinLost, LastTime, Activated;
    var w, e := Run(events, n, config), events[n];
    TimeMovesOn(events, n);
    RunAgrees(events, n, config);
    ActivationAgrees(w, LastTime(events, n), e.a, e.now);
    if code in w.issued && w.issued[code].userCode == e.a.userCode && e.now < w.issued[code].expiresAt {
      hide Approves;
      LeadingApproves(w, LastTime(events, n), e, code);
      if !w.issued[code].exchanged {
        LeadsUntilTwinLost(events, n, config, code);
      }
    }
  }

  // ----------------------------------------------------- what an activation is answered

  ghost predicate IssuedUntil(h: History, user: string, knownUntil: int) {
    h.userCode == user && knownUntil == h.expiresAt + KNOWN_TTL_SECONDS
  }

  /** A user code is known because it was issued, for an hour beyond the code it was issued with. */
  ghost predicate KnownWereIssued(w: World) {
    forall u | u in w.store.knownUser :: exists c :: c in w.issued && IssuedUntil(w.issued[c], u, w.store.knownUser[u])
  }

  lemma SameKnown(w: World, v: World, now: int)
    requires KnownWereIssued(w) && v.issued.Keys == w.issued.Keys
    requires forall c | c in w.issued ::
      v.issued[c].userCode == w.issued[c].userCode && v.issued[c].expiresAt == w.issued[c].expiresAt
    requires v.store.knownUser == w.store.knownUser || v.store.knownUser == DropExpired(w.store.knownUser, now)
    ensures KnownWereIssued(v)
  {
    forall u | u in v.store.knownUser
      ensures exists c :: c in v.issued && IssuedUntil(v.issued[c], u, v.store.knownUser[u])
    {
      var c :| c in w.issued && IssuedUntil(w.issued[c], u, w.store.knownUser[u]);
      assert IssuedUntil(v.issued[c], u, v.store.knownUser[u]);
    }
  }

  lemma NewKnown(w: World, x: Session)
    requires KnownWereIssued(w) && x.deviceCode !in w.issued
    ensures KnownWereIssued(
      World(Saved(w.store, x), w.issued[x.deviceCode := History(x.userCode, x.expiresAt, None, false)]))
  {
    var v := World(Saved(w.store, x), w.issued[x.deviceCode := History(x.userCode, x.expiresAt, None, false)]);
    forall u | u in v.store.knownUser
      ensures exists c :: c in v.issued && IssuedUntil(v.issued[c], u, v.store.knownUser[u])
    {
      if u == x.userCode {
        assert IssuedUntil(v.issued[x.deviceCode], u, v.store.knownUser[u]);
      } else {
        var c :| c in w.issued && IssuedUntil(w.issued[c], u, w.store.knownUser[u]);
        assert IssuedUntil(v.issued[c], u, v.store.knownUser[u]);
      }
    }
  }

  lemma {:induction false} StepKeepsKnown(w: World, e: Event, config: Config)
    requires KnownWereIssued(w) && Fresh(w, e)
    ensures KnownWereIssued(Next(w, e, config))
  {
    hide NonEmpty, Picked, KnownWereIssued, DropExpired;
    var v := Next(w, e, config);
    if e.Issue? {
      PickedOnlyCleans(w.store, e.draws, e.now);
      var (picked, code) := Picked(w.store, e.draws, e.now);
      SameKnown(w, w.(store := picked), e.now);
      if code.Some? {
        NewKnown(w.(store := picked), NewSession(config, e.deviceCode, code.value, e.now));
      }
    } else {
      KnownUsersAreCleaned(w.store, e);
      hide Activated, Exchanged;
      SameKnown(w, v, e.now);
    }
  }

  lemma {:induction false} RunKeepsKnown(events: seq<Event>, n: nat, config: Config)
    requires Proper(events) && n <= |events|
    ensures KnownWereIssued(Run(events, n, config))
  {
    hide Next, Proper, Fresh, Run;
    if n > 0 {
      hide KnownWereIssued;
      RunKeepsKnown(events, n - 1, config);
      EventIsFresh(events, n - 1, config);
      RunStep(events, n - 1, config);
      StepKeepsKnown(Run(events, n - 1, config), events[n - 1], config);
    } else {
      EmptyRun(events, config);
    }
  }

  /** The user code was issued with a code that has not been over for an hour. */
  ghost predicate Recent(issued: map<string, History>, user: string, now: int) {
    exists c :: c in issued && issued[c].userCode == user && now < issued[c].expiresAt + 3600
  }

  lemma KnownMeansRecent(w: World, last: int, now: int, user: string)
    requires UserCodesOk(w, last) && KnownWereIssued(w) && last <= now
    ensures user in DropExpired(w.store.knownUser, now) <==> Recent(w.issued, user, now)
  {
    if user in w.store.knownUser && now < w.store.knownUser[user] {
      var c :| c in w.issued && IssuedUntil(w.issued[c], user, w.store.knownUser[user]);
      assert now < w.issued[c].expiresAt + 3600;
    }
  }

  /** The answer to an activation of this live code, when the index does or does not lead to it. */
  ghost predicate LiveAnswer(h: History, leads: bool, code: string, a: Activation, answer: Result<Session, ErrorCode>) {
    if !leads then answer == Err(ExpiredToken)
    else if a.deviceCode.Some? && a.deviceCode.value != code then answer == Err(InvalidRequest)
    else if h.exchanged then answer == Err(AuthorizationAlreadyConsumed)
    else answer.Ok? && answer.value.deviceCode == code && answer.value.tokens == Some(a.tokens)
  }

  /** No live code carries the user code. */
  ghost predicate AllOver(issued: map<string, History>, user: string, now: int) {
    forall c | c in issued && issued[c].userCode == user :: now >= issued[c].expiresAt
  }

  lemma {:induction false} ActivationAnswer(w: World, last: int, now: int, a: Activation)
    requires Agrees(w, last) && UserCodesOk(w, last) && IndexAlone(w, last) && KnownWereIssued(w) && last <= now
    requires ValidActivation(a)
    ensures var answer := Activated(w.store, a, now).1;
      && (AllOver(w.issued, a.userCode, now) ==>
            answer == Err(if Recent(w.issued, a.userCode, now) then ExpiredToken else NotFound))
      && (forall c | c in w.issued && w.issued[c].userCode == a.userCode && now < w.issued[c].expiresAt ::
            LiveAnswer(w.issued[c], Leads(w.store, a.userCode, c), c, a, answer))
  {
    hide NonEmpty, CompleteTokens, ValidActivation, Agrees, FoundByDevice, DropExpired, KnownWereIssued;
    KnownMeansRecent(w, last, now, a.userCode);
    var clean := Cleanup(w.store, now);
    CleanupAgrees(w, last, now);
    if a.userCode in clean.deviceByUser {
      var code := clean.deviceByUser[a.userCode];
      IndexLeadsHome(w, last, now, a.userCode);
      FoundAgrees(w.(store := clean), now, now, code);
      LookupKeepsKnown(w.store, code, now);
      assert FoundByUser(w.store, a.userCode, now) == FoundByDevice(clean, code, now);
    }
    hide UserCodesOk;
  }

  /** A lookup on cleaned maps drops no known user code. */
  lemma LookupKeepsKnown(s: Contents, code: string, now: int)
    ensures FoundByDevice(Cleanup(s, now), code, now).0.knownUser == DropExpired(s.knownUser, now)
  {
    CleanupTwice(s, now);
  }

  /**
   * Over any run the answer to an activation follows from the histories: refused when incomplete; "expired" for a
   * user code that is over for less than an hour and "not found" after that; for a live code the tokens are taken,
   * unless another device code was named, it is exchanged, or its index entry went with an expired twin.
   */
  lemma {:induction false} ActivationAnswersAreDue(events: seq<Event>, n: nat, config: Config)
    requires Proper(events) && n < |events| && events[n].Activate?
    ensures var issued, a, now := Run(events, n, config).issued, events[n].a, events[n].now;
      var answer := Activated(Run(events, n, config).store, a, now).1;
      if !(NonEmpty(a.userCode) && NonEmpty(a.tokens.uid) && NonEmpty(a.tokens.idToken)
           && NonEmpty(a.tokens.refreshToken) && a.tokens.expiresIn > 0)
      then answer == Err(InvalidRequest)
      else
        && (AllOver(issued, a.userCode, now) ==>
              answer == Err(if Recent(issued, a.userCode, now) then ExpiredToken else NotFound))
        && forall c | c in issued && issued[c].userCode == a.userCode && now < issued[c].expiresAt ::
             if !issued[c].exchanged then LiveAnswer(issued[c], !TwinLost(events, n, config, c), c, a, answer)
             else answer == Err(ExpiredToken) || LiveAnswer(issued[c], true, c, a, answer)
  {
    var w, a, now := Run(events, n, config), events[n].a, events[n].now;
    TimeMovesOn(events, n);
    RunAgrees(events, n, config);
    RunKeepsApart(events, n, config);
    RunStaysAlone(events, n, config);
    RunKeepsKnown(events, n, config);
    hide NonEmpty, Run, Proper, Agrees, UserCodesOk, IndexAlone, KnownWereIssued, Leads, TwinLost, LastTime, LiveAnswer,
      FoundByUser;
    if ValidActivation(a) {
      ActivationAnswer(w, LastTime(events, n), now, a);
      forall c | c in w.issued && w.issued[c].userCode == a.userCode && now < w.issued[c].expiresAt
          && !w.issued[c].exchanged
        ensures Leads(w.store, a.userCode, c) <==> !TwinLost(events, n, config, c)
      {
        LeadsUntilTwinLost(events, n, config, c);
      }
      UnledIsExpired(w, now, a);
    }
  }

  lemma UnledIsExpired(w: World, now: int, a: Activation)
    ensures forall c | c in w.issued && !LiveAnswer(w.issued[c], true, c, a, Activated(w.store, a, now).1) ::
      LiveAnswer(w.issued[c], Leads(w.store, a.userCode, c), c, a, Activated(w.store, a, now).1) ==>
        Activated(w.store, a, now).1 == Err(ExpiredToken)
  {
    hide Activated, Leads;
  }

  // -------------------------------------------------------- how a twin comes to be lost

  lemma ExchangeDropsStaleSession(s: Contents, stale: string, now: int)
    requires stale in s.sessions && NonEmpty(stale) && s.sessions[stale].expiresAt <= now
    ensures Exchanged(s, stale, now).0 == Deleted(Cleanup(s, now), s.sessions[stale]) && Exchanged(s, stale, now).1.Err?
  {
    hide NonEmpty;
  }

  lemma UnindexedIsExpired(s: Contents, a: Activation, now: int)
    requires ValidActivation(a) && a.userCode !in s.deviceByUser && a.userCode in s.knownUser
      && now < s.knownUser[a.userCode]
    ensures Activated(s, a, now).1 == Err(ExpiredToken)
  {
    hide NonEmpty;
  }

  /** Dropping the stale session leaves the new one without its user code. */
  lemma DeletionUnindexes(s: Contents, x: Session, stale: Session, now: int)
    requires stale.userCode == x.userCode && stale.deviceCode != x.deviceCode && now < x.expiresAt
    ensures var after := Deleted(Cleanup(Saved(s, x), now), stale);
      && x.deviceCode in after.sessions && after.sessions[x.deviceCode] == x
      && x.userCode !in after.deviceByUser && x.userCode in after.knownUser && now < after.knownUser[x.userCode]
  {
  }

  lemma StaleCodeIsAnother(w: World, last: int, stale: string, e: Event)
    requires Agrees(w, last) && Fresh(w, e) && e.Issue? && stale in w.store.sessions
    ensures stale != e.deviceCode && w.store.sessions[stale].deviceCode == stale
  {
    hide NonEmpty;
  }

  lemma IssueSaves(w: World, e: Event, config: Config)
    requires e.Issue? && Issued(w.store, config, e.deviceCode, e.draws, e.now).1.Some?
    ensures var x := Issued(w.store, config, e.deviceCode, e.draws, e.now).1.value;
      && Next(w, e, config).store == Saved(Cleanup(w.store, e.now), x)
      && x.deviceCode == e.deviceCode && x.expiresAt == e.now + config.ttlSeconds
  {
    PickedOnlyCleans(w.store, e.draws, e.now);
    hide Picked, Cleanup;
    assert Picked(w.store, e.draws, e.now).0 == Cleanup(w.store, e.now);
  }

  /**
   * A user code drawn again while an old session still carries it is lost as soon as the old
   * device code is exchanged: the new session is live, yet activating it answers "expired".
   */
  lemma {:induction false} StaleSessionDropsIndex(w: World, last: int, config: Config, stale: string, e: Event,
                                                  a: Activation)
    requires Agrees(w, last) && last <= e.now && Fresh(w, e) && e.Issue? && config.ttlSeconds > 0
    requires stale in w.store.sessions && NonEmpty(stale) && w.store.sessions[stale].expiresAt <= e.now
    requires Issued(w.store, config, e.deviceCode, e.draws, e.now).1.Some?
    requires var x := Issued(w.store, config, e.deviceCode, e.draws, e.now).1.value;
      x.userCode == w.store.sessions[stale].userCode && x.userCode == a.userCode && ValidActivation(a)
    ensures var after := Exchanged(Next(w, e, config).store, stale, e.now).0;
      && e.deviceCode in after.sessions && e.now < after.sessions[e.deviceCode].expiresAt
      && Activated(after, a, e.now).1 == Err(ExpiredToken)
  {
    hide Agrees, Fresh, NonEmpty, ValidActivation, Issued, Next, Exchanged, Activated, Deleted;
    StaleCodeIsAnother(w, last, stale, e);
    IssueSaves(w, e, config);
    var x := Issued(w.store, config, e.deviceCode, e.draws, e.now).1.value;
    var before := Cleanup(w.store, e.now);
    ExchangeDropsStaleSession(Saved(before, x), stale, e.now);
    DeletionUnindexes(before, x, w.store.sessions[stale], e.now);
    UnindexedIsExpired(Deleted(Cleanup(Saved(before, x), e.now), w.store.sessions[stale]), a, e.now);
  }

  /**
   * This does happen: for every configuration there is a run of three calls after which a live code is answered
   * "expired" when its user code is activated. The user code is drawn again as soon as it is no longer known.
   */
  lemma {:induction false} UserCodeCanBeLost(config: Config, old_: string, new_: string, a: Activation)
    returns (events: seq<Event>, now: int)
    requires config.ttlSeconds > 0 && old_ != new_ && NonEmpty(old_) && NonEmpty(new_) && ValidActivation(a)
    ensures Proper(events) && |events| == 3 && events[2].now == now
    ensures var w := Run(events, 3, config);
      && new_ in w.issued && now < w.issued[new_].expiresAt && w.issued[new_].userCode == a.userCode
      && Activated(w.store, a, now).1 == Err(ExpiredToken)
  {
    hide NonEmpty, ValidActivation;
    now := config.ttlSeconds + KNOWN_TTL_SECONDS;
    events := [Issue(0, old_, [a.userCode]), Issue(now, new_, [a.userCode]), Exchange(now, old_)];
    var first, second := NewSession(config, old_, a.userCode, 0), NewSession(config, new_, a.userCode, now);
    FirstIssue(config, old_, a.userCode);
    var w1 := Next(World(EMPTY, map[]), events[0], config);
    SecondIssue(w1, config, old_, new_, a.userCode, now);
    var w2 := Next(w1, events[1], config);
    ExchangeKeepsIssued(w2, events[2], config, new_);
    hide Next;
    EmptyRun(events, config);
    RunStep(events, 0, config);
    RunStep(events, 1, config);
    RunStep(events, 2, config);
    LoseIt(w1, w2, config, old_, new_, a, now);
  }

  lemma FirstIssue(config: Config, code: string, user: string)
    ensures var x := NewSession(config, code, user, 0);
      Next(World(EMPTY, map[]), Issue(0, code, [user]), config)
      == World(Saved(EMPTY, x), map[code := History(user, config.ttlSeconds, None, false)])
  {
    assert Picked(EMPTY, [user], 0) == (EMPTY, Some(user));
  }

  lemma SecondIssue(w: World, config: Config, old_: string, code: string, user: string, now: int)
    requires w.store == Saved(EMPTY, NewSession(config, old_, user, 0)) && now == config.ttlSeconds + KNOWN_TTL_SECONDS
    ensures var x := NewSession(config, code, user, now);
      Next(w, Issue(now, code, [user]), config)
      == World(Saved(Cleanup(w.store, now), x), w.issued[code := History(user, now + config.ttlSeconds, None, false)])
  {
    assert user !in Cleanup(w.store, now).knownUser;
    assert Picked(w.store, [user], now) == (Cleanup(w.store, now), Some(user));
  }

  lemma ExchangeKeepsIssued(w: World, e: Event, config: Config, code: string)
    requires e.Exchange? && code in w.issued
    ensures code in Next(w, e, config).issued && Next(w, e, config).store == Exchanged(w.store, e.deviceCode, e.now).0
    ensures Next(w, e, config).issued[code].expiresAt == w.issued[code].expiresAt
    ensures Next(w, e, config).issued[code].userCode == w.issued[code].userCode
  {
    hide Exchanged;
  }

  lemma LoseIt(w1: World, w2: World, config: Config, old_: string, new_: string, a: Activation, now: int)
    requires config.ttlSeconds > 0 && old_ != new_ && NonEmpty(old_) && ValidActivation(a)
    requires now == config.ttlSeconds + KNOWN_TTL_SECONDS
    requires w1.store == Saved(EMPTY, NewSession(config, old_, a.userCode, 0))
    requires w2.store == Saved(Cleanup(w1.store, now), NewSession(config, new_, a.userCode, now))
    ensures Activated(Exchanged(w2.store, old_, now).0, a, now).1 == Err(ExpiredToken)
  {
    hide NonEmpty, ValidActivation, Exchanged, Activated, Deleted;
    var stale, x := NewSession(config, old_, a.userCode, 0), NewSession(config, new_, a.userCode, now);
    assert old_ in w2.store.sessions && w2.store.sessions[old_] == stale;
    ExchangeDropsStaleSession(w2.store, old_, now);
    DeletionUnindexes(Cleanup(w1.store, now), x, stale, now);
    UnindexedIsExpired(Deleted(Cleanup(w2.store, now), stale), a, now);
  }
}
