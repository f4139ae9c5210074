/** What whole runs of publishes and rollbacks keep. */
module RegistryRuns {
  import opened Wrappers
  import opened StableJson
  import opened Rules
  import opened RuleRegistry

  datatype Command = Publish(p: PublishInput, at: string) | Rollback(r: RollbackInput, at: string)

  /** A refused command leaves the store as it is. */
  function Step(c: Catalog, store: Store, cmd: Command, lt: KeyOrder): Store {
    match cmd
    case Publish(input, at) =>
      var entry := PublishEntry(c, store, input, at, lt);
      if entry.Ok? then Record(store, input.gameId, entry.value) else store
    case Rollback(input, at) =>
      var entry := RollbackEntry(c, store, input, at);
      if entry.Ok? then Record(store, input.gameId, entry.value) else store
  }

  /** The store after the first `n` commands. */
  function Run(c: Catalog, start: Store, cmds: seq<Command>, n: nat, lt: KeyOrder): Store
    requires n <= |cmds|
  {
    if n == 0 then start else Step(c, Run(c, start, cmds, n - 1, lt), cmds[n - 1], lt)
  }

  /** Every loaded rule is filed under its own key and its own game, and ids hold no colon. */
  ghost predicate SoundCatalog(c: Catalog) {
    && (forall k | k in c.byCompositeKey :: KeyOf(c.byCompositeKey[k]) == k && PlainIds(c.byCompositeKey[k]))
    && (forall g | g in c.byGame :: forall rule | rule in c.byGame[g] ::
          rule.gameId == g && KeyOf(rule) in c.byCompositeKey && c.byCompositeKey[KeyOf(rule)] == rule)
  }

  lemma BuiltCatalogIsSound(c: Catalog, definitions: seq<GameRule>)
    requires Indexes(c, definitions) && forall d | d in definitions :: PlainIds(d)
    ensures SoundCatalog(c)
  {
    hide KeyOf, OfGame, ValidRule;
    forall g | g in c.byGame ensures forall rule | rule in c.byGame[g] ::
          rule.gameId == g && KeyOf(rule) in c.byCompositeKey && c.byCompositeKey[KeyOf(rule)] == rule
    {
      OtherGames(definitions, g);
    }
  }

  /** The snapshot names a loaded rule of the game. */
  ghost predicate Loaded(c: Catalog, gameId: string, s: Snapshot) {
    s.gameId == gameId && Lookup(c, s).Some? && ToSnapshot(Lookup(c, s).value) == s
  }

  lemma LookupFindsItself(c: Catalog, gameId: string, ruleId: string, ruleVersion: string)
    requires SoundCatalog(c) && GetRule(c, gameId, ruleId, ruleVersion).Some?
    ensures var rule := GetRule(c, gameId, ruleId, ruleVersion).value;
            ToSnapshot(rule) == Snapshot(gameId, ruleId, ruleVersion) && Loaded(c, gameId, ToSnapshot(rule))
  {
    hide CompositeKey, ValidRule, PlainIds;
    var rule := GetRule(c, gameId, ruleId, ruleVersion).value;
    KeyIdentifiesRule(rule, gameId, ruleId, ruleVersion);
  }

  // ------------------------------------------------------------- the audit chain

  /** The audit list of a game is a chain that ends in the active rule, through loaded rules only. */
  ghost predicate Chained(c: Catalog, store: Store, gameId: string) {
    var entries := Entries(store, gameId);
    && (forall i | 0 <= i < |entries| :: Loaded(c, gameId, entries[i].to))
    && (forall i | 0 < i < |entries| :: entries[i].from == Some(entries[i - 1].to))
    && (entries != [] ==> gameId in store.active && store.active[gameId] == entries[|entries| - 1].to)
    && (gameId in store.active ==> Loaded(c, gameId, store.active[gameId]))
  }

  /** An entry that starts at the active rule and leads to a loaded one extends the chain. */
  lemma RecordKeepsChain(c: Catalog, store: Store, target: string, entry: AuditEntry, gameId: string)
    requires Chained(c, store, gameId)
    requires target == gameId ==> Loaded(c, gameId, entry.to)
    requires target == gameId && gameId in store.active ==> entry.from == Some(store.active[gameId])
    ensures Chained(c, Record(store, target, entry), gameId)
  {
    hide Loaded;
  }

  lemma {:induction false} PreviousIsLoaded(c: Catalog, entries: seq<AuditEntry>, n: nat, current: Snapshot,
                                            gameId: string)
    requires n <= |entries| && forall i | 0 <= i < n :: Loaded(c, gameId, entries[i].to)
    ensures match PreviousRule(c, entries, n, current)
      case None => forall i | 0 <= i < n :: entries[i].to == current
      case Some(rule) =>
        ToSnapshot(rule) != current && Loaded(c, gameId, ToSnapshot(rule))
        && exists i :: 0 <= i < n && entries[i].to == ToSnapshot(rule)
                       && forall j | i < j < n :: entries[j].to == current
  {
    hide Lookup, ValidRule;
    if n > 0 && entries[n - 1].to == current {
      PreviousIsLoaded(c, entries, n - 1, current, gameId);
      var previous := PreviousRule(c, entries, n - 1, current);
      assert previous == PreviousRule(c, entries, n, current);
      if previous.Some? {
        var i :| 0 <= i < n - 1 && entries[i].to == ToSnapshot(previous.value)
              && forall j | i < j < n - 1 :: entries[j].to == current;
        assert forall j | i < j < n :: entries[j].to == current;
      }
    }
  }

  lemma {:induction false} StepKeepsChain(c: Catalog, store: Store, cmd: Command, gameId: string, lt: KeyOrder)
    requires SoundCatalog(c) && Chained(c, store, gameId)
    ensures Chained(c, Step(c, store, cmd, lt), gameId)
    ensures Entries(store, gameId) <= Entries(Step(c, store, cmd, lt), gameId)
  {
    hide Chained, AssertCompatible, GetLatestRule, ValidRule, PreviousRule, SoundCatalog;
    ActiveMatches(c, store, gameId);
    match cmd
    case Publish(input, at) =>
      var entry := PublishEntry(c, store, input, at, lt);
      if entry.Ok? {
        LookupFindsItself(c, input.gameId, input.ruleId, input.ruleVersion);
        RecordKeepsChain(c, store, input.gameId, entry.value, gameId);
      }
    case Rollback(input, at) =>
      var entry := RollbackEntry(c, store, input, at);
      if entry.Ok? && input.gameId == gameId {
        if input.targetRuleId != "" && input.targetRuleVersion != "" {
          LookupFindsItself(c, input.gameId, input.targetRuleId, input.targetRuleVersion);
        } else {
          var entries := Entries(store, gameId);
          PreviousIsLoaded(c, entries, |entries|, ToSnapshot(ActiveRule(c, store, gameId).value), gameId);
        }
      }
      if entry.Ok? {
        RecordKeepsChain(c, store, input.gameId, entry.value, gameId);
      }
  }

  /** What a chained store says about the active rule. */
  lemma ActiveMatches(c: Catalog, store: Store, gameId: string)
    requires Chained(c, store, gameId)
    ensures forall i | 0 <= i < |Entries(store, gameId)| :: Loaded(c, gameId, Entries(store, gameId)[i].to)
    ensures Entries(store, gameId) != [] ==> gameId in store.active
    ensures gameId in store.active ==>
      ActiveRule(c, store, gameId).Some? && ToSnapshot(ActiveRule(c, store, gameId).value) == store.active[gameId]
  {
  }

  /**
   * After any run from a chained store, every entry starts where the one before it led,
   * the last one leads to the active rule, and the active rule is loaded; entries are never lost.
   */
  lemma {:induction false} RunKeepsChain(c: Catalog, start: Store, cmds: seq<Command>, n: nat, gameId: string,
                                         lt: KeyOrder)
    requires SoundCatalog(c) && Chained(c, start, gameId) && n <= |cmds|
    ensures Chained(c, Run(c, start, cmds, n, lt), gameId)
    ensures Entries(start, gameId) <= Entries(Run(c, start, cmds, n, lt), gameId)
  {
    hide Chained, SoundCatalog, Step, Entries;
    if n > 0 {
      RunKeepsChain(c, start, cmds, n - 1, gameId, lt);
      StepKeepsChain(c, Run(c, start, cmds, n - 1, lt), cmds[n - 1], gameId, lt);
    }
  }

  // ------------------------------------------------------------------- rollbacks

  predicate IsDefaultRollback(input: RollbackInput) {
    input.targetRuleId == "" || input.targetRuleVersion == ""
  }

  /**
   * A rollback without a target goes to the latest published rule that differs from the active one, if there is one.
   */
  lemma {:induction false} DefaultRollbackTarget(c: Catalog, store: Store, input: RollbackInput, at: string)
    requires Chained(c, store, input.gameId) && IsDefaultRollback(input) && input.gameId in store.active
    ensures var entries, current := Entries(store, input.gameId), store.active[input.gameId];
            match RollbackEntry(c, store, input, at)
            case Err(e) => e == NoTarget && forall i | 0 <= i < |entries| :: entries[i].to == current
            case Ok(entry) =>
              entry.from == Some(current) && entry.to != current && Loaded(c, input.gameId, entry.to)
              && (exists i :: 0 <= i < |entries| && entries[i].to == entry.to
                    && forall j | i < j < |entries| :: entries[j].to == current)
  {
    hide Chained, GetLatestRule, ValidRule, PreviousRule, Lookup, Loaded;
    ActiveMatches(c, store, input.gameId);
    var entries := Entries(store, input.gameId);
    PreviousIsLoaded(c, entries, |entries|, store.active[input.gameId], input.gameId);
  }

  /** Two default rollbacks in a row restore the rule that was active before the first. */
  lemma {:induction false} RollbackTwiceRestores(c: Catalog, store: Store, first: RollbackInput, second: RollbackInput,
                                                 at1: string, at2: string)
    requires SoundCatalog(c) && Chained(c, store, first.gameId)
    requires IsDefaultRollback(first) && IsDefaultRollback(second) && first.gameId == second.gameId
    requires RollbackEntry(c, store, first, at1).Ok?
    ensures var after := Record(store, first.gameId, RollbackEntry(c, store, first, at1).value);
            var undo := RollbackEntry(c, after, second, at2);
            first.gameId in store.active && undo.Ok?
            && Record(after, first.gameId, undo.value).active[first.gameId] == store.active[first.gameId]
  {
    var g := first.gameId;
    var entries := Entries(store, g);
    NothingToRollBack(c, store, first, at1);
    DefaultRollbackTarget(c, store, first, at1);
    var entry := RollbackEntry(c, store, first, at1).value;
    var after := Record(store, g, entry);
    RecordKeepsChain(c, store, g, entry, g);
    DefaultRollbackTarget(c, after, second, at2);
    hide RollbackEntry, ValidRule, Lookup, Loaded;
    var longer := Entries(after, g);
    assert longer == entries + [entry];
    assert longer[|entries| - 1].to == store.active[g];
  }

  lemma NothingToRollBack(c: Catalog, store: Store, input: RollbackInput, at: string)
    requires Chained(c, store, input.gameId) && IsDefaultRollback(input) && RollbackEntry(c, store, input, at).Ok?
    ensures Entries(store, input.gameId) != [] && input.gameId in store.active
  {
  }

  // ------------------------------------------------------------------- publishes

  /** The first audited publish is not gated: any loaded rule may become active. */
  lemma FirstPublishIsFree(c: Catalog, store: Store, input: PublishInput, at: string, lt: KeyOrder)
    requires Entries(store, input.gameId) == []
    ensures PublishEntry(c, store, input, at, lt).Ok? <==>
            GetRule(c, input.gameId, input.ruleId, input.ruleVersion).Some?
  {
  }

  /** `b` is a later version of the rule `a`, with the same contract if the major version is the same. */
  ghost predicate Supersedes(b: GameRule, a: GameRule) {
    && a.gameId == b.gameId && a.ruleId == b.ruleId
    && Later(Version(b), Version(a))
    && (Version(b).major == Version(a).major ==> SameContract(a, b))
  }

  /**
   * A publish names the rule that was asked for, who asked, why and when; it is refused exactly when that rule is not
   * loaded, or the game is audited and the rule does not supersede the active one.
   */
  lemma {:induction false} PublishTells(c: Catalog, store: Store, input: PublishInput, at: string, lt: KeyOrder)
    requires TotalOrder(lt) && SoundCatalog(c) && Chained(c, store, input.gameId)
    ensures var next := GetRule(c, input.gameId, input.ruleId, input.ruleVersion);
      var current := ActiveRule(c, store, input.gameId);
      match PublishEntry(c, store, input, at, lt)
      case Ok(entry) =>
        && next.Some? && entry.action == PublishAction && entry.at == at
        && entry.actor == input.actor && entry.reason == input.reason
        && entry.to == Snapshot(input.gameId, input.ruleId, input.ruleVersion)
        && (current.None? ==> entry.from.None?) && (current.Some? ==> entry.from == Some(ToSnapshot(current.value)))
        && (Entries(store, input.gameId) != [] ==> current.Some? && Supersedes(next.value, current.value))
      case Err(e) =>
        || (e == NotFound && next.None?)
        || (e.Incompatible? && next.Some? && Entries(store, input.gameId) != []
            && current.Some? && !Supersedes(next.value, current.value))
  {
    hide AssertCompatible, GetRule, GetLatestRule, ValidRule, Supersedes, SoundCatalog, Chained, ActiveRule;
    ActiveMatches(c, store, input.gameId);
    if Entries(store, input.gameId) != [] {
      AuditedHasActive(c, store, input.gameId);
    }
    var next := GetRule(c, input.gameId, input.ruleId, input.ruleVersion);
    var current := ActiveRule(c, store, input.gameId);
    if next.Some? {
      LookupFindsItself(c, input.gameId, input.ruleId, input.ruleVersion);
      if current.Some? {
        GateSupersedes(current.value, next.value, lt);
      }
    }
  }

  lemma AuditedHasActive(c: Catalog, store: Store, gameId: string)
    requires Chained(c, store, gameId) && Entries(store, gameId) != []
    ensures ActiveRule(c, store, gameId).Some?
  {
  }

  /** A rollback to a named rule goes there, whatever was active before, if that rule is loaded. */
  lemma {:induction false} RollbackTells(c: Catalog, store: Store, input: RollbackInput, at: string)
    requires SoundCatalog(c) && Chained(c, store, input.gameId)
    ensures var current := ActiveRule(c, store, input.gameId);
      match RollbackEntry(c, store, input, at)
      case Ok(entry) =>
        && current.Some? && entry.action == RollbackAction && entry.at == at
        && entry.actor == input.actor && entry.reason == input.reason && entry.from == Some(ToSnapshot(current.value))
        && (!IsDefaultRollback(input) ==>
              entry.to == Snapshot(input.gameId, input.targetRuleId, input.targetRuleVersion)
              && GetRule(c, input.gameId, input.targetRuleId, input.targetRuleVersion).Some?)
      case Err(e) =>
        || (e == NoActiveRule && current.None?)
        || (e == NoTarget && current.Some?
            && (!IsDefaultRollback(input) ==>
                  GetRule(c, input.gameId, input.targetRuleId, input.targetRuleVersion).None?))
  {
    hide GetRule, ValidRule, SoundCatalog, Chained, ActiveRule, PreviousRule;
    if !IsDefaultRollback(input) && GetRule(c, input.gameId, input.targetRuleId, input.targetRuleVersion).Some? {
      LookupFindsItself(c, input.gameId, input.targetRuleId, input.targetRuleVersion);
    }
  }

  /**
   * The entry of an accepted command is appended and its rule made active, a refused command changes nothing; other
   * games are not touched.
   */
  lemma {:induction false} StepTells(c: Catalog, store: Store, cmd: Command, gameId: string, lt: KeyOrder)
    ensures var after := Step(c, store, cmd, lt);
      var target := match cmd { case Publish(p, _) => p.gameId case Rollback(r, _) => r.gameId };
      var entry := match cmd { case Publish(p, at) => PublishEntry(c, store, p, at, lt)
                               case Rollback(r, at) => RollbackEntry(c, store, r, at) };
      if entry.Err? then after == store
      else if gameId == target then
        && gameId in after.active && after.active[gameId] == entry.value.to
        && Entries(after, gameId) == Entries(store, gameId) + [entry.value]
      else
        && Entries(after, gameId) == Entries(store, gameId) && (gameId in after.active <==> gameId in store.active)
        && (gameId in store.active ==> after.active[gameId] == store.active[gameId])
  {
    hide PublishEntry, RollbackEntry;
  }

  lemma SupersedesTransitive(a: GameRule, b: GameRule, d: GameRule, lt: KeyOrder)
    requires TotalOrder(lt) && Supersedes(b, a) && Supersedes(d, b)
    ensures Supersedes(d, a)
  {
    hide SameContract, HasBreakingContractChange, ParseSemver;
    SemverTotalOrder(ParseSemver(d.ruleVersion).value, ParseSemver(b.ruleVersion).value,
        ParseSemver(a.ruleVersion).value);
    BreakingIffContractDiffers(a, b, lt);
    BreakingIffContractDiffers(b, d, lt);
    BreakingIffContractDiffers(a, d, lt);
    BreakingIsInequality(a, b, d, lt);
  }

  lemma BreakingIsInequality(a: GameRule, b: GameRule, d: GameRule, lt: KeyOrder)
    ensures !HasBreakingContractChange(a, b, lt) && !HasBreakingContractChange(b, d, lt) ==>
            !HasBreakingContractChange(a, d, lt)
  {
  }

  /** Whatever publish of the game is accepted now, the published rule supersedes the active one. */
  ghost predicate PublishesSupersede(c: Catalog, store: Store, gameId: string, lt: KeyOrder)
    requires ActiveRule(c, store, gameId).Some?
  {
    forall input: PublishInput, at: string | input.gameId == gameId && PublishEntry(c, store, input, at, lt).Ok? ::
      Supersedes(GetRule(c, gameId, input.ruleId, input.ruleVersion).value, ActiveRule(c, store, gameId).value)
  }

  /** The promise of the gate holds for a game exactly when the game has been audited before. */
  lemma {:induction false} GateHoldsIffAudited(c: Catalog, store: Store, gameId: string, lt: KeyOrder)
    requires TotalOrder(lt) && SoundCatalog(c) && Chained(c, store, gameId) && ActiveRule(c, store, gameId).Some?
    ensures PublishesSupersede(c, store, gameId, lt) <==> Entries(store, gameId) != []
  {
    hide SoundCatalog, Chained, GetRule, ValidRule, Supersedes, AssertCompatible, ActiveRule;
    var active := ActiveRule(c, store, gameId).value;
    if Entries(store, gameId) == [] {
      ActiveFindsItself(c, store, gameId);
      NotLaterThanItself(active);
      var input := PublishInput(gameId, active.ruleId, active.ruleVersion, "", None);
      FirstPublishIsFree(c, store, input, "", lt);
      assert PublishEntry(c, store, input, "", lt).Ok?;
    } else {
      forall input: PublishInput, at: string | input.gameId == gameId && PublishEntry(c, store, input, at, lt).Ok?
        ensures Supersedes(GetRule(c, gameId, input.ruleId, input.ruleVersion).value, active)
      {
        GateSupersedes(active, GetRule(c, gameId, input.ruleId, input.ruleVersion).value, lt);
      }
    }
  }

  /** The active rule can be looked up under the game and its own id and version. */
  lemma ActiveFindsItself(c: Catalog, store: Store, gameId: string)
    requires SoundCatalog(c) && Chained(c, store, gameId) && ActiveRule(c, store, gameId).Some?
    ensures var active := ActiveRule(c, store, gameId).value;
      GetRule(c, gameId, active.ruleId, active.ruleVersion) == Some(active)
  {
    hide ValidRule, PlainIds, CompositeKey, LatestOf;
  }

  lemma NotLaterThanItself(rule: GameRule)
    ensures !Supersedes(rule, rule)
  {
    hide ParseSemver, SameContract;
  }

  /** A successful publish on an audited game replaces the active rule by one that supersedes it. */
  lemma {:induction false} PublishStep(c: Catalog, store: Store, cmd: Command, gameId: string, lt: KeyOrder)
    requires TotalOrder(lt) && SoundCatalog(c) && Chained(c, store, gameId)
    requires cmd.Publish? && Entries(store, gameId) != []
    ensures var after := Step(c, store, cmd, lt);
            var a, b := ActiveRule(c, store, gameId), ActiveRule(c, after, gameId);
            a.Some? && b.Some?
            && if |Entries(after, gameId)| == |Entries(store, gameId)| then a == b else Supersedes(b.value, a.value)
  {
    hide AssertCompatible, GetLatestRule, ValidRule, Supersedes;
    ActiveMatches(c, store, gameId);
    var entry := PublishEntry(c, store, cmd.p, cmd.at, lt);
    if entry.Ok? && cmd.p.gameId == gameId {
      LookupFindsItself(c, cmd.p.gameId, cmd.p.ruleId, cmd.p.ruleVersion);
      var next := GetRule(c, cmd.p.gameId, cmd.p.ruleId, cmd.p.ruleVersion).value;
      GateSupersedes(ActiveRule(c, store, gameId).value, next, lt);
    }
  }

  lemma GateSupersedes(a: GameRule, b: GameRule, lt: KeyOrder)
    requires TotalOrder(lt)
    ensures AssertCompatible(a, b, lt).Ok? <==> Supersedes(b, a)
  {
    hide ParseSemver, SameContract, HasBreakingContractChange, AssertCompatible;
    GateMeaning(a, b, lt);
    SemverTotalOrder(
      ParseSemver(b.ruleVersion).value, ParseSemver(a.ruleVersion).value, ParseSemver(b.ruleVersion).value);
  }

  /**
   * Between any two points of a run of publishes on an audited game, either nothing was published
   * and the active rule is the same, or the later active rule supersedes the earlier one: versions
   * strictly increase, and equal major versions have equal contracts.
   */
  lemma {:induction false} PublishRun(c: Catalog, start: Store, cmds: seq<Command>, i: nat, j: nat, gameId: string,
                                      lt: KeyOrder)
    requires TotalOrder(lt) && SoundCatalog(c) && Chained(c, start, gameId) && Entries(start, gameId) != []
    requires i <= j <= |cmds| && forall k | 0 <= k < |cmds| :: cmds[k].Publish?
    ensures var before, after := Run(c, start, cmds, i, lt), Run(c, start, cmds, j, lt);
            var a, b := ActiveRule(c, before, gameId), ActiveRule(c, after, gameId);
            a.Some? && b.Some? && |Entries(before, gameId)| <= |Entries(after, gameId)|
            && if |Entries(before, gameId)| == |Entries(after, gameId)| then a == b else Supersedes(b.value, a.value)
    decreases j - i
  {
    hide Chained, SoundCatalog, ActiveRule, ValidRule, Supersedes, Step, Entries, TotalOrder;
    RunKeepsChain(c, start, cmds, i, gameId, lt);
    if i == j {
      ActiveMatches(c, Run(c, start, cmds, i, lt), gameId);
    } else {
      PublishRun(c, start, cmds, i, j - 1, gameId, lt);
      RunKeepsChain(c, start, cmds, j - 1, gameId, lt);
      var middle := Run(c, start, cmds, j - 1, lt);
      PublishStep(c, middle, cmds[j - 1], gameId, lt);
      StepKeepsChain(c, middle, cmds[j - 1], gameId, lt);
      var before, after := Run(c, start, cmds, i, lt), Run(c, start, cmds, j, lt);
      if |Entries(before, gameId)| < |Entries(middle, gameId)| < |Entries(after, gameId)| {
        SupersedesTransitive(ActiveRule(c, before, gameId).value, ActiveRule(c, middle, gameId).value,
                             ActiveRule(c, after, gameId).value, lt);
      }
    }
  }
}
