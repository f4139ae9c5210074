/** The catalog of loaded rules and the registry that publishes and rolls back the active one. */
module RuleRegistry {
  import opened Text
  import opened Wrappers
  import opened StableJson
  import opened Rules

  // ----------------------------------------------------------------- catalog

  datatype Catalog = Catalog(byGame: map<string, seq<GameRule>>, byCompositeKey: map<string, GameRule>)

  datatype CatalogError = NoDefinitions | Duplicate(key: string)

  function CompositeKey(gameId: string, ruleId: string, ruleVersion: string): string {
    gameId + ":" + ruleId + ":" + ruleVersion
  }

  function KeyOf(rule: GameRule): string {
    CompositeKey(rule.gameId, rule.ruleId, rule.ruleVersion)
  }

  /** The definitions of one game, in list order. */
  function OfGame(definitions: seq<GameRule>, gameId: string): seq<GameRule> {
    if definitions == [] then [] else
    var last := definitions[|definitions| - 1];
    OfGame(definitions[..|definitions| - 1], gameId) + if last.gameId == gameId then [last] else []
  }

  ghost predicate HasDuplicate(definitions: seq<GameRule>) {
    exists i, j :: 0 <= i < j < |definitions| && KeyOf(definitions[i]) == KeyOf(definitions[j])
  }

  /** The two indexes hold exactly the definitions. */
  ghost predicate Indexes(c: Catalog, definitions: seq<GameRule>) {
    && (forall d | d in definitions :: KeyOf(d) in c.byCompositeKey && c.byCompositeKey[KeyOf(d)] == d)
    && (forall k | k in c.byCompositeKey :: c.byCompositeKey[k] in definitions && KeyOf(c.byCompositeKey[k]) == k)
    && (forall g | g in c.byGame :: c.byGame[g] == OfGame(definitions, g) && c.byGame[g] != [])
    && (forall d | d in definitions :: d.gameId in c.byGame)
  }

  /** The constructor, applied to the definitions after they have been sorted. */
  method BuildCatalog(sortedDefinitions: seq<GameRule>) returns (r: Result<Catalog, CatalogError>)
    ensures r.Ok? <==> sortedDefinitions != [] && !HasDuplicate(sortedDefinitions)
    ensures r.Ok? ==> Indexes(r.value, sortedDefinitions)
  {
    hide KeyOf, CompositeKey, OfGame, Indexes, ValidRule;
    if sortedDefinitions == [] {
      return Err(NoDefinitions);
    }
    EmptyIndexes();
    var catalog := Catalog(map[], map[]);
    for i := 0 to |sortedDefinitions|
      invariant Indexes(catalog, sortedDefinitions[..i])
      invariant !HasDuplicate(sortedDefinitions[..i])
    {
      ghost var seen := sortedDefinitions[..i];
      var definition := sortedDefinitions[i];
      var compositeKey := KeyOf(definition);
      KeyPresent(catalog, seen, compositeKey);
      if compositeKey in catalog.byCompositeKey {
        ghost var j :| 0 <= j < i && KeyOf(seen[j]) == compositeKey;
        assert sortedDefinitions[j] == seen[j];
        return Err(Duplicate(compositeKey));
      }
      var definitionsForGame := if definition.gameId in catalog.byGame then catalog.byGame[definition.gameId] else [];
      IndexesExtend(catalog, seen, definition);
      catalog := Catalog(
        catalog.byGame[definition.gameId := definitionsForGame + [definition]],
        catalog.byCompositeKey[compositeKey := definition]);
      assert sortedDefinitions[..i + 1] == seen + [definition];
    }
    assert sortedDefinitions[..|sortedDefinitions|] == sortedDefinitions;
    r := Ok(catalog);
  }

  lemma EmptyIndexes()
    ensures Indexes(Catalog(map[], map[]), [])
  {
  }

  lemma KeyPresent(c: Catalog, seen: seq<GameRule>, key: string)
    requires Indexes(c, seen)
    ensures key in c.byCompositeKey <==> exists j :: 0 <= j < |seen| && KeyOf(seen[j]) == key
  {
    hide KeyOf, OfGame, ValidRule;
    if key in c.byCompositeKey {
      var j :| 0 <= j < |seen| && seen[j] == c.byCompositeKey[key];
    }
  }

  /** Adding one definition under a new key keeps both indexes exact. */
  lemma IndexesExtend(c: Catalog, seen: seq<GameRule>, d: GameRule)
    requires Indexes(c, seen) && KeyOf(d) !in c.byCompositeKey
    ensures var before := if d.gameId in c.byGame then c.byGame[d.gameId] else [];
            Indexes(Catalog(c.byGame[d.gameId := before + [d]], c.byCompositeKey[KeyOf(d) := d]), seen + [d])
  {
    hide KeyOf, OfGame, ValidRule;
    var all := seen + [d];
    OtherGames(seen, d.gameId);
    forall g ensures OfGame(all, g) == OfGame(seen, g) + if d.gameId == g then [d] else [] {
      OfGameStep(seen, d, g);
    }
    assert forall e | e in all :: e in seen || e == d;
  }

  lemma OfGameStep(seen: seq<GameRule>, d: GameRule, gameId: string)
    ensures OfGame(seen + [d], gameId) == OfGame(seen, gameId) + if d.gameId == gameId then [d] else []
  {
    assert (seen + [d])[..|seen|] == seen;
  }

  lemma {:induction false} OtherGames(definitions: seq<GameRule>, gameId: string)
    ensures OfGame(definitions, gameId) == [] <==> forall d | d in definitions :: d.gameId != gameId
    ensures forall d | d in OfGame(definitions, gameId) :: d in definitions && d.gameId == gameId
  {
    hide ValidRule;
    if definitions != [] {
      var n := |definitions| - 1;
      OtherGames(definitions[..n], gameId);
      assert definitions == definitions[..n] + [definitions[n]];
    }
  }

  function GetRule(c: Catalog, gameId: string, ruleId: string, ruleVersion: string): Option<GameRule> {
    var key := CompositeKey(gameId, ruleId, ruleVersion);
    if key in c.byCompositeKey then Some(c.byCompositeKey[key]) else None
  }

  /** The head of the list sorted by descending version: the first of the highest ones. */
  function LatestOf(rules: seq<GameRule>): (r: GameRule)
    requires rules != []
    ensures r in rules
  {
    var last := rules[|rules| - 1];
    if |rules| == 1 then last else
    var best := LatestOf(rules[..|rules| - 1]);
    if CompareRules(last, best) > 0 then last else best
  }

  function CompareRules(left: GameRule, right: GameRule): int {
    CompareSemver(left.ruleVersion, right.ruleVersion)
  }

  lemma RulesAreOrdered(a: GameRule, b: GameRule, d: GameRule)
    ensures CompareRules(a, b) > 0 <==> Later(Version(a), Version(b))
    ensures Later(Version(a), Version(b)) ==> !Later(Version(b), Version(a))
    ensures !Later(Version(b), Version(d)) && Later(Version(a), Version(d)) ==> Later(Version(a), Version(b))
    ensures !Later(Version(a), Version(d)) && !Later(Version(d), Version(b)) ==> !Later(Version(a), Version(b))
  {
    hide ParseSemver;
  }

  function GetLatestRule(c: Catalog, gameId: string): Option<GameRule> {
    if gameId in c.byGame && c.byGame[gameId] != [] then Some(LatestOf(c.byGame[gameId])) else None
  }

  lemma {:induction false} LatestIsHighest(rules: seq<GameRule>)
    requires rules != []
    ensures forall r | r in rules :: !Later(Version(r), Version(LatestOf(rules)))
  {
    hide ValidRule, CompareRules, Version, Later;
    var n := |rules| - 1;
    if n > 0 {
      LatestIsHighest(rules[..n]);
      assert rules == rules[..n] + [rules[n]];
      var best := LatestOf(rules[..n]);
      assert LatestOf(rules) == if CompareRules(rules[n], best) > 0 then rules[n] else best;
      hide LatestOf;
      forall r | r in rules ensures !Later(Version(r), Version(LatestOf(rules))) {
        StillHighest(r, rules[n], best);
      }
    } else {
      forall r | r in rules ensures !Later(Version(r), Version(LatestOf(rules))) {
        StillHighest(r, rules[n], rules[n]);
      }
    }
  }

  lemma StillHighest(rule: GameRule, last: GameRule, best: GameRule)
    requires rule == last || !Later(Version(rule), Version(best))
    ensures !Later(Version(rule), Version(if CompareRules(last, best) > 0 then last else best))
  {
    hide ParseSemver;
  }

  /** Among rules of equal version the first one is the latest. */
  lemma {:induction false} LatestIsFirst(rules: seq<GameRule>) returns (k: nat)
    requires rules != []
    ensures k < |rules| && rules[k] == LatestOf(rules) && IsFirstHighest(rules, k)
  {
    hide ValidRule, CompareRules, Version, Later;
    var n := |rules| - 1;
    if n == 0 {
      k := 0;
    } else {
      k := LatestIsFirst(rules[..n]);
      var best, last := rules[k], rules[n];
      if CompareRules(last, best) > 0 {
        LatestIsHighest(rules[..n]);
        hide LatestOf;
        RulesAreOrdered(last, best, best);
        forall j | 0 <= j < n ensures Later(Version(last), Version(rules[j])) {
          assert rules[j] in rules[..n];
          RulesAreOrdered(last, rules[j], best);
        }
        k := n;
      }
    }
  }

  /** The rule at `k` has a later version than those before it. */
  ghost predicate IsFirstHighest(rules: seq<GameRule>, k: nat)
    requires k < |rules|
  {
    forall j | 0 <= j < k :: Later(Version(rules[k]), Version(rules[j]))
  }

  /** Looking up finds every rule that was loaded and nothing else. */
  lemma LookupsAreLoaded(c: Catalog, definitions: seq<GameRule>, gameId: string, ruleId: string, ruleVersion: string)
    requires Indexes(c, definitions)
    ensures forall d | d in definitions :: GetRule(c, d.gameId, d.ruleId, d.ruleVersion) == Some(d)
    ensures match GetRule(c, gameId, ruleId, ruleVersion)
      case None => forall d | d in definitions :: (d.gameId, d.ruleId, d.ruleVersion) != (gameId, ruleId, ruleVersion)
      case Some(rule) => rule in definitions
  {
    hide CompositeKey, OfGame, ValidRule;
  }

  /** The latest rule of a game is one of its loaded rules, with none of them later; a game without rules has none. */
  lemma {:induction false} LatestRuleOfGame(c: Catalog, definitions: seq<GameRule>, gameId: string)
    requires Indexes(c, definitions)
    ensures match GetLatestRule(c, gameId)
      case None => forall d | d in definitions :: d.gameId != gameId
      case Some(rule) =>
        && rule in definitions && rule.gameId == gameId
        && forall d | d in definitions && d.gameId == gameId :: !Later(Version(d), Version(rule))
  {
    hide KeyOf, OfGame, ValidRule, LatestOf, Later;
    OtherGames(definitions, gameId);
    OfGameComplete(definitions, gameId);
    if gameId in c.byGame {
      LatestIsHighest(c.byGame[gameId]);
    }
  }

  lemma {:induction false} OfGameComplete(definitions: seq<GameRule>, gameId: string)
    ensures forall d | d in definitions && d.gameId == gameId :: d in OfGame(definitions, gameId)
  {
    hide ValidRule;
    if definitions != [] {
      var n := |definitions| - 1;
      OfGameComplete(definitions[..n], gameId);
      assert definitions == definitions[..n] + [definitions[n]];
    }
  }

  // ------------------------------------------------- composite keys are unique

  predicate PlainIds(rule: GameRule) {
    ':' !in rule.gameId && ':' !in rule.ruleId
  }

  function Colons(s: string): nat {
    if s == "" then 0 else (if s[0] == ':' then 1 else 0) + Colons(s[1..])
  }

  lemma {:induction false} ColonsConcat(a: string, b: string)
    ensures Colons(a + b) == Colons(a) + Colons(b)
  {
    if a == "" {
      assert a + b == b;
    } else {
      assert (a + b)[1..] == a[1..] + b;
      ColonsConcat(a[1..], b);
    }
  }

  lemma {:induction false} ColonsZero(s: string)
    ensures Colons(s) == 0 <==> ':' !in s
  {
    if s != "" {
      assert s == [s[0]] + s[1..];
      ColonsZero(s[1..]);
    }
  }

  lemma KeyColons(a: string, b: string, c: string)
    ensures Colons(CompositeKey(a, b, c)) == Colons(a) + Colons(b) + Colons(c) + 2
  {
    ColonsConcat(a, ":");
    ColonsConcat(a + ":", b);
    ColonsConcat(a + ":" + b, ":");
    ColonsConcat(a + ":" + b + ":", c);
    assert Colons(":") == 1;
  }

  lemma DigitsHaveNoColon(s: string)
    requires AllDigits(s)
    ensures ':' !in s
  {
    forall k | 0 <= k < |s| ensures s[k] != ':' {
      assert IsDigit(s[k]);
    }
  }

  lemma SemverHasNoColon(text: string)
    requires IsSemver(text)
    ensures ':' !in text
  {
    SemverParts(text);
    hide *;
    var i := IndexOf(text, '.');
    var rest := text[i + 1..];
    var j := IndexOf(rest, '.');
    PartsHaveNoColon(rest, j);
    DigitsHaveNoColon(text[..i]);
    CutHasNoColon(text, i);
  }

  /** A version is three digit strings, separated by the first two dots. */
  lemma SemverParts(text: string)
    requires IsSemver(text)
    ensures var i := IndexOf(text, '.');
      && i >= 0 && text[i] == '.' && AllDigits(text[..i])
      && var rest := text[i + 1..];
      var j := IndexOf(rest, '.');
      j >= 0 && rest[j] == '.' && AllDigits(rest[..j]) && AllDigits(rest[j + 1..])
  {
    hide IndexOf, AllDigits, DigitsValue;
    IndexOfHit(text, '.');
    if IndexOf(text, '.') >= 0 {
      IndexOfHit(text[IndexOf(text, '.') + 1..], '.');
    }
  }

  lemma PartsHaveNoColon(text: string, i: nat)
    requires i < |text| && text[i] == '.' && AllDigits(text[..i]) && AllDigits(text[i + 1..])
    ensures ':' !in text
  {
    DigitsHaveNoColon(text[..i]);
    DigitsHaveNoColon(text[i + 1..]);
    hide AllDigits;
    CutHasNoColon(text, i);
  }

  lemma CutHasNoColon(text: string, i: nat)
    requires i < |text| && text[i] != ':' && ':' !in text[..i] && ':' !in text[i + 1..]
    ensures ':' !in text
  {
    assert text == text[..i] + [text[i]] + text[i + 1..];
  }

  lemma {:induction false} FirstColon(a: string, b: string, r: string, u: string)
    requires ':' !in a && ':' !in b && a + ":" + r == b + ":" + u
    ensures a == b && r == u
  {
    var x := a + ":" + r;
    assert x[..|a|] == a && x[..|b|] == b;
    IndexOfFirst(x, ':', |a|);
    IndexOfFirst(x, ':', |b|);
    assert r == x[|a| + 1..] && u == x[|b| + 1..];
  }

  lemma KeySplit(a: string, b: string, c: string)
    ensures CompositeKey(a, b, c) == a + ":" + (b + ":" + c)
  {
  }

  /** Looking up any three strings finds a rule with plain ids only under that rule's own ids and version. */
  lemma KeyIdentifiesRule(rule: GameRule, gameId: string, ruleId: string, ruleVersion: string)
    requires PlainIds(rule) && KeyOf(rule) == CompositeKey(gameId, ruleId, ruleVersion)
    ensures rule.gameId == gameId && rule.ruleId == ruleId && rule.ruleVersion == ruleVersion
  {
    KeyColons(rule.gameId, rule.ruleId, rule.ruleVersion);
    KeyColons(gameId, ruleId, ruleVersion);
    SemverHasNoColon(rule.ruleVersion);
    ColonsZero(rule.gameId);
    ColonsZero(rule.ruleId);
    ColonsZero(rule.ruleVersion);
    ColonsZero(gameId);
    ColonsZero(ruleId);
    ColonsZero(ruleVersion);
    KeySplit(rule.gameId, rule.ruleId, rule.ruleVersion);
    KeySplit(gameId, ruleId, ruleVersion);
    hide ParseSemver, Colons, CompositeKey;
    var p, q := rule.ruleId + ":" + rule.ruleVersion, ruleId + ":" + ruleVersion;
    FirstColon(rule.gameId, gameId, p, q);
    FirstColon(rule.ruleId, ruleId, rule.ruleVersion, ruleVersion);
  }

  /** A colon in an id can be read as a separator one place further on. */
  lemma ColonIdsCollide(rule: GameRule) returns (gameId: string, ruleId: string)
    requires !PlainIds(rule)
    ensures gameId != rule.gameId && CompositeKey(gameId, ruleId, rule.ruleVersion) == KeyOf(rule)
  {
    hide ValidRule;
    var g, r, v := rule.gameId, rule.ruleId, rule.ruleVersion;
    if ':' in g {
      var i :| 0 <= i < |g| && g[i] == ':';
      gameId, ruleId := g[..i], g[i + 1..] + ":" + r;
      assert g == g[..i] + ":" + g[i + 1..];
      SameKey(g[..i], g[i + 1..], r, v);
    } else {
      var i :| 0 <= i < |r| && r[i] == ':';
      gameId, ruleId := g + ":" + r[..i], r[i + 1..];
      assert r == r[..i] + ":" + r[i + 1..];
      SameKey(g, r[..i], r[i + 1..], v);
    }
  }

  lemma SameKey(a: string, b: string, c: string, v: string)
    ensures CompositeKey(a, b + ":" + c, v) == CompositeKey(a + ":" + b, c, v)
  {
    assert a + ":" + (b + ":" + c) == a + ":" + b + ":" + c;
  }

  /** A key belongs to one rule only exactly when the rule's ids are free of colons. */
  lemma {:induction false} KeyIsUniqueIffPlain(rule: GameRule)
    ensures PlainIds(rule) <==>
      forall gameId, ruleId, ruleVersion | CompositeKey(gameId, ruleId, ruleVersion) == KeyOf(rule) ::
        gameId == rule.gameId && ruleId == rule.ruleId && ruleVersion == rule.ruleVersion
  {
    hide CompositeKey;
    if PlainIds(rule) {
      forall gameId, ruleId, ruleVersion | CompositeKey(gameId, ruleId, ruleVersion) == KeyOf(rule)
        ensures gameId == rule.gameId && ruleId == rule.ruleId && ruleVersion == rule.ruleVersion
      {
        KeyIdentifiesRule(rule, gameId, ruleId, ruleVersion);
      }
    } else {
      var gameId, ruleId := ColonIdsCollide(rule);
    }
  }

  // ---------------------------------------------------------------- registry

  datatype Snapshot = Snapshot(gameId: string, ruleId: string, ruleVersion: string)

  datatype Action = PublishAction | RollbackAction

  datatype AuditEntry = AuditEntry(
    action: Action, actor: string, reason: Option<string>, at: string, from: Option<Snapshot>, to: Snapshot)

  /** The two Redis keys of every game: the active rule and the audit list. */
  datatype Store = Store(active: map<string, Snapshot>, audit: map<string, seq<AuditEntry>>)

  datatype PublishInput = PublishInput(
    gameId: string, ruleId: string, ruleVersion: string, actor: string, reason: Option<string>)

  datatype RollbackInput = RollbackInput(
    gameId: string, actor: string, reason: Option<string>, targetRuleId: string, targetRuleVersion: string)

  datatype RegistryError = NotFound | Incompatible(e: GateError) | NoActiveRule | NoTarget | InvalidSnapshot

  function ToSnapshot(rule: GameRule): Snapshot {
    Snapshot(rule.gameId, rule.ruleId, rule.ruleVersion)
  }

  function Lookup(c: Catalog, s: Snapshot): Option<GameRule> {
    GetRule(c, s.gameId, s.ruleId, s.ruleVersion)
  }

  function Entries(store: Store, gameId: string): seq<AuditEntry> {
    if gameId in store.audit then store.audit[gameId] else []
  }

  function ActiveRule(c: Catalog, store: Store, gameId: string): Option<GameRule> {
    if gameId in store.active then Lookup(c, store.active[gameId]) else GetLatestRule(c, gameId)
  }

  /** Set the active snapshot and append the audit entry. */
  function Record(store: Store, gameId: string, entry: AuditEntry): Store {
    Store(store.active[gameId := entry.to], store.audit[gameId := Entries(store, gameId) + [entry]])
  }

  function PublishEntry(c: Catalog, store: Store, input: PublishInput, at: string, lt: KeyOrder)
    : Result<AuditEntry, RegistryError>
  {
    var next := GetRule(c, input.gameId, input.ruleId, input.ruleVersion);
    if next.None? then Err(NotFound) else
    var current := ActiveRule(c, store, input.gameId);
    if current.Some? && Entries(store, input.gameId) != [] && AssertCompatible(current.value, next.value, lt).Err? then
      Err(Incompatible(AssertCompatible(current.value, next.value, lt).error))
    else
      Ok(AuditEntry(PublishAction, input.actor, input.reason, at,
                    if current.Some? then Some(ToSnapshot(current.value)) else None, ToSnapshot(next.value)))
  }

  /** The latest audit entry, among the first `n`, that names a loaded rule other than `current`. */
  function PreviousRule(c: Catalog, entries: seq<AuditEntry>, n: nat, current: Snapshot): Option<GameRule>
    requires n <= |entries|
  {
    if n == 0 then None else
    var candidate := entries[n - 1].to;
    if candidate != current && Lookup(c, candidate).Some? then Lookup(c, candidate)
    else PreviousRule(c, entries, n - 1, current)
  }

  function RollbackEntry(c: Catalog, store: Store, input: RollbackInput, at: string): Result<AuditEntry, RegistryError>
  {
    var current := ActiveRule(c, store, input.gameId);
    if current.None? then Err(NoActiveRule) else
    var from := ToSnapshot(current.value);
    var entries := Entries(store, input.gameId);
    var target :=
      if input.targetRuleId != "" && input.targetRuleVersion != "" then
        GetRule(c, input.gameId, input.targetRuleId, input.targetRuleVersion)
      else PreviousRule(c, entries, |entries|, from);
    if target.None? then Err(NoTarget)
    else Ok(AuditEntry(RollbackAction, input.actor, input.reason, at, Some(from), ToSnapshot(target.value)))
  }

  /** The game has a loaded active rule, or none yet and some rule to begin with. */
  predicate Startable(c: Catalog, active: map<string, Snapshot>, gameId: string) {
    if gameId in active then Lookup(c, active[gameId]).Some? else GetLatestRule(c, gameId).Some?
  }

  predicate StartableAll(c: Catalog, active: map<string, Snapshot>, games: seq<string>) {
    forall g | g in games :: Startable(c, active, g)
  }

  /** Of the games only those without an active rule have changed, to their latest one. */
  ghost predicate FilledIn(c: Catalog, before: map<string, Snapshot>, after: map<string, Snapshot>,
                           games: seq<string>)
  {
    && after.Keys == before.Keys + (set g | g in games)
    && forall g | g in after ::
         if g in before then after[g] == before[g]
         else GetLatestRule(c, g).Some? && after[g] == ToSnapshot(GetLatestRule(c, g).value)
  }

  /** One turn of the loop over the games, for a game that can be started. */
  lemma FillStep(c: Catalog, before: map<string, Snapshot>, after: map<string, Snapshot>, games: seq<string>, g: string)
    requires StartableAll(c, before, games) && FilledIn(c, before, after, games)
    ensures g in after && Lookup(c, after[g]).Some? && g in before ==> Startable(c, before, g)
    ensures g in after && g !in before ==> Startable(c, before, g)
    ensures g in after && Startable(c, before, g) ==> FilledIn(c, before, after, games + [g])
    ensures g !in after && GetLatestRule(c, g).Some? ==>
      FilledIn(c, before, after[g := ToSnapshot(GetLatestRule(c, g).value)], games + [g]) && Startable(c, before, g)
    ensures Startable(c, before, g) ==> StartableAll(c, before, games + [g])
    ensures g !in after ==> g !in before
    ensures g in after && Lookup(c, after[g]).None? && g in before ==> !Startable(c, before, g)
    ensures g !in after && GetLatestRule(c, g).None? ==> !Startable(c, before, g)
  {
    hide GetLatestRule, Lookup, ValidRule;
  }

  lemma NothingFilled(c: Catalog, before: map<string, Snapshot>)
    ensures StartableAll(c, before, []) && FilledIn(c, before, before, [])
  {
    hide GetLatestRule, Lookup, ValidRule;
  }

  /** A rule filled in by the loop is loaded, so an active rule that is not was there before. */
  lemma MissingWasActive(c: Catalog, before: map<string, Snapshot>, after: map<string, Snapshot>, games: seq<string>,
                         g: string)
    requires FilledIn(c, before, after, games) && g in after && Lookup(c, after[g]).None?
    requires forall k | k in c.byCompositeKey :: KeyOf(c.byCompositeKey[k]) == k
    requires forall h | h in c.byGame :: forall rule | rule in c.byGame[h] :: KeyOf(rule) in c.byCompositeKey
    ensures g in before
  {
    hide LatestOf, CompositeKey, KeyOf, GetLatestRule, Lookup, ValidRule;
    if g !in before {
      LatestIsListed(c, g);
    }
  }

  class Registry {
    const catalog: Catalog
    const collate: KeyOrder
    var active: map<string, Snapshot>
    var audit: map<string, seq<AuditEntry>>

    constructor (catalog: Catalog, collate: KeyOrder, active: map<string, Snapshot>,
                 audit: map<string, seq<AuditEntry>>)
      ensures this.catalog == catalog && this.collate == collate
      ensures State() == Store(active, audit)
    {
      this.catalog, this.collate, this.active, this.audit := catalog, collate, active, audit;
    }

    ghost function State(): Store
      reads this
    {
      Store(active, audit)
    }

    method GetActiveRuleDefinition(gameId: string) returns (rule: Option<GameRule>)
      ensures rule == ActiveRule(catalog, State(), gameId)
    {
      if gameId in active {
        return Lookup(catalog, active[gameId]);
      }
      return GetLatestRule(catalog, gameId);
    }

    method ListAuditEntries(gameId: string) returns (entries: seq<AuditEntry>)
      ensures entries == Entries(State(), gameId)
    {
      entries := if gameId in audit then audit[gameId] else [];
    }

    /**
     * Every game ends up with an active rule that is in the catalog; only missing ones are filled in. The first game
     * that cannot be started stops the loop: its active snapshot is not loaded, or it has none and no rule is loaded.
     */
    method Initialize(games: seq<string>) returns (r: Result<(), RegistryError>)
      modifies this`active
      requires forall k | k in catalog.byCompositeKey :: KeyOf(catalog.byCompositeKey[k]) == k
      requires forall g | g in catalog.byGame ::
        forall rule | rule in catalog.byGame[g] :: KeyOf(rule) in catalog.byCompositeKey
      ensures r.Ok? ==> forall g | g in games :: g in active && Lookup(catalog, active[g]).Some?
      ensures match r
        case Ok(_) => StartableAll(catalog, old(active), games) && FilledIn(catalog, old(active), active, games)
        case Err(e) => exists i | 0 <= i < |games| ::
          StartableAll(catalog, old(active), games[..i]) && !Startable(catalog, old(active), games[i])
          && e == (if games[i] in old(active) then InvalidSnapshot else NoActiveRule)
          && FilledIn(catalog, old(active), active, games[..i])
    {
      hide LatestOf, CompositeKey, KeyOf, GetLatestRule, Lookup, ValidRule, Startable, StartableAll, FilledIn;
      ghost var before := active;
      NothingFilled(catalog, before);
      for i := 0 to |games|
        invariant forall g | g in games[..i] :: g in active && Lookup(catalog, active[g]).Some?
        invariant StartableAll(catalog, before, games[..i])
        invariant FilledIn(catalog, before, active, games[..i])
      {
        assert games[..i + 1] == games[..i] + [games[i]];
        var gameId := games[i];
        FillStep(catalog, before, active, games[..i], gameId);
        if gameId !in active {
          var latest := GetLatestRule(catalog, gameId);
          if latest.None? {
            return Err(NoActiveRule);
          }
          LatestIsListed(catalog, gameId);
          active := active[gameId := ToSnapshot(latest.value)];
          continue;
        }
        var activeRule := Lookup(catalog, active[gameId]);
        if activeRule.None? {
          MissingWasActive(catalog, before, active, games[..i], gameId);
          return Err(InvalidSnapshot);
        }
      }
      assert games[..|games|] == games;
      r := Ok(());
    }

    method PublishRule(input: PublishInput, at: string) returns (r: Result<AuditEntry, RegistryError>)
      modifies this
      ensures r == PublishEntry(catalog, old(State()), input, at, collate)
      ensures State() == if r.Ok? then Record(old(State()), input.gameId, r.value) else old(State())
    {
      hide ValidRule, AssertCompatible, GetRule, ActiveRule, Lookup, Entries;
      var nextRule := GetRule(catalog, input.gameId, input.ruleId, input.ruleVersion);
      if nextRule.None? {
        return Err(NotFound);
      }
      var currentRule := GetActiveRuleDefinition(input.gameId);
      var auditEntries := ListAuditEntries(input.gameId);
      if currentRule.Some? && |auditEntries| > 0 {
        var gate := AssertCompatible(currentRule.value, nextRule.value, collate);
        if gate.Err? {
          return Err(Incompatible(gate.error));
        }
      }
      var nextSnapshot := ToSnapshot(nextRule.value);
      active := active[input.gameId := nextSnapshot];
      var from := if currentRule.Some? then Some(ToSnapshot(currentRule.value)) else None;
      var entry := AuditEntry(PublishAction, input.actor, input.reason, at, from, nextSnapshot);
      audit := audit[input.gameId := auditEntries + [entry]];
      r := Ok(entry);
    }

    method ResolvePreviousRule(gameId: string, current: Snapshot) returns (rule: Option<GameRule>)
      ensures rule == PreviousRule(catalog, Entries(State(), gameId), |Entries(State(), gameId)|, current)
    {
      hide ValidRule, Lookup, Entries;
      var entries := ListAuditEntries(gameId);
      var index := |entries| - 1;
      while index >= 0
        invariant -1 <= index < |entries|
        invariant PreviousRule(catalog, entries, |entries|, current)
          == PreviousRule(catalog, entries, index + 1, current)
      {
        var candidate := entries[index].to;
        if candidate != current {
          var resolved := Lookup(catalog, candidate);
          if resolved.Some? {
            return resolved;
          }
        }
        index := index - 1;
      }
      rule := None;
    }

    method RollbackRule(input: RollbackInput, at: string) returns (r: Result<AuditEntry, RegistryError>)
      modifies this
      ensures r == RollbackEntry(catalog, old(State()), input, at)
      ensures State() == if r.Ok? then Record(old(State()), input.gameId, r.value) else old(State())
    {
      hide ValidRule, GetRule, ActiveRule, Lookup, PreviousRule;
      var currentRule := GetActiveRuleDefinition(input.gameId);
      if currentRule.None? {
        return Err(NoActiveRule);
      }
      var currentSnapshot := ToSnapshot(currentRule.value);
      var targetRule: Option<GameRule>;
      if input.targetRuleId != "" && input.targetRuleVersion != "" {
        targetRule := GetRule(catalog, input.gameId, input.targetRuleId, input.targetRuleVersion);
      } else {
        targetRule := ResolvePreviousRule(input.gameId, currentSnapshot);
      }
      if targetRule.None? {
        return Err(NoTarget);
      }
      var targetSnapshot := ToSnapshot(targetRule.value);
      active := active[input.gameId := targetSnapshot];
      var entry := AuditEntry(RollbackAction, input.actor, input.reason, at, Some(currentSnapshot), targetSnapshot);
      var entries := ListAuditEntries(input.gameId);
      audit := audit[input.gameId := entries + [entry]];
      r := Ok(entry);
    }
  }

  lemma LatestIsListed(c: Catalog, gameId: string)
    requires GetLatestRule(c, gameId).Some?
    requires forall g | g in c.byGame :: forall rule | rule in c.byGame[g] :: KeyOf(rule) in c.byCompositeKey
    ensures Lookup(c, ToSnapshot(GetLatestRule(c, gameId).value)).Some?
  {
    hide LatestOf;
    assert GetLatestRule(c, gameId).value in c.byGame[gameId];
  }
}
