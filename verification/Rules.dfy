/** Rule definitions, their semantic versions, and the gate a new version has to pass. */
module Rules {
  import opened Text
  import opened Wrappers
  import opened StableJson

  // ---------------------------------------------------------------- versions

  datatype Semver = Semver(major: nat, minor: nat, patch: nat)

  /** `x.y.z`, each part a run of digits. */
  function ParseSemver(text: string): Option<Semver> {
    var i := IndexOf(text, '.');
    if i == -1 then None else
    var rest := text[i + 1..];
    var j := IndexOf(rest, '.');
    if j == -1 then None else
    if AllDigits(text[..i]) && AllDigits(rest[..j]) && AllDigits(rest[j + 1..]) then
      Some(Semver(DigitsValue(text[..i]), DigitsValue(rest[..j]), DigitsValue(rest[j + 1..])))
    else None
  }

  function CompareParts(left: Semver, right: Semver): int {
    if left.major != right.major then left.major - right.major
    else if left.minor != right.minor then left.minor - right.minor
    else left.patch - right.patch
  }

  predicate IsSemver(text: string) {
    ParseSemver(text).Some?
  }

  function CompareSemver(left: string, right: string): int
    requires IsSemver(left) && IsSemver(right)
  {
    CompareParts(ParseSemver(left).value, ParseSemver(right).value)
  }

  /** A version is three runs of digits with dots between them, and nothing else is one. */
  lemma {:induction false} SemverShape(text: string)
    ensures IsSemver(text) <==>
      exists a, b, c :: AllDigits(a) && AllDigits(b) && AllDigits(c) && text == a + "." + b + "." + c
  {
    if IsSemver(text) {
      var i := IndexOf(text, '.');
      var rest := text[i + 1..];
      var j := IndexOf(rest, '.');
      IndexOfHit(text, '.');
      IndexOfHit(rest, '.');
      hide AllDigits, IndexOf, DigitsValue;
      assert text == text[..i] + "." + rest[..j] + "." + rest[j + 1..];
    } else if a, b, c :| AllDigits(a) && AllDigits(b) && AllDigits(c) && text == a + "." + b + "." + c {
      ReadParts(text, a, b, c);
    }
  }

  /** Reading three runs of digits. */
  lemma ReadParts(text: string, a: string, b: string, c: string)
    requires AllDigits(a) && AllDigits(b) && AllDigits(c) && text == a + "." + b + "." + c
    ensures ParseSemver(text) == Some(Semver(DigitsValue(a), DigitsValue(b), DigitsValue(c)))
  {
    NoDot(a);
    NoDot(b);
    hide AllDigits, IndexOf, DigitsValue;
    assert text == a + "." + (b + "." + c);
    var rest := b + "." + c;
    assert text[..|a|] == a && text[|a| + 1..] == rest;
    assert rest[..|b|] == b && rest[|b| + 1..] == c;
    IndexOfFirst(text, '.', |a|);
    IndexOfFirst(rest, '.', |b|);
  }

  function SemverText(v: Semver): string {
    DigitsText(v.major) + "." + DigitsText(v.minor) + "." + DigitsText(v.patch)
  }

  /** Printing a version and parsing it gives the version back. */
  lemma SemverRoundTrip(v: Semver)
    ensures ParseSemver(SemverText(v)) == Some(v)
  {
    DigitsRoundTrip(v.major);
    DigitsRoundTrip(v.minor);
    DigitsRoundTrip(v.patch);
    ReadParts(SemverText(v), DigitsText(v.major), DigitsText(v.minor), DigitsText(v.patch));
    hide ParseSemver;
  }

  lemma NoDot(s: string)
    requires AllDigits(s)
    ensures '.' !in s
  {
  }

  /** `a` comes after `b`: by the major number, then by the minor number, then by the patch number. */
  ghost predicate Later(a: Semver, b: Semver) {
    || a.major > b.major
    || (a.major == b.major && a.minor > b.minor)
    || (a.major == b.major && a.minor == b.minor && a.patch > b.patch)
  }

  /** Precedence is the lexicographic order of the three numbers: a total order on version triples. */
  lemma {:induction false} SemverTotalOrder(a: Semver, b: Semver, c: Semver)
    ensures CompareParts(a, b) == 0 <==> a == b
    ensures CompareParts(a, b) < 0 <==> CompareParts(b, a) > 0
    ensures CompareParts(a, b) > 0 && CompareParts(b, c) > 0 ==> CompareParts(a, c) > 0
    ensures CompareParts(a, b) > 0 <==> Later(a, b)
  {
  }

  // ------------------------------------------------------------------- rules

  datatype Rule = Rule(
    gameId: string, ruleId: string, ruleVersion: string, turnLimit: nat,
    tools: Json, parameters: Json, termination: Json, redactionPolicy: Json)

  predicate ValidRule(r: Rule) {
    IsSemver(r.ruleVersion) && WellFormed(r.tools) && WellFormed(r.termination) && WellFormed(r.redactionPolicy)
  }

  /** A definition that has passed the schema. */
  type GameRule = r: Rule | ValidRule(r) ghost witness SampleRule()

  ghost function SampleRule(): (r: Rule)
    ensures ValidRule(r)
  {
    SemverRoundTrip(Semver(1, 0, 0));
    Rule("g", "r", SemverText(Semver(1, 0, 0)), 1, Null, Null, Null, Null)
  }

  function ContractOf(rule: GameRule): Json {
    Obj([
      Member("gameId", Str(rule.gameId)),
      Member("ruleId", Str(rule.ruleId)),
      Member("tools", rule.tools),
      Member("turnLimit", Num(DigitsText(rule.turnLimit))),
      Member("termination", rule.termination),
      Member("redactionPolicy", rule.redactionPolicy)])
  }

  function ContractFingerprint(rule: GameRule, lt: KeyOrder): string {
    StableSerialize(ContractOf(rule), lt)
  }

  function HasBreakingContractChange(previous: GameRule, next: GameRule, lt: KeyOrder): bool {
    ContractFingerprint(previous, lt) != ContractFingerprint(next, lt)
  }

  /** The six contract fields are equal as data. */
  ghost predicate SameContract(a: GameRule, b: GameRule) {
    && a.gameId == b.gameId && a.ruleId == b.ruleId && a.turnLimit == b.turnLimit
    && Same(a.tools, b.tools) && Same(a.termination, b.termination)
    && Same(a.redactionPolicy, b.redactionPolicy)
  }

  lemma ContractWellFormed(rule: GameRule)
    ensures WellFormed(ContractOf(rule))
  {
    TurnLimitIsNumber(rule.turnLimit);
    ContractParts(rule);
    KeyLengths();
    hide DigitsText, NumberText, ContractOf;
    var members := ContractOf(rule).members;
    assert WellFormed(members[3].value);
  }

  lemma TurnLimitIsNumber(n: nat)
    ensures NumberText(DigitsText(n))
  {
    var text := DigitsText(n);
    assert forall i | 0 <= i < |text| :: IsDigit(text[i]);
    assert IsDigit(text[0]);
  }

  lemma KeyLengths()
    ensures |"gameId"| == 6 && |"ruleId"| == 6 && "gameId"[0] != "ruleId"[0]
    ensures |"tools"| == 5 && |"turnLimit"| == 9 && |"termination"| == 11 && |"redactionPolicy"| == 15
  {
  }

  /** The values of the contract object, by position. */
  lemma ContractParts(rule: GameRule)
    ensures ContractOf(rule).Obj? && |ContractOf(rule).members| == 6
    ensures var m := ContractOf(rule).members;
      && m[0].value == Str(rule.gameId) && m[1].value == Str(rule.ruleId) && m[2].value == rule.tools
      && m[3].value == Num(DigitsText(rule.turnLimit)) && m[4].value == rule.termination
      && m[5].value == rule.redactionPolicy
    ensures var m := ContractOf(rule).members;
      && m[0].key == "gameId" && m[1].key == "ruleId" && m[2].key == "tools"
      && m[3].key == "turnLimit" && m[4].key == "termination" && m[5].key == "redactionPolicy"
  {
    hide DigitsText;
  }

  lemma ContractKeys(a: GameRule, b: GameRule)
    ensures var p, q := ContractOf(a), ContractOf(b);
      p.Obj? && q.Obj? && |p.members| == |q.members| == 6
      && DistinctKeys(q.members) && forall i | 0 <= i < 6 :: p.members[i].key == q.members[i].key
  {
    hide DigitsText, ContractOf, WellFormed, DistinctKeys;
    ContractParts(a);
    ContractParts(b);
    ContractWellFormed(b);
    WellFormedParts(ContractOf(b));
  }

  lemma SameText(s: string, t: string)
    ensures Same(Str(s), Str(t)) <==> s == t
    ensures Same(Num(s), Num(t)) <==> s == t
  {
  }

  lemma {:induction false} SameContracts(a: GameRule, b: GameRule)
    ensures Same(ContractOf(a), ContractOf(b)) <==> SameContract(a, b)
  {
    DigitsRoundTrip(a.turnLimit);
    DigitsRoundTrip(b.turnLimit);
    ContractParts(a);
    ContractParts(b);
    ContractKeys(a, b);
    hide DigitsText, DigitsValue, WellFormed, ContractOf, Same, DistinctKeys;
    var p, q := ContractOf(a).members, ContractOf(b).members;
    SamePointwise(p, q);
    SameText(a.gameId, b.gameId);
    SameText(a.ruleId, b.ruleId);
    SameText(DigitsText(a.turnLimit), DigitsText(b.turnLimit));
    if Same(ContractOf(a), ContractOf(b)) {
      assert Same(p[0].value, q[0].value) && Same(p[1].value, q[1].value) && Same(p[2].value, q[2].value);
      assert Same(p[3].value, q[3].value) && Same(p[4].value, q[4].value) && Same(p[5].value, q[5].value);
    }
  }

  /** The fingerprints differ exactly when some contract field differs as data. */
  lemma {:induction false} BreakingIffContractDiffers(previous: GameRule, next: GameRule, lt: KeyOrder)
    requires TotalOrder(lt)
    ensures HasBreakingContractChange(previous, next, lt) <==> !SameContract(previous, next)
  {
    hide StableSerialize, Same, SameContract, ContractOf;
    ContractWellFormed(previous);
    ContractWellFormed(next);
    SerializeDecidesSame(ContractOf(previous), ContractOf(next), lt);
    SameContracts(previous, next);
  }

  // -------------------------------------------------------- the version gate

  datatype GateError = DifferentRule | NotForward | BreakingWithoutMajor

  function AssertCompatible(previous: GameRule, next: GameRule, lt: KeyOrder): Result<(), GateError> {
    if previous.gameId != next.gameId || previous.ruleId != next.ruleId then Err(DifferentRule)
    else if CompareSemver(next.ruleVersion, previous.ruleVersion) <= 0 then Err(NotForward)
    else if !HasBreakingContractChange(previous, next, lt) then Ok(())
    else if ParseSemver(next.ruleVersion).value.major <= ParseSemver(previous.ruleVersion).value.major then
      Err(BreakingWithoutMajor)
    else Ok(())
  }

  function Version(rule: GameRule): Semver {
    ParseSemver(rule.ruleVersion).value
  }

  /** The gate opens exactly for a later version of the same rule whose contract is unchanged within a major version. */
  lemma {:induction false} GateMeaning(previous: GameRule, next: GameRule, lt: KeyOrder)
    requires TotalOrder(lt)
    ensures AssertCompatible(previous, next, lt).Ok? <==>
      && previous.gameId == next.gameId && previous.ruleId == next.ruleId
      && Later(Version(next), Version(previous))
      && (Version(next).major == Version(previous).major ==> SameContract(previous, next))
  {
    hide ParseSemver, SameContract, HasBreakingContractChange;
    BreakingIffContractDiffers(previous, next, lt);
    SemverTotalOrder(
      ParseSemver(next.ruleVersion).value, ParseSemver(previous.ruleVersion).value,
          ParseSemver(next.ruleVersion).value);
  }
}
