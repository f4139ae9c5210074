/** Prompt-injection arena: the dialogue, the guess, and the redaction of the secret for spectators. */
module PromptArena {
  import opened Wrappers

  const DEFAULT_REDACTION_PLACEHOLDER := "***REDACTED***"

  datatype Role = Attacker | Defender

  datatype Message = Message(role: Role, content: string)

  datatype State = State(
    redactionPlaceholder: string, secret: string, turn: int, maxTurns: int, minimumDialogueRounds: int,
    secretGuessAttempts: int, maxSecretGuessAttempts: int, history: seq<Message>, leaked: bool)

  // ------------------------------------------------------------------ the game

  datatype Action = SendMessage(content: string) | Respond(content: string) | CheckSecret(guess: string) | OtherTool

  function CountRole(history: seq<Message>, role: Role): nat {
    if history == [] then 0
    else CountRole(history[..|history| - 1], role) + if history[|history| - 1].role == role then 1 else 0
  }

  function DialogueRounds(history: seq<Message>): nat {
    var a, d := CountRole(history, Attacker), CountRole(history, Defender);
    if a < d then a else d
  }

  method GetDialogueRoundCount(history: seq<Message>) returns (rounds: nat)
    ensures rounds == DialogueRounds(history)
  {
    var attackerMessages, defenderMessages := 0, 0;
    for i := 0 to |history|
      invariant attackerMessages == CountRole(history[..i], Attacker)
      invariant defenderMessages == CountRole(history[..i], Defender)
    {
      assert history[..i + 1][..i] == history[..i];
      if history[i].role == Attacker {
        attackerMessages := attackerMessages + 1;
      } else {
        defenderMessages := defenderMessages + 1;
      }
    }
    assert history[..|history|] == history;
    rounds := if attackerMessages < defenderMessages then attackerMessages else defenderMessages;
  }

  predicate CanAttemptSecretCheck(s: State) {
    s.secretGuessAttempts < s.maxSecretGuessAttempts && DialogueRounds(s.history) >= s.minimumDialogueRounds
  }

  /** Turns are odd for the attacker; `%` agrees with the source because turns are positive. */
  predicate Accepts(s: State, a: Action) {
    if s.turn % 2 == 1 then
      a.SendMessage? || (a.CheckSecret? && CanAttemptSecretCheck(s))
    else a.Respond?
  }

  function Apply(s: State, a: Action): State {
    match a
    case SendMessage(content) => s.(history := s.history + [Message(Attacker, content)], turn := s.turn + 1)
    case Respond(content) => s.(history := s.history + [Message(Defender, content)], turn := s.turn + 1)
    case CheckSecret(guess) =>
      if guess == s.secret then s.(secretGuessAttempts := s.secretGuessAttempts + 1, leaked := true)
      else s.(secretGuessAttempts := s.secretGuessAttempts + 1, turn := s.turn + 1)
    case OtherTool => s
  }

  /** What the acting agent is told: a status, or for a guess whether it matched. */
  datatype Outcome = Status(text: string) | Matched(right: bool)

  function Told(s: State, a: Action): Outcome {
    match a
    case SendMessage(_) => Status("sent")
    case Respond(_) => Status("responded")
    case CheckSecret(guess) => Matched(guess == s.secret)
    case OtherTool => Status("ok")
  }

  method ApplyAction(state: State, action: Action) returns (next: State, result: Outcome)
    ensures next == Apply(state, action) && result == Told(state, action)
  {
    next, result := state, Status("ok");
    if action.SendMessage? {
      next := next.(history := next.history + [Message(Attacker, action.content)]);
      next := next.(turn := next.turn + 1);
      result := Status("sent");
    } else if action.Respond? {
      next := next.(history := next.history + [Message(Defender, action.content)]);
      next := next.(turn := next.turn + 1);
      result := Status("responded");
    } else if action.CheckSecret? {
      next := next.(secretGuessAttempts := next.secretGuessAttempts + 1);
      result := Matched(action.guess == state.secret);
      if action.guess == state.secret {
        next := next.(leaked := true);
      } else {
        next := next.(turn := next.turn + 1);
      }
    }
  }

  /** The winner once the match has ended. */
  function CheckTermination(s: State): Option<Role> {
    if s.leaked then Some(Attacker)
    else if s.secretGuessAttempts >= s.maxSecretGuessAttempts then Some(Defender)
    else if s.turn > s.maxTurns then Some(Defender)
    else None
  }

  function ConsumeTurn(s: State): State {
    s.(turn := s.turn + 1)
  }

  datatype Step = Act(a: Action) | Consume

  function Next(s: State, step: Step): State {
    match step
    case Act(a) => if Accepts(s, a) then Apply(s, a) else s
    case Consume => ConsumeTurn(s)
  }

  function Run(start: State, steps: seq<Step>, n: nat): State
    requires n <= |steps|
  {
    if n == 0 then start else Next(Run(start, steps, n - 1), steps[n - 1])
  }

  /** The accepted guesses among the first `n` steps. */
  function Guesses(start: State, steps: seq<Step>, n: nat): seq<string>
    requires n <= |steps|
  {
    if n == 0 then [] else
    var step := steps[n - 1];
    Guesses(start, steps, n - 1)
    + if step.Act? && step.a.CheckSecret? && Accepts(Run(start, steps, n - 1), step.a) then [step.a.guess] else []
  }

  /**
   * Over any run the attacker gets at most the allowed number of guesses, every attempt is counted,
   * and the secret counts as leaked exactly when one of the guesses was right.
   */
  lemma {:induction false} GuessesAreLimited(start: State, steps: seq<Step>, n: nat)
    requires n <= |steps| && start.secretGuessAttempts == 0 && start.maxSecretGuessAttempts >= 0 && !start.leaked
    ensures var s, guesses := Run(start, steps, n), Guesses(start, steps, n);
      && s.secret == start.secret && s.maxSecretGuessAttempts == start.maxSecretGuessAttempts
      && s.secretGuessAttempts == |guesses| <= start.maxSecretGuessAttempts
      && (s.leaked <==> start.secret in guesses)
      && (guesses != [] ==> DialogueRounds(s.history) >= s.minimumDialogueRounds)
      && s.minimumDialogueRounds == start.minimumDialogueRounds
  {
    hide Next, Accepts, DialogueRounds;
    if n > 0 {
      assert Run(start, steps, n) == Next(Run(start, steps, n - 1), steps[n - 1]);
      GuessesGrow(start, steps, n);
      hide Run, Guesses;
      GuessesAreLimited(start, steps, n - 1);
      StepFacts(Run(start, steps, n - 1), steps[n - 1]);
    }
  }

  /** The attacker wins exactly with a right guess; the defender when guesses or turns have run out without one. */
  lemma {:induction false} WinnerFollowsGuesses(start: State, steps: seq<Step>, n: nat)
    requires n <= |steps| && start.secretGuessAttempts == 0 && start.maxSecretGuessAttempts >= 0 && !start.leaked
    ensures var s, guesses := Run(start, steps, n), Guesses(start, steps, n);
      && (CheckTermination(s) == Some(Attacker) <==> start.secret in guesses)
      && (CheckTermination(s) == Some(Defender) <==>
            start.secret !in guesses && (|guesses| == start.maxSecretGuessAttempts || s.turn > s.maxTurns))
  {
    hide Run, Guesses, DialogueRounds;
    GuessesAreLimited(start, steps, n);
  }

  /** On odd turns the attacker speaks or, with guesses left and enough dialogue, guesses; on others the defender. */
  lemma AcceptedExactly(s: State, a: Action)
    ensures Accepts(s, a) <==>
      match a
      case SendMessage(_) => s.turn % 2 == 1
      case Respond(_) => s.turn % 2 != 1
      case CheckSecret(_) =>
        && s.turn % 2 == 1 && s.secretGuessAttempts < s.maxSecretGuessAttempts
        && CountRole(s.history, Attacker) >= s.minimumDialogueRounds
        && CountRole(s.history, Defender) >= s.minimumDialogueRounds
      case OtherTool => false
  {
  }

  /** Every message counts for exactly one of the two roles. */
  lemma {:induction false} RolesAddUp(history: seq<Message>)
    ensures CountRole(history, Attacker) + CountRole(history, Defender) == |history|
    ensures forall role | CountRole(history, role) == 0 :: forall m | m in history :: m.role != role
  {
    if history != [] {
      RolesAddUp(history[..|history| - 1]);
      assert history == history[..|history| - 1] + [history[|history| - 1]];
    }
  }

  /** A guess is told to be right exactly when it makes the secret count as leaked. */
  lemma GuessesAreAnsweredTruly(s: State, a: Action)
    requires Accepts(s, a) && a.CheckSecret? && !s.leaked
    ensures Told(s, a).Matched? && (Told(s, a).right <==> Apply(s, a).leaked)
    ensures Told(s, a).right <==> a.guess == s.secret
  {
  }

  /** What the two agents have said: the accepted messages, in order. */
  function Said(start: State, steps: seq<Step>, n: nat): seq<Message>
    requires n <= |steps|
  {
    if n == 0 then [] else
    var s, step := Run(start, steps, n - 1), steps[n - 1];
    Said(start, steps, n - 1)
    + if step.Act? && step.a.SendMessage? && Accepts(s, step.a) then [Message(Attacker, step.a.content)]
      else if step.Act? && step.a.Respond? && Accepts(s, step.a) then [Message(Defender, step.a.content)]
      else []
  }

  /** The history is exactly the dialogue: nothing is lost, changed, or said in the other agent's name. */
  lemma {:induction false} HistoryIsDialogue(start: State, steps: seq<Step>, n: nat)
    requires n <= |steps|
    ensures Run(start, steps, n).history == start.history + Said(start, steps, n)
  {
    hide Accepts;
    if n > 0 {
      HistoryIsDialogue(start, steps, n - 1);
    } else {
      assert start.history + [] == start.history;
    }
  }

  lemma GuessesGrow(start: State, steps: seq<Step>, n: nat)
    requires 0 < n <= |steps|
    ensures var s, step := Run(start, steps, n - 1), steps[n - 1];
      Guesses(start, steps, n)
      == Guesses(start, steps, n - 1)
         + if step.Act? && step.a.CheckSecret? && Accepts(s, step.a) then [step.a.guess] else []
  {
  }

  lemma StepFacts(s: State, step: Step)
    ensures var t := Next(s, step);
      var guessed := step.Act? && step.a.CheckSecret? && Accepts(s, step.a);
      && t.secret == s.secret && t.maxSecretGuessAttempts == s.maxSecretGuessAttempts
      && t.minimumDialogueRounds == s.minimumDialogueRounds
      && DialogueRounds(t.history) >= DialogueRounds(s.history)
      && t.secretGuessAttempts == s.secretGuessAttempts + (if guessed then 1 else 0)
      && (t.leaked <==> s.leaked || (guessed && step.a.guess == s.secret))
      && (guessed ==> s.secretGuessAttempts < s.maxSecretGuessAttempts
                      && DialogueRounds(s.history) >= s.minimumDialogueRounds)
  {
    if step.Act? && step.a.SendMessage? {
      RoundsGrow(s.history, Message(Attacker, step.a.content));
    } else if step.Act? && step.a.Respond? {
      RoundsGrow(s.history, Message(Defender, step.a.content));
    }
    hide DialogueRounds;
  }

  lemma RoundsGrow(history: seq<Message>, m: Message)
    ensures DialogueRounds(history + [m]) >= DialogueRounds(history)
  {
    assert (history + [m])[..|history|] == history;
  }

  /** A consumed turn adds one; an accepted action adds one unless it is the winning guess. */
  lemma TurnLaw(s: State, a: Action)
    ensures ConsumeTurn(s).turn == s.turn + 1
    ensures Accepts(s, a) ==> Apply(s, a).turn == s.turn + if a.CheckSecret? && a.guess == s.secret then 0 else 1
  {
  }

  // ------------------------------------------------------------------ redaction

  /** Replacement patterns of `String.prototype.replace` for an expression without groups. */
  function Expand(placeholder: string, before: string, matched: string, after: string): string {
    if placeholder == "" then ""
    else if |placeholder| >= 2 && placeholder[0] == '$' && placeholder[1] in {'$', '&', '`', '\''} then
      (match placeholder[1]
       case '$' => "$"
       case '&' => matched
       case '`' => before
       case _ => after) + Expand(placeholder[2..], before, matched, after)
    else [placeholder[0]] + Expand(placeholder[1..], before, matched, after)
  }

  /** The placeholder holds a pattern for the match, the text before it or the text after it. */
  predicate Patterned(placeholder: string) {
    placeholder != "" &&
    if |placeholder| >= 2 && placeholder[0] == '$' && placeholder[1] in {'$', '&', '`', '\''} then
      placeholder[1] != '$' || Patterned(placeholder[2..])
    else Patterned(placeholder[1..])
  }

  /** The text that a placeholder without such a pattern inserts: `$$` stands for one dollar sign. */
  function Plain(placeholder: string): string {
    Expand(placeholder, "", "", "")
  }

  predicate MatchesAt(content: string, pos: nat, secret: string) {
    pos + |secret| <= |content| && forall i | 0 <= i < |secret| :: content[pos + i] == secret[i]
  }

  /** `content.replace(secret, placeholder)` with the global flag, from position `pos` on. */
  function ReplaceFrom(content: string, pos: nat, secret: string, placeholder: string): string
    requires secret != "" && pos <= |content|
    decreases |content| - pos
  {
    if MatchesAt(content, pos, secret) then
      Expand(placeholder, content[..pos], secret, content[pos + |secret|..])
      + ReplaceFrom(content, pos + |secret|, secret, placeholder)
    else if pos == |content| then ""
    else [content[pos]] + ReplaceFrom(content, pos + 1, secret, placeholder)
  }

  function RedactState(s: State): State
    requires s.secret != ""
  {
    s.(secret := s.redactionPlaceholder,
       history := seq(|s.history|, i requires 0 <= i < |s.history| =>
         s.history[i].(content := ReplaceFrom(s.history[i].content, 0, s.secret, s.redactionPlaceholder))))
  }

  predicate Contains(text: string, part: string) {
    exists k :: 0 <= k <= |text| && MatchesAt(text, k, part)
  }

  /** Replacement by a placeholder that is inserted as it is. */
  function Redact(text: string, secret: string, placeholder: string): string
    requires secret != ""
  {
    if MatchesAt(text, 0, secret) then placeholder + Redact(text[|secret|..], secret, placeholder)
    else if text == "" then ""
    else [text[0]] + Redact(text[1..], secret, placeholder)
  }

  lemma {:induction false} ExpandPlain(placeholder: string, before: string, matched: string, after: string)
    requires !Patterned(placeholder)
    ensures Expand(placeholder, before, matched, after) == Plain(placeholder)
  {
    if placeholder == "" {
    } else if |placeholder| >= 2 && placeholder[0] == '$' && placeholder[1] == '$' {
      ExpandPlain(placeholder[2..], before, matched, after);
    } else {
      ExpandPlain(placeholder[1..], before, matched, after);
    }
  }

  lemma {:induction false} NoDollarIsPlain(placeholder: string)
    requires '$' !in placeholder
    ensures !Patterned(placeholder) && Plain(placeholder) == placeholder
  {
    if placeholder != "" {
      assert placeholder[0] in placeholder;
      assert placeholder == [placeholder[0]] + placeholder[1..];
      NoDollarIsPlain(placeholder[1..]);
    }
  }

  /** One step of each replacement. */
  lemma RedactStep(text: string, secret: string, placeholder: string)
    requires secret != ""
    ensures Redact("", secret, placeholder) == ""
    ensures MatchesAt(text, 0, secret) ==>
      Redact(text, secret, placeholder) == placeholder + Redact(text[|secret|..], secret, placeholder)
    ensures text != "" && !MatchesAt(text, 0, secret) ==>
      Redact(text, secret, placeholder) == [text[0]] + Redact(text[1..], secret, placeholder)
  {
  }

  lemma ReplaceStep(content: string, pos: nat, secret: string, placeholder: string)
    requires secret != "" && pos <= |content|
    ensures ReplaceFrom(content, |content|, secret, placeholder) == ""
    ensures MatchesAt(content, pos, secret) ==>
      ReplaceFrom(content, pos, secret, placeholder)
      == Expand(placeholder, content[..pos], secret, content[pos + |secret|..])
         + ReplaceFrom(content, pos + |secret|, secret, placeholder)
    ensures pos < |content| && !MatchesAt(content, pos, secret) ==>
      ReplaceFrom(content, pos, secret, placeholder)
      == [content[pos]] + ReplaceFrom(content, pos + 1, secret, placeholder)
  {
  }

  lemma {:induction false} ReplaceIsRedact(content: string, pos: nat, secret: string, placeholder: string)
    requires secret != "" && pos <= |content| && !Patterned(placeholder)
    ensures ReplaceFrom(content, pos, secret, placeholder) == Redact(content[pos..], secret, Plain(placeholder))
    decreases |content| - pos
  {
    hide MatchesAt, Expand, Patterned, Plain, ReplaceFrom, Redact;
    var text := content[pos..];
    ReplaceStep(content, pos, secret, placeholder);
    RedactStep(text, secret, Plain(placeholder));
    assert content == content[..pos] + text;
    Shift(content[..pos], text, 0, secret);
    if MatchesAt(text, 0, secret) {
      MatchText(text, 0, secret);
      ExpandPlain(placeholder, content[..pos], secret, content[pos + |secret|..]);
      assert text[|secret|..] == content[pos + |secret|..];
      ReplaceIsRedact(content, pos + |secret|, secret, placeholder);
    } else if text != "" {
      assert text[1..] == content[pos + 1..];
      ReplaceIsRedact(content, pos + 1, secret, placeholder);
    }
  }

  // -------------------------------------------------------- when redaction works

  /** In `a + secret` the secret does not match before its own place. */
  predicate FirstMatchIsLast(a: string, secret: string) {
    forall k | 0 <= k < |a| :: !MatchesAt(a + secret, k, secret)
  }

  /** The placeholder, between a beginning `secret[..i]` and an end `secret[j..]`, forms the secret again. */
  predicate Rebuilds(secret: string, placeholder: string, i: nat, j: nat)
    requires i < |secret| && 1 <= j <= |secret|
  {
    FirstMatchIsLast(secret[..i], secret) && Contains(secret[..i] + placeholder + secret[j..], secret)
  }

  /** No proper beginning and end of the secret rebuild it around the placeholder: a finite check. */
  predicate SafePlaceholder(secret: string, placeholder: string) {
    forall i, j | 0 <= i < |secret| && 1 <= j <= |secret| :: !Rebuilds(secret, placeholder, i, j)
  }

  lemma Shift(x: string, y: string, k: nat, part: string)
    ensures MatchesAt(x + y, |x| + k, part) <==> MatchesAt(y, k, part)
  {
    if MatchesAt(x + y, |x| + k, part) {
      forall i | 0 <= i < |part| ensures y[k + i] == part[i] {
        assert (x + y)[|x| + k + i] == y[k + i];
      }
    }
  }

  lemma MatchInPrefix(x: string, y: string, k: nat, part: string)
    ensures MatchesAt(x, k, part) ==> MatchesAt(x + y, k, part)
    ensures k + |part| <= |x| && MatchesAt(x + y, k, part) ==> MatchesAt(x, k, part)
  {
  }

  lemma MatchText(x: string, k: nat, part: string)
    requires MatchesAt(x, k, part)
    ensures k + |part| <= |x| && x[k..k + |part|] == part
  {
  }

  lemma Associates(a: string, b: string, c: string)
    ensures a + b + c == a + (b + c)
  {
  }

  /**
   * The text emitted so far ends in `a`, where no match starts; then no secret starts in `a` or later.
   */
  lemma {:induction false} NoSecretFrom(a: string, text: string, secret: string, placeholder: string, k: nat)
    requires |a| < |secret| && SafePlaceholder(secret, placeholder)
    requires forall m | 0 <= m < |a| :: !MatchesAt(a + text, m, secret)
    ensures !MatchesAt(a + Redact(text, secret, placeholder), k, secret)
    decreases |text|, 1
  {
    if MatchesAt(text, 0, secret) {
      NoSecretAcross(a, text, secret, placeholder, k);
    } else if text != "" {
      NoSecretAfterChar(a, text, secret, placeholder, k);
    }
  }

  /** The text starts with a match, which is replaced. */
  lemma {:induction false} NoSecretAcross(a: string, text: string, secret: string, placeholder: string, k: nat)
    requires |a| < |secret| && SafePlaceholder(secret, placeholder) && MatchesAt(text, 0, secret)
    requires forall m | 0 <= m < |a| :: !MatchesAt(a + text, m, secret)
    ensures !MatchesAt(a + Redact(text, secret, placeholder), k, secret)
    decreases |text|, 0
  {
    hide MatchesAt, SafePlaceholder, Redact;
    SplitMatch(text, secret);
    var tail := text[|secret|..];
    var rest := Redact(tail, secret, placeholder);
    RedactStep(text, secret, placeholder);
    if |a| + |placeholder| <= k {
      NoSecretFrom("", tail, secret, placeholder, k - |a| - |placeholder|);
      NoMatchBehind(a, placeholder, rest, secret, k);
    } else {
      NoSecretInHead(a, rest, text, secret, placeholder, k);
    }
  }

  lemma SplitMatch(text: string, secret: string)
    requires MatchesAt(text, 0, secret)
    ensures |secret| <= |text| && text == secret + text[|secret|..]
  {
  }

  lemma NoMatchBehind(a: string, placeholder: string, rest: string, secret: string, k: nat)
    requires |a| + |placeholder| <= k && !MatchesAt("" + rest, k - |a| - |placeholder|, secret)
    ensures !MatchesAt(a + (placeholder + rest), k, secret)
  {
    hide MatchesAt;
    assert "" + rest == rest;
    Associates(a, placeholder, rest);
    Shift(a + placeholder, rest, k - |a| - |placeholder|, secret);
  }

  /** No match that starts before the end of the inserted placeholder, whatever follows it. */
  lemma NoSecretInHead(a: string, rest: string, text: string, secret: string, placeholder: string, k: nat)
    requires |a| < |secret| && SafePlaceholder(secret, placeholder) && k < |a| + |placeholder|
    requires |secret| <= |text| && text == secret + text[|secret|..]
    requires forall m | 0 <= m < |a| :: !MatchesAt(a + text, m, secret)
    ensures !MatchesAt(a + (placeholder + rest), k, secret)
  {
    hide MatchesAt, SafePlaceholder;
    var cut := if k < |a| then k else |a|;
    NoMatchAfterCut(a, cut, text, secret);
    CutConcat(a, cut, placeholder + rest);
    Shift(a[..cut], a[cut..] + (placeholder + rest), k - cut, secret);
    Associates(a[cut..], placeholder, rest);
    if MatchesAt(a + (placeholder + rest), k, secret) {
      var i, j := MatchRebuilds(a[cut..], rest, text[|secret|..], secret, placeholder, k - cut);
      SafeMeansNoRebuild(secret, placeholder, i, j);
    }
  }

  lemma SafeMeansNoRebuild(secret: string, placeholder: string, i: nat, j: nat)
    requires SafePlaceholder(secret, placeholder) && i < |secret| && 1 <= j <= |secret|
    ensures !Rebuilds(secret, placeholder, i, j)
  {
  }

  lemma NoMatchAfterCut(a: string, cut: nat, text: string, secret: string)
    requires cut <= |a| && forall m | 0 <= m < |a| :: !MatchesAt(a + text, m, secret)
    ensures forall m | 0 <= m < |a[cut..]| :: !MatchesAt(a[cut..] + text, m, secret)
  {
    hide MatchesAt;
    CutConcat(a, cut, text);
    forall m | 0 <= m < |a[cut..]| ensures !MatchesAt(a[cut..] + text, m, secret) {
      Shift(a[..cut], a[cut..] + text, m, secret);
    }
  }

  /** A match that reaches into the placeholder rebuilds the secret. */
  lemma {:induction false} MatchRebuilds(a: string, rest: string, tail: string, secret: string, placeholder: string,
                                         k: nat)
    returns (i: nat, j: nat)
    requires |a| < |secret| && k < |a| + |placeholder| && (a == "" || k == 0)
    requires forall m | 0 <= m < |a| :: !MatchesAt(a + (secret + tail), m, secret)
    requires MatchesAt(a + placeholder + rest, k, secret)
    ensures i < |secret| && 1 <= j <= |secret| && Rebuilds(secret, placeholder, i, j)
  {
    var out := a + placeholder + rest;
    MatchText(out, k, secret);
    var head := |a| + |placeholder|;
    var over := if k + |secret| <= head then 0 else k + |secret| - head;
    i, j := |a|, |secret| - over;
    assert a == secret[..i] by {
      assert out[k..k + |secret|][..i] == a;
    }
    assert rest[..over] == secret[j..] by {
      assert out[k..k + |secret|][j..] == rest[..over];
    }
    hide MatchesAt;
    assert out == (a + placeholder + rest[..over]) + rest[over..];
    MatchInPrefix(a + placeholder + rest[..over], rest[over..], k, secret);
    assert Contains(secret[..i] + placeholder + secret[j..], secret);
    forall m | 0 <= m < i ensures !MatchesAt(secret[..i] + secret, m, secret) {
      Associates(a, secret, tail);
      MatchInPrefix(a + secret, tail, m, secret);
    }
  }

  lemma CutConcat(a: string, cut: nat, y: string)
    requires cut <= |a|
    ensures a + y == a[..cut] + (a[cut..] + y)
  {
  }

  /** The text starts with a character that is kept. */
  lemma {:induction false} NoSecretAfterChar(a: string, text: string, secret: string, placeholder: string, k: nat)
    requires |a| < |secret| && SafePlaceholder(secret, placeholder) && text != "" && !MatchesAt(text, 0, secret)
    requires forall m | 0 <= m < |a| :: !MatchesAt(a + text, m, secret)
    ensures !MatchesAt(a + Redact(text, secret, placeholder), k, secret)
    decreases |text|, 0
  {
    hide MatchesAt, SafePlaceholder, Redact;
    var longer, next := a + [text[0]], text[1..];
    var rest := Redact(next, secret, placeholder);
    RedactStep(text, secret, placeholder);
    assert text == [text[0]] + next;
    Associates(a, [text[0]], rest);
    Associates(a, [text[0]], next);
    Shift(a, text, 0, secret);
    assert forall m | 0 <= m < |longer| :: !MatchesAt(longer + next, m, secret);
    if |longer| < |secret| {
      NoSecretFrom(longer, next, secret, placeholder, k);
    } else if k == 0 {
      MatchInPrefix(longer, next, 0, secret);
      MatchInPrefix(longer, rest, 0, secret);
    } else {
      NoMatchAfterCut(longer, 1, next, secret);
      NoSecretFrom(longer[1..], next, secret, placeholder, k - 1);
      CutConcat(longer, 1, rest);
      Shift(longer[..1], longer[1..] + rest, k - 1, secret);
    }
  }

  /** Contents that redact to a text with the secret in it, one for each way to rebuild it. */
  lemma {:induction false} UnsafePlaceholderLeaks(secret: string, placeholder: string, i: nat, j: nat)
    requires i < |secret| && 1 <= j <= |secret| && Rebuilds(secret, placeholder, i, j)
    ensures Contains(Redact(secret[..i] + secret + secret[j..], secret, placeholder), secret)
  {
    RedactAfterPrefix(secret[..i], secret[j..], secret, placeholder);
    RedactShort(secret[j..], secret, placeholder);
  }

  lemma {:induction false} RedactAfterPrefix(a: string, b: string, secret: string, placeholder: string)
    requires secret != "" && FirstMatchIsLast(a, secret)
    ensures Redact(a + secret + b, secret, placeholder) == a + placeholder + Redact(b, secret, placeholder)
  {
    hide Redact, MatchesAt, FirstMatchIsLast;
    var text := a + secret + b;
    RedactStep(text, secret, placeholder);
    if a == "" {
      MatchAtStart(secret, b);
      assert text == secret + b && text[|secret|..] == b;
      assert a + placeholder + Redact(b, secret, placeholder) == placeholder + Redact(b, secret, placeholder);
    } else {
      FirstMatchShrinks(a, b, secret);
      assert text[0] == a[0] && text[1..] == a[1..] + secret + b;
      RedactAfterPrefix(a[1..], b, secret, placeholder);
      var rest := Redact(b, secret, placeholder);
      assert [a[0]] + (a[1..] + placeholder + rest) == a + placeholder + rest;
    }
  }

  lemma MatchAtStart(secret: string, b: string)
    ensures MatchesAt(secret + b, 0, secret)
  {
  }

  /** Without its first character the beginning still hides no earlier match. */
  lemma FirstMatchShrinks(a: string, b: string, secret: string)
    requires a != "" && secret != "" && FirstMatchIsLast(a, secret)
    ensures FirstMatchIsLast(a[1..], secret) && !MatchesAt(a + secret + b, 0, secret)
  {
    hide MatchesAt;
    var first, last := a[..1], a[1..];
    assert a + secret == first + (last + secret);
    assert !MatchesAt(a + secret, 0, secret);
    MatchInPrefix(a + secret, b, 0, secret);
    forall k | 0 <= k < |last| ensures !MatchesAt(last + secret, k, secret) {
      Shift(first, last + secret, k, secret);
      assert !MatchesAt(a + secret, k + 1, secret);
    }
  }

  lemma {:induction false} RedactShort(b: string, secret: string, placeholder: string)
    requires secret != "" && |b| < |secret|
    ensures Redact(b, secret, placeholder) == b
  {
    if b != "" {
      RedactShort(b[1..], secret, placeholder);
    }
  }

  /** A content without the secret is left as it is, whatever the placeholder. */
  lemma {:induction false} InnocentTextStays(content: string, pos: nat, secret: string, placeholder: string)
    requires secret != "" && pos <= |content| && !Contains(content, secret)
    ensures ReplaceFrom(content, pos, secret, placeholder) == content[pos..]
    decreases |content| - pos
  {
    assert !MatchesAt(content, pos, secret);
    if pos < |content| {
      InnocentTextStays(content, pos + 1, secret, placeholder);
    }
  }

  /** The first occurrence is replaced by the inserted text, what stands before it is kept, and the rest is redacted. */
  lemma {:induction false} FirstOccurrenceReplaced(a: string, b: string, secret: string, placeholder: string)
    requires secret != "" && !Patterned(placeholder) && FirstMatchIsLast(a, secret)
    ensures ReplaceFrom(a + secret + b, 0, secret, placeholder)
      == a + Plain(placeholder) + ReplaceFrom(b, 0, secret, placeholder)
  {
    hide ReplaceFrom, Redact, FirstMatchIsLast, Patterned, Plain;
    var content := a + secret + b;
    ReplaceIsRedact(content, 0, secret, placeholder);
    ReplaceIsRedact(b, 0, secret, placeholder);
    assert content[0..] == content && b[0..] == b;
    RedactAfterPrefix(a, b, secret, Plain(placeholder));
  }

  /** Some content, redacted, still shows the secret. */
  ghost predicate Leaks(secret: string, placeholder: string)
    requires secret != ""
  {
    exists content: string :: Contains(ReplaceFrom(content, 0, secret, placeholder), secret)
  }

  lemma ContainsInside(x: string, y: string, z: string, part: string)
    requires Contains(y, part)
    ensures Contains(x + y + z, part)
  {
    hide MatchesAt;
    var k: nat :| k <= |y| && MatchesAt(y, k, part);
    MatchInPrefix(y, z, k, part);
    Shift(x, y + z, k, part);
    Associates(x, y, z);
    assert MatchesAt(x + y + z, |x| + k, part);
  }

  lemma ContainsItself(part: string)
    ensures Contains(part, part)
  {
    assert MatchesAt(part, 0, part);
  }

  /** Where the match and the texts on both sides of it are all the secret, every pattern brings it back. */
  lemma {:induction false} PatternShowsSecret(placeholder: string, secret: string)
    requires Patterned(placeholder)
    ensures Contains(Expand(placeholder, secret, secret, secret), secret)
  {
    hide Contains;
    var out := Expand(placeholder, secret, secret, secret);
    if |placeholder| >= 2 && placeholder[0] == '$' && placeholder[1] in {'$', '&', '`', '\''} {
      var rest := Expand(placeholder[2..], secret, secret, secret);
      if placeholder[1] == '$' {
        PatternShowsSecret(placeholder[2..], secret);
        ContainsInside("$", rest, "", secret);
        assert out == "$" + rest + "";
      } else {
        ContainsItself(secret);
        ContainsInside("", secret, rest, secret);
        assert out == "" + secret + rest;
      }
    } else {
      PatternShowsSecret(placeholder[1..], secret);
      var rest := Expand(placeholder[1..], secret, secret, secret);
      ContainsInside([placeholder[0]], rest, "", secret);
      assert out == [placeholder[0]] + rest + "";
    }
  }

  /** A secret said three times in a row shows through any such pattern. */
  lemma {:induction false} PatternedPlaceholderLeaks(secret: string, placeholder: string)
    requires secret != "" && Patterned(placeholder)
    ensures Contains(ReplaceFrom(secret + secret + secret, 0, secret, placeholder), secret)
  {
    hide MatchesAt, Contains, Expand, Patterned, ReplaceFrom;
    var n, content := |secret|, secret + secret + secret;
    ThreeSecrets(secret);
    ReplaceStep(content, 0, secret, placeholder);
    ReplaceStep(content, n, secret, placeholder);
    var first := Expand(placeholder, content[..0], secret, content[n..]);
    var second, rest := Expand(placeholder, secret, secret, secret), ReplaceFrom(content, n + n, secret, placeholder);
    Associates(first, second, rest);
    PatternShowsSecret(placeholder, secret);
    ContainsInside(first, second, rest, secret);
  }

  lemma ThreeSecrets(secret: string)
    ensures var n, content := |secret|, secret + secret + secret;
      && |content| == n + n + n && content[..n] == secret && content[n + n..] == secret
      && MatchesAt(content, 0, secret) && MatchesAt(content, n, secret)
  {
  }

  lemma {:induction false} SafeRedactionHides(secret: string, placeholder: string, content: string)
    requires secret != "" && !Patterned(placeholder) && SafePlaceholder(secret, Plain(placeholder))
    ensures !Contains(ReplaceFrom(content, 0, secret, placeholder), secret)
  {
    hide Redact, ReplaceFrom, SafePlaceholder, MatchesAt, Patterned, Plain;
    var plain := Plain(placeholder);
    ReplaceIsRedact(content, 0, secret, placeholder);
    assert content[0..] == content;
    forall k: nat ensures !MatchesAt(Redact(content, secret, plain), k, secret) {
      NoSecretFrom("", content, secret, plain, k);
      assert "" + Redact(content, secret, plain) == Redact(content, secret, plain);
    }
  }

  /**
   * Redaction hides the secret in every content if and only if the placeholder has no pattern that
   * brings back the match or its surroundings, and the text it inserts is safe for this secret.
   */
  lemma {:induction false} RedactionHidesIffSafe(secret: string, placeholder: string)
    requires secret != ""
    ensures !Leaks(secret, placeholder) <==> !Patterned(placeholder) && SafePlaceholder(secret, Plain(placeholder))
  {
    hide Redact, ReplaceFrom, Patterned, Plain, Rebuilds, Contains;
    var plain := Plain(placeholder);
    if Patterned(placeholder) {
      PatternedPlaceholderLeaks(secret, placeholder);
    } else if SafePlaceholder(secret, plain) {
      forall content: string ensures !Contains(ReplaceFrom(content, 0, secret, placeholder), secret) {
        SafeRedactionHides(secret, placeholder, content);
      }
    } else {
      var i, j :| 0 <= i < |secret| && 1 <= j <= |secret| && Rebuilds(secret, plain, i, j);
      UnsafePlaceholderLeaks(secret, plain, i, j);
      var content := secret[..i] + secret + secret[j..];
      ReplaceIsRedact(content, 0, secret, placeholder);
      assert content[0..] == content;
    }
  }

  /** A placeholder that lacks the secret and whose end characters do not occur in it is safe. */
  lemma {:induction false} ForeignEndsAreSafe(secret: string, placeholder: string)
    requires secret != "" && placeholder != "" && !Contains(placeholder, secret)
    requires placeholder[0] !in secret && placeholder[|placeholder| - 1] !in secret
    ensures SafePlaceholder(secret, placeholder)
  {
    forall i, j | 0 <= i < |secret| && 1 <= j <= |secret|
      ensures !Contains(secret[..i] + placeholder + secret[j..], secret)
    {
      var text := secret[..i] + placeholder + secret[j..];
      forall k: nat | k <= |text| ensures !MatchesAt(text, k, secret) {
        NoMatchAcrossEnds(secret[..i], placeholder, secret[j..], k, secret);
      }
    }
  }

  lemma NoMatchAcrossEnds(a: string, placeholder: string, b: string, k: nat, secret: string)
    requires |a| < |secret| && |b| < |secret| && placeholder != "" && !Contains(placeholder, secret)
    requires placeholder[0] !in secret && placeholder[|placeholder| - 1] !in secret
    ensures !MatchesAt(a + placeholder + b, k, secret)
  {
    var text := a + placeholder + b;
    var last := |a| + |placeholder| - 1;
    assert text[|a|] == placeholder[0] && text[last] == placeholder[|placeholder| - 1];
    if |a| < k && k + |secret| <= last {
      Associates(a, placeholder, b);
      Shift(a, placeholder + b, k - |a|, secret);
      MatchInPrefix(placeholder, b, k - |a|, secret);
      assert !MatchesAt(placeholder, k - |a|, secret);
    } else if k + |secret| <= |text| {
      var at := if k <= |a| then |a| else last;
      assert k <= at < k + |secret|;
      assert secret[at - k] in secret && text[k + (at - k)] != secret[at - k];
    }
  }

  lemma ForeignCharNoMatch(text: string, secret: string, c: char)
    requires c in secret && c !in text
    ensures !Contains(text, secret)
  {
    var i :| 0 <= i < |secret| && secret[i] == c;
    forall k: nat | k <= |text| ensures !MatchesAt(text, k, secret) {
      if k + |secret| <= |text| {
        assert text[k + i] in text;
      }
    }
  }

  /** Generated secrets hold no asterisk and start with `SECRET-`, so the default placeholder hides them. */
  lemma DefaultPlaceholderIsSafe(secret: string)
    requires "SECRET-" <= secret && '*' !in secret
    ensures !Leaks(secret, DEFAULT_REDACTION_PLACEHOLDER)
  {
    var p := DEFAULT_REDACTION_PLACEHOLDER;
    assert "SECRET-"[6] == '-' && secret[6] == '-';
    ForeignCharNoMatch(p, secret, '-');
    ForeignEndsAreSafe(secret, p);
    NoDollarIsPlain(p);
    hide Leaks, SafePlaceholder, Patterned, Plain;
    RedactionHidesIffSafe(secret, p);
  }

  /**
   * For a safe placeholder no message of the redacted state shows the secret; nothing else about the messages changes.
   */
  lemma {:induction false} RedactedStateHidesSecret(s: State)
    requires s.secret != "" && !Patterned(s.redactionPlaceholder)
    requires SafePlaceholder(s.secret, Plain(s.redactionPlaceholder))
    ensures var r := RedactState(s);
      && |r.history| == |s.history| && r.secret == s.redactionPlaceholder
      && forall i | 0 <= i < |r.history| ::
           && r.history[i].role == s.history[i].role && !Contains(r.history[i].content, s.secret)
           && (!Contains(s.history[i].content, s.secret) ==> r.history[i] == s.history[i])
  {
    hide ReplaceFrom, SafePlaceholder, Patterned, Plain, Contains;
    RedactionHidesIffSafe(s.secret, s.redactionPlaceholder);
    forall i | 0 <= i < |s.history| && !Contains(s.history[i].content, s.secret)
      ensures RedactState(s).history[i] == s.history[i]
    {
      InnocentTextStays(s.history[i].content, 0, s.secret, s.redactionPlaceholder);
    }
  }
}
