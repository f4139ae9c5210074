/** Dilemma Poker: rounds of negotiation followed by one simultaneous choice of each agent. */
module DilemmaPoker {
  import opened Text
  import opened Wrappers

  datatype Agent = Agent1 | Agent2

  datatype Choice = Cooperate | Defect

  datatype Scoring = Scoring(cooperateCooperate: int, defectDefect: int, cooperateDefect: int, defectCooperate: int)

  datatype Config = Config(initialChips: int, maxRounds: int, messagesPerRound: int, scoring: Scoring)

  datatype Phase = Negotiation | ActionPhase

  datatype Note = Note(agent: Agent, message: string)

  datatype HistoryEntry = HistoryEntry(
    round: int, negotiations: seq<Note>, action1: Choice, action2: Choice, gain1: int, gain2: int)

  datatype State = State(
    config: Config, turn: int, round: int, phase: Phase, chips1: int, chips2: int,
    negotiations: seq<Note>, action1: Option<Choice>, action2: Option<Choice>, history: seq<HistoryEntry>)

  /** A choice that is neither of the two words is `None`. */
  datatype Action = GetStatus | Negotiate(message: string) | CommitAction(choice: Option<Choice>) | OtherTool

  /** `Math.max(1, ...)` on the number of messages. */
  function Initialize(config: Config): State {
    var messages := if config.messagesPerRound < 1 then 1 else config.messagesPerRound;
    State(config.(messagesPerRound := messages), 1, 1, Negotiation, config.initialChips, config.initialChips, [], None,
        None, [])
  }

  /** Whose turn it is, by the position of the turn within the round. */
  function AgentAt(messagesPerRound: int, turnInRound: int, round: int): Agent {
    var first, second := if round % 2 == 1 then Agent1 else Agent2, if round % 2 == 1 then Agent2 else Agent1;
    if turnInRound == 0 || turnInRound == 2 then first else second
  }

  /** Turns are at least one, so the remainder is the same as in the source. */
  function CurrentAgent(s: State): Agent
    requires s.config.messagesPerRound >= 1
  {
    var turnsPerRound := s.config.messagesPerRound + 2;
    AgentAt(s.config.messagesPerRound, (s.turn - 1) % turnsPerRound, s.round)
  }

  predicate Accepts(s: State, a: Action) {
    a.GetStatus? ||
    match s.phase
    case Negotiation => a.Negotiate? && Trim(a.message) != "" && |a.message| <= 500
    case ActionPhase => a.CommitAction? && a.choice.Some?
  }

  function Gains(scoring: Scoring, a1: Choice, a2: Choice): (int, int) {
    match (a1, a2)
    case (Cooperate, Cooperate) => (scoring.cooperateCooperate, scoring.cooperateCooperate)
    case (Defect, Defect) => (scoring.defectDefect, scoring.defectDefect)
    case (Cooperate, Defect) => (scoring.cooperateDefect, scoring.defectCooperate)
    case (Defect, Cooperate) => (scoring.defectCooperate, scoring.cooperateDefect)
  }

  function ResolveRound(s: State): State
    requires s.action1.Some? && s.action2.Some?
  {
    var gains := Gains(s.config.scoring, s.action1.value, s.action2.value);
    var entry := HistoryEntry(s.round, s.negotiations, s.action1.value, s.action2.value, gains.0, gains.1);
    s.(chips1 := s.chips1 + gains.0, chips2 := s.chips2 + gains.1, history := s.history + [entry],
       round := s.round + 1, phase := Negotiation, negotiations := [], action1 := None, action2 := None)
  }

  function Apply(s: State, a: Action): State
    requires s.config.messagesPerRound >= 1
  {
    match a
    case Negotiate(message) =>
      var negotiations := s.negotiations + [Note(CurrentAgent(s), message)];
      s.(negotiations := negotiations, turn := s.turn + 1,
         phase := if |negotiations| >= s.config.messagesPerRound then ActionPhase else s.phase)
    case CommitAction(choice) =>
      var committed := if CurrentAgent(s) == Agent1 then s.(action1 := choice, turn := s.turn + 1)
                       else s.(action2 := choice, turn := s.turn + 1);
      if committed.action1.Some? && committed.action2.Some? then ResolveRound(committed) else committed
    case _ => s
  }

  method ApplyAction(state: State, action: Action) returns (next: State)
    requires state.config.messagesPerRound >= 1
    ensures next == Apply(state, action)
  {
    next := state;
    var currentAgent := CurrentAgent(state);
    if action.GetStatus? {
      return;
    }
    if action.Negotiate? {
      next := next.(negotiations := next.negotiations + [Note(currentAgent, action.message)]);
      next := next.(turn := next.turn + 1);
      if |next.negotiations| >= next.config.messagesPerRound {
        next := next.(phase := ActionPhase);
      }
    } else if action.CommitAction? {
      if currentAgent == Agent1 {
        next := next.(action1 := action.choice);
      } else {
        next := next.(action2 := action.choice);
      }
      next := next.(turn := next.turn + 1);
      if next.action1.Some? && next.action2.Some? {
        next := ResolveRound(next);
      }
    }
  }

  predicate HasEnded(s: State) {
    s.round > s.config.maxRounds
  }

  /** Once the match has ended, its winner; equal chips have none. */
  function CheckTermination(s: State): Option<Option<Agent>> {
    if !HasEnded(s) then None
    else Some(if s.chips1 > s.chips2 then Some(Agent1) else if s.chips2 > s.chips1 then Some(Agent2) else None)
  }

  // ------------------------------------------------------------------------ runs

  datatype Step = Act(a: Action) | Consume

  function Next(s: State, step: Step): State
    requires s.config.messagesPerRound >= 1
  {
    match step
    case Act(a) => if Accepts(s, a) then Apply(s, a) else s
    case Consume => s.(turn := s.turn + 1)
  }

  function Run(config: Config, steps: seq<Step>, n: nat): (s: State)
    requires n <= |steps|
    ensures s.config.messagesPerRound >= 1
    ensures s.config == Initialize(config).config
  {
    if n == 0 then Initialize(config) else Next(Run(config, steps, n - 1), steps[n - 1])
  }

  // ----------------------------------------------------------------------- chips

  function TotalGain1(history: seq<HistoryEntry>): int {
    if history == [] then 0 else TotalGain1(history[..|history| - 1]) + history[|history| - 1].gain1
  }

  function TotalGain2(history: seq<HistoryEntry>): int {
    if history == [] then 0 else TotalGain2(history[..|history| - 1]) + history[|history| - 1].gain2
  }

  /** Equal choices pay both agents alike; a lone defector and a lone cooperator are paid by their own fields. */
  ghost predicate Scored(e: HistoryEntry, scoring: Scoring) {
    && (e.action1 == e.action2 == Cooperate ==> e.gain1 == e.gain2 == scoring.cooperateCooperate)
    && (e.action1 == e.action2 == Defect ==> e.gain1 == e.gain2 == scoring.defectDefect)
    && (e.action1 == Defect && e.action2 == Cooperate ==>
          e.gain1 == scoring.defectCooperate && e.gain2 == scoring.cooperateDefect)
    && (e.action1 == Cooperate && e.action2 == Defect ==>
          e.gain1 == scoring.cooperateDefect && e.gain2 == scoring.defectCooperate)
  }

  ghost predicate ChipsOk(s: State) {
    && s.chips1 == s.config.initialChips + TotalGain1(s.history)
    && s.chips2 == s.config.initialChips + TotalGain2(s.history)
    && |s.history| == s.round - 1
    && forall i | 0 <= i < |s.history| ::
         s.history[i].round == i + 1 && Scored(s.history[i], s.config.scoring)
  }

  lemma ResolveKeepsChips(s: State)
    requires ChipsOk(s) && s.action1.Some? && s.action2.Some?
    ensures ChipsOk(ResolveRound(s))
  {
    var r := ResolveRound(s);
    assert r.history[..|s.history|] == s.history;
  }

  lemma {:induction false} StepKeepsChips(s: State, step: Step)
    requires ChipsOk(s) && s.config.messagesPerRound >= 1
    ensures ChipsOk(Next(s, step))
  {
    hide ResolveRound, Trim, CurrentAgent;
    if step.Act? && step.a.CommitAction? && Accepts(s, step.a) {
      var committed := if CurrentAgent(s) == Agent1 then s.(action1 := step.a.choice, turn := s.turn + 1)
                       else s.(action2 := step.a.choice, turn := s.turn + 1);
      if committed.action1.Some? && committed.action2.Some? {
        ResolveKeepsChips(committed);
      }
    }
  }

  /**
   * Over any run, with or without consumed turns, chips are the initial ones plus the recorded gains of every round,
   * and these are what the choices of the round pay.
   */
  lemma {:induction false} ChipsAreAccounted(config: Config, steps: seq<Step>, n: nat)
    requires n <= |steps|
    ensures ChipsOk(Run(config, steps, n))
  {
    hide Next, Scored;
    if n > 0 {
      ChipsAreAccounted(config, steps, n - 1);
      StepKeepsChips(Run(config, steps, n - 1), steps[n - 1]);
    }
  }

  /** An ended match is won by the agent whose recorded changes add up to more, in every run. */
  lemma {:induction false} WinnerGainedMore(config: Config, steps: seq<Step>, n: nat)
    requires n <= |steps|
    ensures var s := Run(config, steps, n);
      match CheckTermination(s)
      case None => s.round <= s.config.maxRounds
      case Some(winner) =>
        && s.round > s.config.maxRounds
        && (winner == Some(Agent1) <==> TotalGain1(s.history) > TotalGain2(s.history))
        && (winner == Some(Agent2) <==> TotalGain2(s.history) > TotalGain1(s.history))
  {
    hide Run, TotalGain1, TotalGain2, Gains;
    ChipsAreAccounted(config, steps, n);
  }

  /** Visible messages of up to 500 characters while negotiating, one of the two choices afterwards, and asking. */
  lemma {:induction false} AcceptedExactly(s: State, a: Action)
    ensures Accepts(s, a) <==>
      match a
      case GetStatus => true
      case Negotiate(message) =>
        s.phase == Negotiation && (exists c :: c in message && !IsSpace(c)) && |message| <= 500
      case CommitAction(choice) => s.phase == ActionPhase && choice.Some?
      case OtherTool => false
  {
    if a.Negotiate? {
      BlankMeansAllSpace(a.message);
    }
    hide Trim, IsSpace;
  }

  function ActionOf(s: State, agent: Agent): Option<Choice> {
    if agent == Agent1 then s.action1 else s.action2
  }

  function ChoiceOf(e: HistoryEntry, agent: Agent): Choice {
    if agent == Agent1 then e.action1 else e.action2
  }

  function OtherAgent(agent: Agent): Agent {
    if agent == Agent1 then Agent2 else Agent1
  }

  /**
   * Messages and choices are kept under the agent to move; the second choice ends the round, which is recorded with its
   * messages and both choices.
   */
  lemma {:induction false} PlayIsRecorded(s: State, a: Action)
    requires s.config.messagesPerRound >= 1 && Accepts(s, a)
    ensures var t, mover := Apply(s, a), CurrentAgent(s);
      var other := OtherAgent(mover);
      match a
      case GetStatus => t == s
      case Negotiate(message) =>
        && t.negotiations == s.negotiations + [Note(mover, message)] && t.history == s.history && t.round == s.round
        && t.action1 == s.action1 && t.action2 == s.action2
      case CommitAction(choice) =>
        if ActionOf(s, other).None? then
          && ActionOf(t, mover) == choice && ActionOf(t, other).None?
          && t.history == s.history && t.negotiations == s.negotiations && t.round == s.round
        else
          && |t.history| == |s.history| + 1 && t.history[..|s.history|] == s.history
          && t.round == s.round + 1 && t.phase == Negotiation && t.negotiations == [] && t.action1 == t.action2 == None
          && var entry := t.history[|s.history|];
          && entry.round == s.round && entry.negotiations == s.negotiations
          && Some(ChoiceOf(entry, mover)) == choice && Some(ChoiceOf(entry, other)) == ActionOf(s, other)
          && t.chips1 == s.chips1 + entry.gain1 && t.chips2 == s.chips2 + entry.gain2
      case OtherTool => false
  {
    hide Trim, CurrentAgent, Gains;
  }

  /** Spectators: choices are blanked while the round is in its action phase. */
  function RedactState(s: State): State {
    if s.phase == ActionPhase then s.(action1 := None, action2 := None) else s
  }

  lemma {:induction false} NothingPendingWhileNegotiating(config: Config, steps: seq<Step>, n: nat)
    requires n <= |steps|
    ensures var s := Run(config, steps, n); s.phase == Negotiation ==> s.action1.None? && s.action2.None?
  {
    hide Trim, CurrentAgent, Gains;
    if n > 0 {
      NothingPendingWhileNegotiating(config, steps, n - 1);
    }
  }

  /** Over any run a spectator never sees a pending choice, and sees everything else. */
  lemma {:induction false} PendingChoicesAreHidden(config: Config, steps: seq<Step>, n: nat)
    requires n <= |steps|
    ensures var s := Run(config, steps, n); RedactState(s) == s.(action1 := None, action2 := None)
  {
    hide Run;
    NothingPendingWhileNegotiating(config, steps, n);
  }

  /**
   * For any number of messages, a consumed turn adds one to the turn and an action at most one: one unless it only
   * asks.
   */
  lemma TurnLaw(s: State, a: Action)
    requires s.config.messagesPerRound >= 1
    ensures Next(s, Consume).turn == s.turn + 1
    ensures Accepts(s, a) ==> Apply(s, a).turn == s.turn + if a.GetStatus? then 0 else 1
  {
    hide Trim, CurrentAgent, Gains;
  }

  // ------------------------------------------------------------- turn alignment

  function Commits(s: State): nat {
    (if s.action1.Some? then 1 else 0) + (if s.action2.Some? then 1 else 0)
  }

  /** The two turns that follow the messages belong to different agents exactly for at most two messages. */
  lemma ActionSlots(messagesPerRound: int, round: int)
    requires messagesPerRound >= 1
    ensures AgentAt(messagesPerRound, messagesPerRound, round) != AgentAt(messagesPerRound, messagesPerRound + 1, round)
       <==> messagesPerRound <= 2
  {
  }

  function CommittedBy(s: State, agent: Agent): bool {
    if agent == Agent1 then s.action1.Some? else s.action2.Some?
  }

  /** Turns, messages and commits of the current round line up. */
  ghost predicate Aligned(s: State) {
    var n := s.config.messagesPerRound;
    && 1 <= n <= 2 && s.round >= 1
    && s.turn - 1 == (n + 2) * (s.round - 1) + |s.negotiations| + Commits(s)
    && (match s.phase
        case Negotiation => |s.negotiations| < n && Commits(s) == 0
        case ActionPhase =>
          |s.negotiations| == n
          && (Commits(s) == 0 || (Commits(s) == 1 && CommittedBy(s, AgentAt(n, n, s.round)))))
  }

  lemma TurnInRound(turn: int, perRound: int, round: int, position: int)
    requires perRound > 0 && 0 <= position < perRound && turn - 1 == perRound * (round - 1) + position
    ensures (turn - 1) % perRound == position
  {
    RemainderOfMultiple(perRound, round - 1, position);
  }

  lemma RemainderOfMultiple(d: int, k: int, position: int)
    requires d > 0 && 0 <= position < d
    ensures (d * k + position) % d == position
  {
    var q, r := (d * k + position) / d, (d * k + position) % d;
    assert d * q + r == d * k + position;
    assert d * (q - k) == position - r;
    MultiplesAreFar(d, q - k);
  }

  lemma MultiplesAreFar(d: int, x: int)
    requires d > 0
    ensures x >= 1 ==> d * x >= d
    ensures x <= -1 ==> d * x <= -d
  {
    if x >= 1 {
      assert d * (x - 1) >= 0;
    } else if x <= -1 {
      assert d * (-x - 1) >= 0;
    }
  }

  /** The agent to move is the one who owns the current slot of the round. */
  lemma CurrentSlot(s: State)
    requires Aligned(s)
    ensures CurrentAgent(s) == AgentAt(s.config.messagesPerRound, |s.negotiations| + Commits(s), s.round)
  {
    TurnInRound(s.turn, s.config.messagesPerRound + 2, s.round, |s.negotiations| + Commits(s));
  }

  /** Every accepted action but a status query takes exactly one turn and keeps the alignment. */
  lemma {:induction false} ActionKeepsAlignment(s: State, a: Action)
    requires Aligned(s) && Accepts(s, a)
    ensures Aligned(Apply(s, a))
    ensures Apply(s, a).turn == s.turn + if a.GetStatus? then 0 else 1
    ensures a.CommitAction? ==> !CommittedBy(s, CurrentAgent(s))
  {
    CurrentSlot(s);
    ActionSlots(s.config.messagesPerRound, s.round);
    hide Trim, CurrentAgent, Gains;
  }

  /**
   * Who moves in a round without consumed turns: the first agent starts odd rounds and the second even ones, and they
   * alternate through the messages and the two choices.
   */
  lemma {:induction false} AgentsAlternate(config: Config, steps: seq<Step>, n: nat)
    requires n <= |steps| && NoConsumedTurns(steps) && config.messagesPerRound <= 2
    ensures var s := Run(config, steps, n);
      var starter := if s.round % 2 == 1 then Agent1 else Agent2;
      CurrentAgent(s) == if (|s.negotiations| + Commits(s)) % 2 == 0 then starter else OtherAgent(starter)
  {
    hide Run;
    RunStaysAligned(config, steps, n);
    CurrentSlot(Run(config, steps, n));
  }

  /** The accepted actions among the first `n` steps, status queries aside. */
  function Played(config: Config, steps: seq<Step>, n: nat): nat
    requires n <= |steps|
  {
    if n == 0 then 0 else
    var step := steps[n - 1];
    Played(config, steps, n - 1)
    + if step.Act? && Accepts(Run(config, steps, n - 1), step.a) && !step.a.GetStatus? then 1 else 0
  }

  ghost predicate NoConsumedTurns(steps: seq<Step>) {
    forall i | 0 <= i < |steps| :: steps[i].Act?
  }

  lemma {:induction false} RunStaysAligned(config: Config, steps: seq<Step>, n: nat)
    requires n <= |steps| && NoConsumedTurns(steps) && config.messagesPerRound <= 2
    ensures Aligned(Run(config, steps, n)) && Run(config, steps, n).turn == 1 + Played(config, steps, n)
  {
    hide Accepts, Apply, Aligned;
    if n == 0 {
      InitiallyAligned(config);
    } else {
      RunStaysAligned(config, steps, n - 1);
      var s, step := Run(config, steps, n - 1), steps[n - 1];
      if Accepts(s, step.a) {
        ActionKeepsAlignment(s, step.a);
      }
    }
  }

  lemma InitiallyAligned(config: Config)
    requires config.messagesPerRound <= 2
    ensures Aligned(Initialize(config))
  {
  }

  /**
   * With one or two messages per round and no consumed turns a match first ends after exactly
   * (messages + 2) * rounds accepted actions.
   */
  lemma {:induction false} MatchLength(config: Config, steps: seq<Step>, n: nat)
    requires n <= |steps| && NoConsumedTurns(steps) && config.messagesPerRound <= 2
    ensures var perRound := Initialize(config).config.messagesPerRound + 2;
      HasEnded(Run(config, steps, n)) <==>
          config.maxRounds <= 0 || Played(config, steps, n) >= perRound * config.maxRounds
  {
    RunStaysAligned(config, steps, n);
    var s := Run(config, steps, n);
    var perRound := s.config.messagesPerRound + 2;
    assert 0 <= s.turn - 1 - perRound * (s.round - 1) < perRound;
    hide Run, Played;
    Multiples(perRound, s.round - 1, config.maxRounds, s.turn - 1);
  }

  lemma Multiples(d: int, k: int, m: int, total: int)
    requires d > 0 && 0 <= total - d * k < d && k >= 0
    ensures k >= m <==> m <= 0 || total >= d * m
  {
    if k >= m {
      assert d * k >= d * m;
    } else {
      assert d * m >= d * (k + 1);
      assert d * (k + 1) == d * k + d;
    }
  }

  // ----------------------------------------------------- for how many messages this works

  /** In no run without consumed turns does an agent commit who has committed in this round already. */
  ghost predicate NobodyCommitsTwice(config: Config) {
    forall steps: seq<Step>, i: nat | i < |steps| && NoConsumedTurns(steps) && CommitsAt(config, steps, i) ::
      !CommittedBy(Run(config, steps, i), CurrentAgent(Run(config, steps, i)))
  }

  ghost predicate CommitsAt(config: Config, steps: seq<Step>, i: nat)
    requires i < |steps|
  {
    steps[i].Act? && steps[i].a.CommitAction? && Accepts(Run(config, steps, i), steps[i].a)
  }

  /** The messages of the first round, and two commits. */
  function FirstRound(messages: nat, first: Choice, second: Choice): (steps: seq<Step>)
    ensures |steps| == messages + 2
    ensures forall i | 0 <= i < messages :: steps[i] == Act(Negotiate("a"))
    ensures steps[messages] == Act(CommitAction(Some(first))) && steps[messages + 1] == Act(CommitAction(Some(second)))
    ensures NoConsumedTurns(steps)
  {
    seq(messages, _ => Act(Negotiate("a"))) + [Act(CommitAction(Some(first))), Act(CommitAction(Some(second)))]
  }

  /** After `k` of the messages. */
  lemma {:induction false} MessagesArePlayed(config: Config, first: Choice, second: Choice, k: nat)
    requires config.messagesPerRound >= 3 && k <= config.messagesPerRound
    ensures var s := Run(config, FirstRound(config.messagesPerRound, first, second), k);
      && s.round == 1 && s.turn == k + 1 && |s.negotiations| == k && Commits(s) == 0
      && s.phase == if k < config.messagesPerRound then Negotiation else ActionPhase
  {
    hide FirstRound, CurrentAgent, Trim;
    if k > 0 {
      MessagesArePlayed(config, first, second, k - 1);
      ShortMessage();
    }
  }

  lemma ShortMessage()
    ensures Trim("a") != "" && |"a"| <= 500
  {
    assert Trim("a") == "a";
  }

  /**
   * With three or more messages the agent who moves second owns both action turns of the first round: both commits are
   * accepted from that agent, and the round stays open.
   */
  lemma {:induction false} ThreeMessagesMisalign(config: Config, first: Choice, second: Choice)
    requires config.messagesPerRound >= 3
    ensures var n, steps := config.messagesPerRound, FirstRound(config.messagesPerRound, first, second);
      var s, t, u := Run(config, steps, n), Run(config, steps, n + 1), Run(config, steps, n + 2);
      && CommitsAt(config, steps, n) && CommitsAt(config, steps, n + 1)
      && CurrentAgent(s) == CurrentAgent(t) == Agent2 && CommittedBy(t, Agent2)
      && u.round == 1 && Commits(u) == 1 && u.action2 == Some(second)
  {
    hide FirstRound, Trim;
    var n := config.messagesPerRound;
    MessagesArePlayed(config, first, second, n);
    TurnInRound(n + 1, n + 2, 1, n);
    TurnInRound(n + 2, n + 2, 1, n + 1);
  }

  /** Nobody commits twice in a round, in any run without consumed turns: exactly for up to two messages. */
  lemma {:induction false} CommitsAreFairIffFewMessages(config: Config)
    ensures NobodyCommitsTwice(config) <==> config.messagesPerRound <= 2
  {
    hide Run, CurrentAgent, CommittedBy, FirstRound, Accepts, Aligned;
    if config.messagesPerRound <= 2 {
      forall steps: seq<Step>, i: nat | i < |steps| && NoConsumedTurns(steps) && CommitsAt(config, steps, i)
        ensures !CommittedBy(Run(config, steps, i), CurrentAgent(Run(config, steps, i)))
      {
        RunStaysAligned(config, steps, i);
        ActionKeepsAlignment(Run(config, steps, i), steps[i].a);
      }
    } else {
      var n := config.messagesPerRound;
      ThreeMessagesMisalign(config, Cooperate, Defect);
      assert CommitsAt(config, FirstRound(n, Cooperate, Defect), n + 1);
    }
  }
}
