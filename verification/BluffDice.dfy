/** Bluff Dice: secret bets, rising bids and a call, over a fixed number of rounds. */
module BluffDice {
  import opened Wrappers

  const MAX_BID_COUNT := 10
  const AGENT_1 := "agent-1"
  const AGENT_2 := "agent-2"

  // -------------------------------------------------------------------- state

  datatype Config = Config(
    initialChips: int, maxRounds: int, diceCount: nat, maxBetPerRound: int, turnLimit: int, seed: int)

  datatype Player = Player(agentId: string, chips: int, dice: seq<int>, bet: int, betPlaced: bool)

  datatype Bid = Bid(count: int, face: int, bidder: string)

  datatype RoundResult = RoundResult(
    round: int, bid: Bid, callBluffBy: string, winner: string, loser: string, potSize: int, actualCount: nat,
    revealed0: seq<int>, revealed1: seq<int>)

  datatype Phase = Betting | Bidding | Finished

  datatype Termination = Termination(ended: bool, winner: Option<string>)

  datatype State = State(
    config: Config, round: int, turn: int, phase: Phase, p0: Player, p1: Player,
    activeBidder: Option<string>, firstBidder: string, lastBidder: Option<string>, currentBid: Option<Bid>,
    pot: int, roundHistory: seq<RoundResult>, gameOver: bool, terminationResult: Option<Termination>)

  /** `rollDice(seed, round, player, count)`, as a parameter. */
  type Roll = (int, int, int, nat) -> seq<int>

  predicate IsAgent(id: string) {
    id == AGENT_1 || id == AGENT_2
  }

  function Other(id: string): string {
    if id == AGENT_1 then AGENT_2 else AGENT_1
  }

  function PlayerOf(s: State, id: string): Player {
    if id == AGENT_1 then s.p0 else s.p1
  }

  function Initialize(config: Config): State {
    State(config, 1, 1, Betting,
          Player(AGENT_1, config.initialChips, [], 0, false), Player(AGENT_2, config.initialChips, [], 0, false),
          None, AGENT_1, None, None, 0, [], false, None)
  }

  // ------------------------------------------------------------------ actions

  /** An argument that is not an integer is `None`. */
  datatype Action =
    | GetState
    | PlaceBet(actor: Option<string>, amount: Option<int>)
    | MakeBid(actor: Option<string>, count: Option<int>, face: Option<int>)
    | CallBluff(actor: Option<string>)
    | Unknown(tool: string)

  datatype Refusal =
    | WrongPhase | UnknownActor | AlreadyBet | NotAnInteger | OutOfRange(max: int)
    | NotYourTurn | BadBid | NotHigher | NothingToCall | OwnBid | UnknownTool

  function Min(a: int, b: int): int {
    if a < b then a else b
  }

  predicate IsBidHigher(current: Bid, count: int, face: int) {
    count > current.count || (count == current.count && face > current.face)
  }

  function Validate(s: State, a: Action): Option<Refusal> {
    match a
    case GetState => None
    case PlaceBet(actor, amount) =>
      if s.phase != Betting then Some(WrongPhase)
      else if actor.None? || !IsAgent(actor.value) then Some(UnknownActor)
      else
        var player := PlayerOf(s, actor.value);
        if player.betPlaced then Some(AlreadyBet)
        else if amount.None? then Some(NotAnInteger)
        else
          var maxBet := Min(player.chips, s.config.maxBetPerRound);
          if amount.value < 1 || amount.value > maxBet then Some(OutOfRange(maxBet)) else None
    case MakeBid(actor, count, face) =>
      if s.phase != Bidding then Some(WrongPhase)
      else if actor.None? || s.activeBidder != actor then Some(NotYourTurn)
      else if count.None? || count.value < 1 || count.value > MAX_BID_COUNT
           || face.None? || face.value < 1 || face.value > 6 then Some(BadBid)
      else if s.currentBid.Some? && !IsBidHigher(s.currentBid.value, count.value, face.value) then Some(NotHigher)
      else None
    case CallBluff(actor) =>
      if s.phase != Bidding then Some(WrongPhase)
      else if actor.None? || s.activeBidder != actor then Some(NotYourTurn)
      else if s.currentBid.None? then Some(NothingToCall)
      else if s.lastBidder == actor then Some(OwnBid)
      else None
    case Unknown(_) => Some(UnknownTool)
  }

  predicate Accepts(s: State, a: Action) {
    Validate(s, a).None?
  }

  // -------------------------------------------------------------- transitions

  function ApplyPlaceBet(s: State, agentId: string, amount: int, roll: Roll): State {
    var updated := PlayerOf(s, agentId).(bet := amount, betPlaced := true);
    var p0 := if agentId == AGENT_1 then updated else s.p0;
    var p1 := if agentId == AGENT_1 then s.p1 else updated;
    if !(p0.betPlaced && p1.betPlaced) then s.(p0 := p0, p1 := p1, turn := s.turn + 1)
    else
      s.(p0 := p0.(dice := roll(s.config.seed, s.round, 0, s.config.diceCount)),
         p1 := p1.(dice := roll(s.config.seed, s.round, 1, s.config.diceCount)),
         phase := Bidding, activeBidder := Some(s.firstBidder), pot := p0.bet + p1.bet, turn := s.turn + 1)
  }

  function ApplyMakeBid(s: State, agentId: string, count: int, face: int): State {
    s.(currentBid := Some(Bid(count, face, agentId)), lastBidder := Some(agentId),
       activeBidder := Some(Other(agentId)), turn := s.turn + 1)
  }

  function CountFace(dice: seq<int>, face: int): nat {
    if dice == [] then 0 else (if dice[0] == face then 1 else 0) + CountFace(dice[1..], face)
  }

  function Clip(n: int): int {
    if n < 0 then 0 else n
  }

  function ComputeTermination(p0: Player, p1: Player): Termination {
    if p0.chips == p1.chips then Termination(true, None)
    else Termination(true, Some(if p0.chips > p1.chips then AGENT_1 else AGENT_2))
  }

  function ResolveBluff(s: State, challenger: string): State
    requires s.currentBid.Some?
  {
    var bid := s.currentBid.value;
    var actualCount := CountFace(s.p0.dice + s.p1.dice, bid.face);
    var bidWasTrue := actualCount >= bid.count;
    var winner := if bidWasTrue then bid.bidder else challenger;
    var loser := if bidWasTrue then challenger else bid.bidder;
    var settled0 := s.p0.(chips := Clip(s.p0.chips - s.p0.bet));
    var settled1 := s.p1.(chips := Clip(s.p1.chips - s.p1.bet));
    var p0 := if winner == AGENT_1 then settled0.(chips := settled0.chips + s.pot) else settled0;
    var p1 := if winner == AGENT_1 then settled1 else settled1.(chips := settled1.chips + s.pot);
    var loserHitZero := (if winner == AGENT_1 then p1 else p0).chips == 0;
    var result := RoundResult(s.round, bid, challenger, winner, loser, s.pot, actualCount, s.p0.dice, s.p1.dice);
    var resolved := s.(p0 := p0, p1 := p1, roundHistory := s.roundHistory + [result], turn := s.turn + 1);
    if s.round >= s.config.maxRounds || loserHitZero then
      resolved.(phase := Finished, gameOver := true, terminationResult := Some(ComputeTermination(p0, p1)),
                currentBid := None, activeBidder := None, lastBidder := None)
    else StartNewRound(resolved)
  }

  function StartNewRound(s: State): State {
    var round := s.round + 1;
    s.(round := round, phase := Betting,
       p0 := s.p0.(bet := 0, betPlaced := false, dice := []), p1 := s.p1.(bet := 0, betPlaced := false, dice := []),
       activeBidder := None, firstBidder := FirstBidderOf(round), lastBidder := None, currentBid := None, pot := 0)
  }

  function FirstBidderOf(round: int): string {
    if (round - 1) % 2 == 0 then AGENT_1 else AGENT_2
  }

  function NextBid(current: Bid): Option<(int, int)> {
    if current.face < 6 then Some((current.count, current.face + 1))
    else if current.count < MAX_BID_COUNT then Some((current.count + 1, 1))
    else None
  }

  function ConsumeTurn(s: State): State {
    if s.phase == Bidding then
      var active := s.activeBidder.GetOr(s.firstBidder);
      if s.currentBid.None? then ApplyMakeBid(s, active, 1, 1)
      else
        var next := NextBid(s.currentBid.value);
        if next.Some? then ApplyMakeBid(s, active, next.value.0, next.value.1) else ResolveBluff(s, active)
    else s.(turn := s.turn + 1)
  }

  function ApplyAction(s: State, a: Action, roll: Roll): State
    requires Accepts(s, a)
  {
    match a
    case GetState => s
    case PlaceBet(actor, amount) => ApplyPlaceBet(s, actor.value, amount.value, roll)
    case MakeBid(actor, count, face) => ApplyMakeBid(s, actor.value, count.value, face.value)
    case CallBluff(actor) => ResolveBluff(s, actor.value)
  }

  function CheckTermination(s: State): Option<Termination> {
    if s.terminationResult.Some? then s.terminationResult
    else if s.gameOver || s.turn > s.config.turnLimit then Some(ComputeTermination(s.p0, s.p1))
    else None
  }

  // --------------------------------------------------------------- bids in order

  /** The position of a bid among the sixty possible ones. */
  function Rank(count: int, face: int): int {
    6 * (count - 1) + face
  }

  predicate LegalBid(count: int, face: int) {
    1 <= count <= MAX_BID_COUNT && 1 <= face <= 6
  }

  /** A bid is higher exactly when its rank is, and the consumed bid is the very next rank, up to the last one. */
  lemma BidsAreRanked(current: Bid, count: int, face: int)
    requires LegalBid(current.count, current.face) && LegalBid(count, face)
    ensures IsBidHigher(current, count, face) <==> Rank(count, face) > Rank(current.count, current.face)
    ensures 1 <= Rank(count, face) <= 60
    ensures match NextBid(current)
      case None => current.count == MAX_BID_COUNT && current.face == 6 && Rank(current.count, current.face) == 60
      case Some(next) => LegalBid(next.0, next.1) && Rank(next.0, next.1) == Rank(current.count, current.face) + 1
  {
  }

  // ------------------------------------------------------------------ invariant

  predicate ValidConfig(c: Config) {
    c.initialChips >= 1 && c.maxRounds >= 1 && c.maxBetPerRound >= 1
  }

  predicate BetOk(s: State, p: Player) {
    if p.betPlaced then 1 <= p.bet <= Min(p.chips, s.config.maxBetPerRound) else p.bet == 0
  }

  /** With a bid pending it is the other agent's turn. */
  ghost predicate PendingBidOk(s: State, bid: Bid) {
    && LegalBid(bid.count, bid.face) && IsAgent(bid.bidder)
    && s.lastBidder == Some(bid.bidder) && s.activeBidder == Some(Other(bid.bidder))
  }

  ghost predicate PhaseOk(s: State) {
    match s.phase
    case Betting =>
      && s.p0.chips >= 1 && s.p1.chips >= 1 && !(s.p0.betPlaced && s.p1.betPlaced)
      && BetOk(s, s.p0) && BetOk(s, s.p1) && s.pot == 0
      && s.activeBidder.None? && s.currentBid.None? && s.lastBidder.None?
    case Bidding =>
      && s.p0.betPlaced && s.p1.betPlaced && BetOk(s, s.p0) && BetOk(s, s.p1) && s.pot == s.p0.bet + s.p1.bet
      && (if s.currentBid.None? then s.activeBidder == Some(s.firstBidder) && s.lastBidder.None?
          else PendingBidOk(s, s.currentBid.value))
    case Finished =>
      && s.currentBid.None? && s.activeBidder.None? && s.lastBidder.None?
      && s.terminationResult == Some(ComputeTermination(s.p0, s.p1))
  }

  /** What holds in every state of every match. */
  ghost predicate Inv(s: State) {
    && ValidConfig(s.config) && 1 <= s.round <= s.config.maxRounds
    && s.p0.agentId == AGENT_1 && s.p1.agentId == AGENT_2
    && s.p0.chips >= 0 && s.p1.chips >= 0 && s.p0.chips + s.p1.chips == 2 * s.config.initialChips
    && s.firstBidder == (if s.round % 2 == 1 then AGENT_1 else AGENT_2)
    && |s.roundHistory| == (if s.phase == Finished then s.round else s.round - 1)
    && (forall i | 0 <= i < |s.roundHistory| :: s.roundHistory[i].round == i + 1)
    && (s.phase == Finished <==> |s.roundHistory| == s.config.maxRounds || s.p0.chips == 0 || s.p1.chips == 0)
    && (s.gameOver <==> s.phase == Finished) && (s.terminationResult.Some? <==> s.phase == Finished)
    && PhaseOk(s)
  }

  lemma InitialInv(config: Config)
    requires ValidConfig(config)
    ensures Inv(Initialize(config))
  {
  }

  /** How many dice of both players show a face. */
  function Shown(s: State, face: int): nat {
    multiset(s.p0.dice)[face] + multiset(s.p1.dice)[face]
  }

  lemma ShownIsCounted(s: State, face: int)
    ensures CountFace(s.p0.dice + s.p1.dice, face) == Shown(s, face)
  {
    CountFaceConcat(s.p0.dice, s.p1.dice, face);
    CountFaceCounts(s.p0.dice, face);
    CountFaceCounts(s.p1.dice, face);
  }

  /** Who is right about the dice when a bid is called. */
  function RightAgent(s: State, challenger: string): string
    requires s.currentBid.Some?
  {
    if Shown(s, s.currentBid.value.face) >= s.currentBid.value.count then s.currentBid.value.bidder else challenger
  }

  /** Resolving moves exactly the loser's bet to the winner; the clip to zero never acts. */
  lemma {:induction false} ResolveTransfersTheBet(s: State, challenger: string)
    requires Inv(s) && s.phase == Bidding && s.currentBid.Some? && s.activeBidder == Some(challenger)
    ensures var r, winner := ResolveBluff(s, challenger), RightAgent(s, challenger);
      && PlayerOf(r, winner).chips == PlayerOf(s, winner).chips + PlayerOf(s, Other(winner)).bet
      && PlayerOf(r, Other(winner)).chips == PlayerOf(s, Other(winner)).chips - PlayerOf(s, Other(winner)).bet
      && s.p0.chips - s.p0.bet >= 0 && s.p1.chips - s.p1.bet >= 0
  {
    BiddingFacts(s);
    RightAgentIsAgent(s, challenger);
    hide *;
    ResolvePays(s, challenger);
    MovesTheBet(s, ResolveBluff(s, challenger), RightAgent(s, challenger));
  }

  /** The record of the round tells the bid, who called it, who was right, the pot and the dice. */
  lemma {:induction false} ResolveRecordsTheRound(s: State, challenger: string)
    requires Inv(s) && s.phase == Bidding && s.currentBid.Some? && s.activeBidder == Some(challenger)
    ensures var r, bid, winner := ResolveBluff(s, challenger), s.currentBid.value, RightAgent(s, challenger);
      && |r.roundHistory| == |s.roundHistory| + 1 && s.roundHistory <= r.roundHistory
      && var entry := r.roundHistory[|s.roundHistory|];
      && entry.round == s.round && entry.bid == bid && entry.callBluffBy == challenger
      && entry.winner == winner && entry.loser == Other(winner)
      && entry.potSize == s.p0.bet + s.p1.bet && entry.actualCount == Shown(s, bid.face)
      && entry.revealed0 == s.p0.dice && entry.revealed1 == s.p1.dice
  {
    BiddingFacts(s);
    Opponents(s.currentBid.value.bidder, challenger);
    ShownIsCounted(s, s.currentBid.value.face);
    hide Inv, CountFace, Shown, ComputeTermination, StartNewRound, IsAgent, Other;
    ResolveRecords(s, challenger);
  }

  lemma RightAgentIsAgent(s: State, challenger: string)
    requires s.currentBid.Some? && IsAgent(s.currentBid.value.bidder) && IsAgent(challenger)
    ensures IsAgent(RightAgent(s, challenger))
  {
    hide IsAgent;
  }

  lemma Opponents(a: string, b: string)
    requires IsAgent(a) && b == Other(a)
    ensures IsAgent(b) && Other(b) == a
  {
  }

  /** The pot is the sum of two affordable bets, so the winner gains what the other one has bet. */
  lemma MovesTheBet(s: State, r: State, winner: string)
    requires 1 <= s.p0.bet <= s.p0.chips && 1 <= s.p1.bet <= s.p1.chips && s.pot == s.p0.bet + s.p1.bet
    requires IsAgent(winner)
    requires r.p0.chips == Clip(s.p0.chips - s.p0.bet) + (if winner == AGENT_1 then s.pot else 0)
    requires r.p1.chips == Clip(s.p1.chips - s.p1.bet) + (if winner == AGENT_1 then 0 else s.pot)
    ensures PlayerOf(r, winner).chips == PlayerOf(s, winner).chips + PlayerOf(s, Other(winner)).bet
    ensures PlayerOf(r, Other(winner)).chips == PlayerOf(s, Other(winner)).chips - PlayerOf(s, Other(winner)).bet
  {
  }

  lemma BiddingFacts(s: State)
    requires Inv(s) && s.phase == Bidding
    ensures 1 <= s.p0.bet <= s.p0.chips && 1 <= s.p1.bet <= s.p1.chips && s.pot == s.p0.bet + s.p1.bet
    ensures s.activeBidder.Some? && (s.currentBid.Some? ==> IsAgent(s.activeBidder.value))
    ensures s.currentBid.Some? ==>
      var bid := s.currentBid.value;
      LegalBid(bid.count, bid.face) && IsAgent(bid.bidder) && s.activeBidder == Some(Other(bid.bidder))
  {
  }

  /** What a call adds to the history. */
  lemma ResolveRecords(s: State, challenger: string)
    requires s.currentBid.Some?
    ensures var r, bid := ResolveBluff(s, challenger), s.currentBid.value;
      var shown := CountFace(s.p0.dice + s.p1.dice, bid.face);
      var (winner, loser) := if shown >= bid.count then (bid.bidder, challenger) else (challenger, bid.bidder);
      r.roundHistory == s.roundHistory + [RoundResult(s.round, bid, challenger, winner, loser, s.pot, shown,
                                                      s.p0.dice, s.p1.dice)]
  {
    hide CountFace, ComputeTermination;
  }

  /** What the players hold after a call. */
  lemma ResolvePays(s: State, challenger: string)
    requires s.currentBid.Some?
    ensures var r, winner := ResolveBluff(s, challenger), RightAgent(s, challenger);
      && r.p0.chips == Clip(s.p0.chips - s.p0.bet) + (if winner == AGENT_1 then s.pot else 0)
      && r.p1.chips == Clip(s.p1.chips - s.p1.bet) + (if winner == AGENT_1 then 0 else s.pot)
  {
    ShownIsCounted(s, s.currentBid.value.face);
    hide CountFace, Shown, ComputeTermination;
  }

  lemma {:induction false} CountFaceConcat(a: seq<int>, b: seq<int>, face: int)
    ensures CountFace(a + b, face) == CountFace(a, face) + CountFace(b, face)
  {
    if a == [] {
      assert a + b == b;
    } else {
      assert (a + b)[1..] == a[1..] + b;
      CountFaceConcat(a[1..], b, face);
    }
  }

  lemma {:induction false} CountFaceCounts(dice: seq<int>, face: int)
    ensures CountFace(dice, face) == multiset(dice)[face]
  {
    if dice != [] {
      assert dice == [dice[0]] + dice[1..];
      CountFaceCounts(dice[1..], face);
    }
  }

  lemma {:induction false} ResolveKeepsInv(s: State, challenger: string)
    requires Inv(s) && s.phase == Bidding && s.currentBid.Some? && s.activeBidder == Some(challenger)
    ensures Inv(ResolveBluff(s, challenger)) && ResolveBluff(s, challenger).config == s.config
  {
    hide CountFace, ComputeTermination;
  }

  /** In a reachable state exactly affordable first bets, higher bids and calls of a pending bid are accepted. */
  lemma {:induction false} AcceptedExactly(s: State, a: Action)
    requires Inv(s)
    ensures Accepts(s, a) <==>
      match a
      case GetState => true
      case PlaceBet(actor, amount) =>
        && s.phase == Betting && actor.Some? && IsAgent(actor.value) && !PlayerOf(s, actor.value).betPlaced
        && amount.Some? && 1 <= amount.value <= PlayerOf(s, actor.value).chips
        && amount.value <= s.config.maxBetPerRound
      case MakeBid(actor, count, face) =>
        && s.phase == Bidding && actor == s.activeBidder && count.Some? && face.Some?
        && LegalBid(count.value, face.value)
        && Rank(count.value, face.value)
           > (if s.currentBid.None? then 0 else Rank(s.currentBid.value.count, s.currentBid.value.face))
      case CallBluff(actor) => s.phase == Bidding && actor == s.activeBidder && s.currentBid.Some?
      case Unknown(_) => false
  {
    if a.MakeBid? && a.count.Some? && a.face.Some? && s.currentBid.Some? && LegalBid(a.count.value, a.face.value) {
      BidsAreRanked(s.currentBid.value, a.count.value, a.face.value);
    }
  }

  /** A bet and a bid stand as they were asked for; the second bet of a round has the dice rolled. */
  lemma {:induction false} AskedIsDone(s: State, a: Action, roll: Roll)
    requires Inv(s) && Accepts(s, a)
    ensures var t := ApplyAction(s, a, roll);
      match a
      case PlaceBet(actor, amount) =>
        && PlayerOf(t, actor.value).bet == amount.value && PlayerOf(t, actor.value).betPlaced
        && PlayerOf(t, actor.value).chips == PlayerOf(s, actor.value).chips
        && (var other := Other(actor.value);
            if PlayerOf(s, other).betPlaced
            then t.phase == Bidding && PlayerOf(t, other).bet == PlayerOf(s, other).bet
                 && t.p0.dice == roll(s.config.seed, s.round, 0, s.config.diceCount)
                 && t.p1.dice == roll(s.config.seed, s.round, 1, s.config.diceCount)
            else t.phase == Betting && PlayerOf(t, other) == PlayerOf(s, other))
      case MakeBid(actor, count, face) =>
        && t.currentBid == Some(Bid(count.value, face.value, actor.value)) && t.phase == Bidding
        && t.p0 == s.p0 && t.p1 == s.p1 && t.round == s.round
      case _ => true
  {
    hide CountFace, ResolveBluff;
  }

  // ---------------------------------------------------------------------- runs

  datatype Step = Act(a: Action) | Consume

  predicate Allowed(s: State, step: Step) {
    step.Consume? || Accepts(s, step.a)
  }

  function Apply(s: State, step: Step, roll: Roll): State
    requires Allowed(s, step)
  {
    match step
    case Act(a) => ApplyAction(s, a, roll)
    case Consume => ConsumeTurn(s)
  }

  /** A refused action changes nothing. */
  function Next(s: State, step: Step, roll: Roll): State {
    if Allowed(s, step) then Apply(s, step, roll) else s
  }

  function Run(config: Config, steps: seq<Step>, n: nat, roll: Roll): State
    requires n <= |steps|
  {
    if n == 0 then Initialize(config) else Next(Run(config, steps, n - 1, roll), steps[n - 1], roll)
  }

  lemma {:induction false} ActKeepsInv(s: State, a: Action, roll: Roll)
    requires Inv(s) && Accepts(s, a)
    ensures Inv(ApplyAction(s, a, roll)) && ApplyAction(s, a, roll).config == s.config
  {
    hide CountFace, ResolveBluff;
    if a.CallBluff? {
      ResolveKeepsInv(s, a.actor.value);
    }
  }

  lemma {:induction false} ConsumeKeepsInv(s: State)
    requires Inv(s)
    ensures Inv(ConsumeTurn(s)) && ConsumeTurn(s).config == s.config
  {
    hide CountFace, ResolveBluff;
    if s.phase == Bidding && s.currentBid.Some? {
      ResolveKeepsInv(s, s.activeBidder.value);
      BidsAreRanked(s.currentBid.value, 1, 1);
    }
  }

  /**
   * In every reachable state the chips in play are the initial ones, the pot is the sum of two affordable bets,
   * bidding alternates, the first bidder follows the parity of the round, and the rounds played are numbered 1 to n.
   */
  lemma {:induction false} RunKeepsInv(config: Config, steps: seq<Step>, n: nat, roll: Roll)
    requires ValidConfig(config) && n <= |steps|
    ensures Inv(Run(config, steps, n, roll)) && Run(config, steps, n, roll).config == config
  {
    hide Inv, ApplyAction, ConsumeTurn, Accepts;
    if n == 0 {
      InitialInv(config);
    } else {
      RunKeepsInv(config, steps, n - 1, roll);
      var s, step := Run(config, steps, n - 1, roll), steps[n - 1];
      if Allowed(s, step) {
        if step.Act? {
          ActKeepsInv(s, step.a, roll);
        } else {
          ConsumeKeepsInv(s);
        }
      }
    }
  }

  // ---------------------------------------------------------- length of a match

  /** Bets, bids and calls, and turns consumed while bidding. */
  predicate Advances(s: State, step: Step) {
    Allowed(s, step) && if step.Act? then !step.a.GetState? else s.phase == Bidding
  }

  /** How far a match has come: 63 stations a round, two bets, sixty ranks and the call. */
  function Progress(s: State): int {
    match s.phase
    case Betting => 63 * (s.round - 1) + (if s.p0.betPlaced then 1 else 0) + (if s.p1.betPlaced then 1 else 0)
    case Bidding =>
      63 * (s.round - 1) + 2 + if s.currentBid.None? then 0 else Rank(s.currentBid.value.count, s.currentBid.value.face)
    case Finished => 63 * s.round
  }

  lemma ProgressBounded(s: State)
    requires Inv(s)
    ensures 0 <= Progress(s) <= 63 * s.config.maxRounds
  {
    if s.currentBid.Some? {
      BidsAreRanked(s.currentBid.value, s.currentBid.value.count, s.currentBid.value.face);
    }
  }

  lemma CallReachesTheEndOfTheRound(s: State, challenger: string)
    requires Inv(s) && s.phase == Bidding && s.currentBid.Some?
    ensures Progress(ResolveBluff(s, challenger)) == 63 * s.round > Progress(s)
  {
    hide CountFace;
    BidsAreRanked(s.currentBid.value, s.currentBid.value.count, s.currentBid.value.face);
  }

  lemma {:induction false} AdvancingStepsProgress(s: State, step: Step, roll: Roll)
    requires Inv(s)
    ensures if Advances(s, step) then Progress(Next(s, step, roll)) > Progress(s)
            else Progress(Next(s, step, roll)) == Progress(s)
  {
    hide CountFace, ResolveBluff;
    if s.phase == Bidding && s.currentBid.Some? {
      CallReachesTheEndOfTheRound(s, s.activeBidder.value);
      var bid := s.currentBid.value;
      BidsAreRanked(bid, bid.count, bid.face);
      if step.Act? && step.a.MakeBid? && Allowed(s, step) {
        BidsAreRanked(bid, step.a.count.value, step.a.face.value);
      }
    }
  }

  /** A turn consumed while bidding is the smallest step: the next higher bid, or the call after the last one. */
  lemma {:induction false} ConsumedTurnIsNextStation(s: State)
    requires Inv(s) && s.phase == Bidding
    ensures Progress(ConsumeTurn(s)) == Progress(s) + 1
  {
    BiddingFacts(s);
    hide CountFace, ResolveBluff;
    if s.currentBid.Some? {
      BidsAreRanked(s.currentBid.value, 1, 1);
      CallReachesTheEndOfTheRound(s, s.activeBidder.value);
    }
    hide Inv;
  }

  /** It is taken in the name of the agent to move, who bids, or calls the last bid. */
  lemma {:induction false} ConsumedTurnIsTheMovers(s: State)
    requires Inv(s) && s.phase == Bidding
    ensures var t, mover := ConsumeTurn(s), s.activeBidder.GetOr("");
      if s.currentBid.Some? && NextBid(s.currentBid.value).None?
      then |t.roundHistory| == |s.roundHistory| + 1 && t.roundHistory[|s.roundHistory|].callBluffBy == mover
      else
        && t.currentBid.Some? && t.currentBid.value.bidder == mover
        && t.p0 == s.p0 && t.p1 == s.p1 && t.round == s.round
  {
    BiddingFacts(s);
    hide CountFace, ResolveBluff, Inv, NextBid;
    if s.currentBid.Some? {
      ResolveRecords(s, s.activeBidder.value);
    }
  }

  function AdvancingSteps(config: Config, steps: seq<Step>, n: nat, roll: Roll): nat
    requires n <= |steps|
  {
    if n == 0 then 0 else
    AdvancingSteps(config, steps, n - 1, roll)
    + if Advances(Run(config, steps, n - 1, roll), steps[n - 1]) then 1 else 0
  }

  /** A match of r rounds has at most 63 r bets, bids, calls and turns consumed while bidding. */
  lemma {:induction false} MatchIsFinite(config: Config, steps: seq<Step>, n: nat, roll: Roll)
    requires ValidConfig(config) && n <= |steps|
    ensures AdvancingSteps(config, steps, n, roll) <= Progress(Run(config, steps, n, roll)) <= 63 * config.maxRounds
  {
    hide Inv, Progress, Advances, Next;
    RunKeepsInv(config, steps, n, roll);
    ProgressBounded(Run(config, steps, n, roll));
    if n > 0 {
      MatchIsFinite(config, steps, n - 1, roll);
      RunKeepsInv(config, steps, n - 1, roll);
      AdvancingStepsProgress(Run(config, steps, n - 1, roll), steps[n - 1], roll);
    }
  }

  predicate TakesTurn(s: State, step: Step) {
    Allowed(s, step) && (step.Act? ==> !step.a.GetState?)
  }

  function TurnsTaken(config: Config, steps: seq<Step>, n: nat, roll: Roll): nat
    requires n <= |steps|
  {
    if n == 0 then 0 else
    TurnsTaken(config, steps, n - 1, roll) + if TakesTurn(Run(config, steps, n - 1, roll), steps[n - 1]) then 1 else 0
  }

  /** Every accepted step but a state query adds exactly one to the turn. */
  lemma TurnLaw(s: State, step: Step, roll: Roll)
    ensures Next(s, step, roll).turn == s.turn + if TakesTurn(s, step) then 1 else 0
  {
    hide CountFace, Accepts, ComputeTermination, NextBid, PlayerOf, Other, FirstBidderOf;
  }

  /** The turn number is one more than the number of steps that took a turn. */
  lemma {:induction false} TurnCountsSteps(config: Config, steps: seq<Step>, n: nat, roll: Roll)
    requires n <= |steps|
    ensures Run(config, steps, n, roll).turn == 1 + TurnsTaken(config, steps, n, roll)
  {
    hide Next, TakesTurn;
    if n > 0 {
      TurnCountsSteps(config, steps, n - 1, roll);
      TurnLaw(Run(config, steps, n - 1, roll), steps[n - 1], roll);
    }
  }

  // -------------------------------------------------------------- nobody is stuck

  /** In every unfinished state some agent has an action that moves the match on. */
  lemma {:induction false} NeverStuck(s: State)
    requires Inv(s) && s.phase != Finished
    ensures exists a: Action :: Accepts(s, a) && Advances(s, Act(a))
  {
    var a :=
      if s.phase == Betting then PlaceBet(Some(if s.p0.betPlaced then AGENT_2 else AGENT_1), Some(1))
      else if s.currentBid.None? then MakeBid(s.activeBidder, Some(1), Some(1))
      else CallBluff(s.activeBidder);
    assert Accepts(s, a) && Advances(s, Act(a));
  }

  /** The result of a finished match names the agent who holds more chips than half of all, or nobody. */
  lemma {:induction false} FinishedMatchNamesTheRicher(s: State)
    requires Inv(s) && s.phase == Finished
    ensures CheckTermination(s).Some? && CheckTermination(s).value.ended
    ensures match CheckTermination(s).value.winner
      case None => s.p0.chips == s.p1.chips == s.config.initialChips
      case Some(w) => IsAgent(w) && PlayerOf(s, w).chips > s.config.initialChips
  {
  }

  /**
   * Over any run a match is over exactly when all rounds are played, an agent has no chips left or the turn limit
   * is passed; whoever then has more chips has won.
   */
  lemma {:induction false} MatchEndsExactly(config: Config, steps: seq<Step>, n: nat, roll: Roll)
    requires ValidConfig(config) && n <= |steps|
    ensures var s := Run(config, steps, n, roll);
      && (CheckTermination(s).Some? <==>
            || |s.roundHistory| == config.maxRounds || s.p0.chips == 0 || s.p1.chips == 0
            || s.turn > config.turnLimit)
      && (CheckTermination(s).Some? ==>
            var winner := CheckTermination(s).value.winner;
            && CheckTermination(s).value.ended
            && (winner == Some(AGENT_1) <==> s.p0.chips > s.p1.chips)
            && (winner == Some(AGENT_2) <==> s.p1.chips > s.p0.chips)
            && (winner == None <==> s.p0.chips == s.p1.chips))
  {
    hide Run;
    RunKeepsInv(config, steps, n, roll);
  }
}
