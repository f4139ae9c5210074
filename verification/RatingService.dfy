/** Processing match results, and what any run of them keeps. */
module RatingService {
  import opened Wrappers
  import opened Rating

  datatype Job = Job(participants: seq<string>, winnerUid: Option<string>, endedAt: Option<(int, int)>)

  datatype JobError = NotTwoParticipants | UnknownWinner | InvalidDate

  /** K factor, the power function of Elo, and the order of user ids. */
  datatype Config = Config(kFactor: real, pow: Power, lt: UidOrder)

  function Dedupe(xs: seq<string>): seq<string> {
    if xs == [] then []
    else
      var rest := Dedupe(xs[..|xs| - 1]);
      if xs[|xs| - 1] in rest then rest else rest + [xs[|xs| - 1]]
  }

  lemma {:induction false} DedupeDistinct(xs: seq<string>)
    ensures forall i, j | 0 <= i < j < |Dedupe(xs)| :: Dedupe(xs)[i] != Dedupe(xs)[j]
  {
    if xs != [] {
      DedupeDistinct(xs[..|xs| - 1]);
    }
  }

  lemma {:induction false} DedupeMembers(xs: seq<string>)
    ensures forall x :: x in Dedupe(xs) <==> x in xs
  {
    if xs != [] {
      DedupeMembers(xs[..|xs| - 1]);
      assert xs == xs[..|xs| - 1] + [xs[|xs| - 1]];
    }
  }

  function ValidateJob(job: Job): Option<JobError> {
    var participants := Dedupe(job.participants);
    if |participants| != 2 then Some(NotTwoParticipants)
    else if job.winnerUid.Some? && job.winnerUid.value !in participants then Some(UnknownWinner)
    else if job.endedAt.None? then Some(InvalidDate)
    else None
  }

  predicate Accepted(job: Job) {
    ValidateJob(job).None?
  }

  /** The list names these two and nobody else, in any order and any number of times. */
  ghost predicate NamesJust(xs: seq<string>, a: string, b: string) {
    a in xs && b in xs && a != b && forall x | x in xs :: x == a || x == b
  }

  lemma ThirdName(xs: seq<string>, a: string, b: string)
    requires |xs| > 2 && forall i, j | 0 <= i < j < |xs| :: xs[i] != xs[j]
    ensures exists x :: x in xs && x != a && x != b
  {
    assert xs[0] in xs && xs[1] in xs && xs[2] in xs;
  }

  lemma TwoNames(xs: seq<string>)
    ensures |Dedupe(xs)| == 2 <==> exists a, b :: NamesJust(xs, a, b)
  {
    DedupeMembers(xs);
    DedupeDistinct(xs);
    var players := Dedupe(xs);
    hide Dedupe;
    if |players| == 2 {
      assert players[0] in players && players[1] in players;
      assert NamesJust(xs, players[0], players[1]);
    } else if a, b :| NamesJust(xs, a, b) {
      assert a in players && b in players;
      if |players| > 2 {
        ThirdName(players, a, b);
      }
    }
  }

  /** A job counts exactly when two different players took part, the winner is one of them and its date is valid. */
  lemma {:induction false} AcceptedExactly(job: Job)
    ensures Accepted(job) <==>
      && (exists a, b :: NamesJust(job.participants, a, b))
      && (job.winnerUid.Some? ==> job.winnerUid.value in job.participants)
      && job.endedAt.Some?
  {
    TwoNames(job.participants);
    DedupeMembers(job.participants);
    hide Dedupe, NamesJust;
  }

  // ------------------------------------------------------------------- seasons

  function QuarterOf(year: int, monthIndex: int): Quarter {
    Quarter(year, monthIndex / 3 + 1)
  }

  /** The quarters begin in January, April, July and October. */
  lemma QuarterMonths(year: int, monthIndex: int)
    requires 0 <= monthIndex < 12
    ensures QuarterOf(year, monthIndex)
      == Quarter(year, if monthIndex <= 2 then 1 else if monthIndex <= 5 then 2 else if monthIndex <= 8 then 3 else 4)
  {
  }

  function ArchiveOthers(seasons: map<Quarter, SeasonStatus>, season: Quarter): map<Quarter, SeasonStatus> {
    map s | s in seasons :: if seasons[s].Active? && s != season then Archived else seasons[s]
  }

  function EnsureSeason(seasons: map<Quarter, SeasonStatus>, season: Quarter): map<Quarter, SeasonStatus> {
    if season in seasons && !seasons[season].Scheduled? then seasons
    else ArchiveOthers(seasons, season)[season := Active]
  }

  ghost predicate AtMostOneActive(seasons: map<Quarter, SeasonStatus>) {
    forall s, t | s in seasons && t in seasons && seasons[s].Active? && seasons[t].Active? :: s == t
  }

  /** The season of a result exists afterwards, no second season becomes active, and an archived one stays archived. */
  lemma {:induction false} SeasonLaws(seasons: map<Quarter, SeasonStatus>, season: Quarter)
    requires AtMostOneActive(seasons)
    ensures var after := EnsureSeason(seasons, season);
      && AtMostOneActive(after) && season in after && !after[season].Scheduled?
      && (forall s | s in seasons :: s in after)
      && (forall s | s in seasons && seasons[s].Archived? :: after[s].Archived?)
      && (season !in seasons || seasons[season].Scheduled? ==> after[season].Active?)
      && (forall s | s in seasons && s != season ::
            after[s] == seasons[s] || (seasons[s].Active? && after[s].Archived? && after[season].Active?))
      && (forall s | s in after :: s in seasons || s == season)
  {
  }

  // ------------------------------------------------------------------- results

  function CountWins(r: RatingEntry): int {
    Round(r.winRate * r.matches as real)
  }

  function ScoreFor(winner: Option<string>, uid: string): real {
    if winner.None? then 0.5 else if winner.value == uid then 1.0 else 0.0
  }

  function Current(ratings: seq<RatingEntry>, season: Quarter, uid: string): RatingEntry {
    Find(ratings, season, uid).GetOr(RatingEntry(uid, season, DEFAULT_ELO, 0, 0.0))
  }

  /** `error` is the rounding error of the floating-point division. */
  function Updated(player: RatingEntry, elo: int, won: bool, error: real): RatingEntry {
    var matches := player.matches + 1;
    var wins := CountWins(player) + if won then 1 else 0;
    player.(elo := elo, matches := matches, winRate := wins as real / matches as real + error)
  }

  datatype Input = Input(job: Job, errorA: real, errorB: real)

  function PlayerA(job: Job): string
    requires Accepted(job)
  {
    Dedupe(job.participants)[0]
  }

  function PlayerB(job: Job): string
    requires Accepted(job)
  {
    Dedupe(job.participants)[1]
  }

  function SeasonOf(job: Job): Quarter
    requires Accepted(job)
  {
    QuarterOf(job.endedAt.value.0, job.endedAt.value.1)
  }

  /** The two ratings a result writes. */
  function NewRatings(ratings: seq<RatingEntry>, input: Input, cfg: Config): (RatingEntry, RatingEntry)
    requires Accepted(input.job) && PowerLaw(cfg.pow)
  {
    var job := input.job;
    var (season, uidA, uidB) := (SeasonOf(job), PlayerA(job), PlayerB(job));
    var (a, b) := (Current(ratings, season, uidA), Current(ratings, season, uidB));
    var (scoreA, scoreB) := (ScoreFor(job.winnerUid, uidA), ScoreFor(job.winnerUid, uidB));
    (Updated(a, NewRating(a.elo, b.elo, scoreA, cfg.kFactor, cfg.pow), scoreA == 1.0, input.errorA),
     Updated(b, NewRating(b.elo, a.elo, scoreB, cfg.kFactor, cfg.pow), scoreB == 1.0, input.errorB))
  }

  function Process(repo: Repo, input: Input, cfg: Config): Repo
    requires PowerLaw(cfg.pow)
  {
    if !Accepted(input.job) then repo else
    var season := SeasonOf(input.job);
    var (a, b) := NewRatings(repo.ratings, input, cfg);
    var ratings := if cfg.lt(b.uid, a.uid) then Put(Put(repo.ratings, b), a) else Put(Put(repo.ratings, a), b);
    Repo(ratings, EnsureSeason(repo.seasons, season),
         repo.leaderboards[season := SortRatings(OfSeason(ratings, season), cfg.lt)])
  }

  class Service {
    const cfg: Config
    var ratings: seq<RatingEntry>
    var seasons: map<Quarter, SeasonStatus>
    var leaderboards: map<Quarter, seq<RatingEntry>>

    constructor (cfg: Config)
      ensures this.cfg == cfg && State() == Repo([], map[], map[])
    {
      this.cfg := cfg;
      ratings, seasons, leaderboards := [], map[], map[];
    }

    ghost function State(): Repo
      reads this
    {
      Repo(ratings, seasons, leaderboards)
    }

    method EnsureSeasonForDate(season: Quarter)
      modifies this`seasons
      ensures seasons == EnsureSeason(old(seasons), season)
    {
      if season in seasons && !seasons[season].Scheduled? {
        return;
      }
      seasons := ArchiveOthers(seasons, season);
      seasons := seasons[season := Active];
    }

    /** `entry.rank` is one more than the position on the board. */
    method ProcessMatchResult(input: Input) returns (error: Option<JobError>)
      requires PowerLaw(cfg.pow)
      modifies this
      ensures error == ValidateJob(input.job)
      ensures State() == Process(old(State()), input, cfg)
    {
      error := ValidateJob(input.job);
      if error.Some? {
        return;
      }
      var participants := Dedupe(input.job.participants);
      var season := QuarterOf(input.job.endedAt.value.0, input.job.endedAt.value.1);
      EnsureSeasonForDate(season);
      var playerA := Current(ratings, season, participants[0]);
      var playerB := Current(ratings, season, participants[1]);
      var scoreA := ScoreFor(input.job.winnerUid, participants[0]);
      var scoreB := ScoreFor(input.job.winnerUid, participants[1]);
      var eloA := NewRating(playerA.elo, playerB.elo, scoreA, cfg.kFactor, cfg.pow);
      var eloB := NewRating(playerB.elo, playerA.elo, scoreB, cfg.kFactor, cfg.pow);
      var a := Updated(playerA, eloA, scoreA == 1.0, input.errorA);
      var b := Updated(playerB, eloB, scoreB == 1.0, input.errorB);
      if cfg.lt(b.uid, a.uid) {
        ratings := Put(Put(ratings, b), a);
      } else {
        ratings := Put(Put(ratings, a), b);
      }
      leaderboards := leaderboards[season := SortRatings(OfSeason(ratings, season), cfg.lt)];
    }
  }

  // ---------------------------------------------------------------------- runs

  function Run(inputs: seq<Input>, n: nat, cfg: Config): Repo
    requires n <= |inputs| && PowerLaw(cfg.pow)
  {
    if n == 0 then Repo([], map[], map[]) else Process(Run(inputs, n - 1, cfg), inputs[n - 1], cfg)
  }

  predicate Plays(job: Job, season: Quarter, uid: string) {
    Accepted(job) && SeasonOf(job) == season && uid in Dedupe(job.participants)
  }

  /** How many of the first `n` results the player took part in. */
  function MatchesOf(inputs: seq<Input>, n: nat, season: Quarter, uid: string): nat
    requires n <= |inputs|
  {
    if n == 0 then 0
    else MatchesOf(inputs, n - 1, season, uid) + if Plays(inputs[n - 1].job, season, uid) then 1 else 0
  }

  /** How many of them the player won. */
  function WinsOf(inputs: seq<Input>, n: nat, season: Quarter, uid: string): nat
    requires n <= |inputs|
  {
    if n == 0 then 0 else
    WinsOf(inputs, n - 1, season, uid)
    + if Plays(inputs[n - 1].job, season, uid) && inputs[n - 1].job.winnerUid == Some(uid) then 1 else 0
  }

  function Abs(x: real): real {
    if x < 0.0 then -x else x
  }

  predicate SmallError(error: real, matches: nat) {
    Abs(error) * matches as real < 0.5
  }

  /** Stored win rates are close enough to tell the number of wins. */
  ghost predicate SmallErrors(inputs: seq<Input>, n: nat)
    requires n <= |inputs|
  {
    forall i | 0 <= i < n && Accepted(inputs[i].job) ::
      && SmallError(inputs[i].errorA, MatchesOf(inputs, i, SeasonOf(inputs[i].job), PlayerA(inputs[i].job)) + 1)
      && SmallError(inputs[i].errorB, MatchesOf(inputs, i, SeasonOf(inputs[i].job), PlayerB(inputs[i].job)) + 1)
  }

  /** The entry records this many matches, and its win rate tells this many wins. */
  ghost predicate Records(r: RatingEntry, matches: nat, wins: nat) {
    r.matches == matches && Abs(r.winRate * matches as real - wins as real) < 0.5
  }

  lemma RecordsTellWins(r: RatingEntry, matches: nat, wins: nat)
    requires Records(r, matches, wins)
    ensures CountWins(r) == wins && r.matches == matches
  {
  }

  lemma Quotient(wins: real, matches: real, error: real)
    requires matches > 0.0
    ensures (wins / matches + error) * matches == wins + error * matches
  {
  }

  lemma SameSign(x: real, m: real)
    requires m > 0.0
    ensures x * m < 0.0 <==> x < 0.0
  {
  }

  lemma Negated(x: real, m: real)
    ensures (-x) * m == -(x * m)
  {
  }

  lemma AbsProduct(x: real, m: real)
    requires m > 0.0
    ensures Abs(x * m) == Abs(x) * m
  {
    SameSign(x, m);
    if x < 0.0 {
      Negated(x, m);
      assert Abs(x) == -x;
    } else {
      assert Abs(x) == x;
    }
  }

  lemma AbsTimes(error: real, matches: nat)
    requires matches > 0 && SmallError(error, matches)
    ensures Abs(error * matches as real) < 0.5
  {
    AbsProduct(error, matches as real);
  }

  lemma UpdatedRecords(player: RatingEntry, matches: nat, wins: nat, elo: int, won: bool, error: real)
    requires Records(player, matches, wins) && SmallError(error, matches + 1)
    ensures Records(Updated(player, elo, won, error), matches + 1, wins + if won then 1 else 0)
  {
    RecordsTellWins(player, matches, wins);
    AbsTimes(error, matches + 1);
    hide Round, Abs, SmallError;
    var total, m := (wins + if won then 1 else 0) as real, (matches + 1) as real;
    var r := Updated(player, elo, won, error);
    assert r.winRate == total / m + error;
    Quotient(total, m, error);
    assert r.winRate * m - total == error * m;
  }

  /** What one accepted result does to every rating. */
  lemma {:induction false} ProcessRatings(repo: Repo, input: Input, cfg: Config, season: Quarter, uid: string)
    requires PowerLaw(cfg.pow) && Accepted(input.job)
    ensures var (a, b) := NewRatings(repo.ratings, input, cfg);
      && SameKey(a, SeasonOf(input.job), PlayerA(input.job)) && SameKey(b, SeasonOf(input.job), PlayerB(input.job))
      && PlayerA(input.job) != PlayerB(input.job)
      && Find(Process(repo, input, cfg).ratings, season, uid)
         == if SameKey(a, season, uid) then Some(a) else if SameKey(b, season, uid) then Some(b)
            else Find(repo.ratings, season, uid)
  {
    var job := input.job;
    DedupeDistinct(job.participants);
    CurrentKey(repo.ratings, SeasonOf(job), PlayerA(job));
    CurrentKey(repo.ratings, SeasonOf(job), PlayerB(job));
    var (a, b) := NewRatings(repo.ratings, input, cfg);
    hide NewRatings, Put, Find, Dedupe, EnsureSeason, SortRatings, OfSeason;
    FindAfterPut(Put(repo.ratings, b), a, season, uid);
    FindAfterPut(repo.ratings, b, season, uid);
    FindAfterPut(Put(repo.ratings, a), b, season, uid);
    FindAfterPut(repo.ratings, a, season, uid);
  }

  lemma {:induction false} CurrentKey(ratings: seq<RatingEntry>, season: Quarter, uid: string)
    ensures SameKey(Current(ratings, season, uid), season, uid)
  {
    if ratings != [] && !SameKey(ratings[0], season, uid) {
      CurrentKey(ratings[1..], season, uid);
    }
  }

  /** Every player's stored matches and the wins read from the stored win rate are the exact counts. */
  lemma {:induction false} RecordsAreExact(inputs: seq<Input>, n: nat, cfg: Config, season: Quarter, uid: string)
    requires n <= |inputs| && PowerLaw(cfg.pow) && SmallErrors(inputs, n)
    ensures var matches, wins := MatchesOf(inputs, n, season, uid), WinsOf(inputs, n, season, uid);
      match Find(Run(inputs, n, cfg).ratings, season, uid)
      case None => matches == wins == 0
      case Some(r) => r.matches == matches && CountWins(r) == wins && Records(r, matches, wins)
    decreases n
  {
    hide Process, Find, Records, CountWins, NewRatings, Dedupe, ValidateJob, SmallError;
    if n == 0 {
      EmptyRun(inputs, cfg, season, uid);
    } else {
      RecordsAreExact(inputs, n - 1, cfg, season, uid);
      var repo, input := Run(inputs, n - 1, cfg), inputs[n - 1];
      if Accepted(input.job) {
        ProcessRatings(repo, input, cfg, season, uid);
        TwoPlayers(input.job);
        if Plays(input.job, season, uid) {
          PlayerRecords(repo, input, cfg, uid, MatchesOf(inputs, n - 1, season, uid),
              WinsOf(inputs, n - 1, season, uid));
        }
      } else {
        RefusedJob(repo, input, cfg);
      }
    }
  }

  lemma EmptyRun(inputs: seq<Input>, cfg: Config, season: Quarter, uid: string)
    requires PowerLaw(cfg.pow)
    ensures Find(Run(inputs, 0, cfg).ratings, season, uid) == None
  {
  }

  lemma RefusedJob(repo: Repo, input: Input, cfg: Config)
    requires PowerLaw(cfg.pow) && !Accepted(input.job)
    ensures Process(repo, input, cfg) == repo
  {
  }

  lemma TwoPlayers(job: Job)
    requires Accepted(job)
    ensures forall uid :: uid in Dedupe(job.participants) <==> uid == PlayerA(job) || uid == PlayerB(job)
  {
  }

  lemma {:induction false} PlayerRecords(repo: Repo, input: Input, cfg: Config, uid: string, matches: nat, wins: nat)
    requires PowerLaw(cfg.pow) && Accepted(input.job) && (uid == PlayerA(input.job) || uid == PlayerB(input.job))
    requires match Find(repo.ratings, SeasonOf(input.job), uid)
      case None => matches == wins == 0
      case Some(r) => Records(r, matches, wins)
    requires uid == PlayerA(input.job) ==> SmallError(input.errorA, matches + 1)
    requires uid == PlayerB(input.job) ==> SmallError(input.errorB, matches + 1)
    ensures var (a, b) := NewRatings(repo.ratings, input, cfg);
      var total := wins + if input.job.winnerUid == Some(uid) then 1 else 0;
      && (uid == PlayerA(input.job) ==>
          Records(a, matches + 1, total) && CountWins(a) == total && a.matches == matches + 1)
      && (uid == PlayerB(input.job) ==>
          Records(b, matches + 1, total) && CountWins(b) == total && b.matches == matches + 1)
  {
    var job := input.job;
    var player := Current(repo.ratings, SeasonOf(job), uid);
    DefaultRecords(repo.ratings, SeasonOf(job), uid);
    var won := job.winnerUid == Some(uid);
    hide Records, Find, Dedupe, ValidateJob, NewRating, NewRatings, PowerLaw, CountWins, Updated, SmallError;
    var (a, b) := NewRatings(repo.ratings, input, cfg);
    EloOfUpdated(repo, input, cfg);
    if uid == PlayerA(job) {
      UpdatedRecords(player, matches, wins, a.elo, won, input.errorA);
      RecordsTellWins(a, matches + 1, wins + if won then 1 else 0);
    }
    if uid == PlayerB(job) {
      UpdatedRecords(player, matches, wins, b.elo, won, input.errorB);
      RecordsTellWins(b, matches + 1, wins + if won then 1 else 0);
    }
  }

  lemma DefaultRecords(ratings: seq<RatingEntry>, season: Quarter, uid: string)
    ensures Find(ratings, season, uid) == None ==> Records(Current(ratings, season, uid), 0, 0)
    ensures Find(ratings, season, uid).Some? ==> Current(ratings, season, uid) == Find(ratings, season, uid).value
  {
    hide Find;
  }

  lemma EloOfUpdated(repo: Repo, input: Input, cfg: Config)
    requires PowerLaw(cfg.pow) && Accepted(input.job)
    ensures var (a, b) := NewRatings(repo.ratings, input, cfg);
      var job := input.job;
      && a == Updated(Current(repo.ratings, SeasonOf(job), PlayerA(job)), a.elo,
                        job.winnerUid == Some(PlayerA(job)), input.errorA)
      && b == Updated(Current(repo.ratings, SeasonOf(job), PlayerB(job)), b.elo,
                        job.winnerUid == Some(PlayerB(job)), input.errorB)
  {
    hide Find, Dedupe, ValidateJob, NewRating, CountWins;
  }

  /** A result raises or keeps the stored rating of its winner and lowers or keeps that of its loser. */
  lemma {:induction false} WinnerIsStoredHigher(repo: Repo, input: Input, cfg: Config, uid: string)
    requires PowerLaw(cfg.pow) && cfg.kFactor >= 0.0 && Accepted(input.job)
    requires uid == PlayerA(input.job) || uid == PlayerB(input.job)
    ensures var season := SeasonOf(input.job);
      var before, after := Current(repo.ratings, season, uid), Find(Process(repo, input, cfg).ratings, season, uid);
      && after.Some?
      && (input.job.winnerUid == Some(uid) ==> after.value.elo >= before.elo)
      && (input.job.winnerUid.Some? && input.job.winnerUid != Some(uid) ==> after.value.elo <= before.elo)
  {
    var season := SeasonOf(input.job);
    ProcessRatings(repo, input, cfg, season, uid);
    hide Process, Dedupe, ValidateJob, Find, PowerLaw, NewRating, CountWins;
    var a, b := Current(repo.ratings, season, PlayerA(input.job)), Current(repo.ratings, season, PlayerB(input.job));
    WinnerNeverLoses(a.elo, b.elo, cfg.kFactor, cfg.pow);
    WinnerNeverLoses(b.elo, a.elo, cfg.kFactor, cfg.pow);
  }

  /** Two newcomers: with a factor of 32 a win is worth 16 points, and a draw leaves both at 1500. */
  lemma {:induction false} FirstMatch(input: Input, cfg: Config, repo: Repo)
    requires PowerLaw(cfg.pow) && cfg.kFactor == 32.0 && Accepted(input.job)
    requires var season := SeasonOf(input.job);
      Find(repo.ratings, season, PlayerA(input.job)).None? && Find(repo.ratings, season, PlayerB(input.job)).None?
    ensures var season := SeasonOf(input.job);
      forall uid | uid == PlayerA(input.job) || uid == PlayerB(input.job) ::
        var after := Find(Process(repo, input, cfg).ratings, season, uid);
        after.Some? && after.value.elo
          == if input.job.winnerUid == Some(uid) then 1516 else if input.job.winnerUid.Some? then 1484 else 1500
  {
    var season := SeasonOf(input.job);
    EqualRatings(1500, 32.0, cfg.pow);
    forall uid | uid == PlayerA(input.job) || uid == PlayerB(input.job)
      ensures var after := Find(Process(repo, input, cfg).ratings, season, uid);
        after.Some? && after.value.elo
          == if input.job.winnerUid == Some(uid) then 1516 else if input.job.winnerUid.Some? then 1484 else 1500
    {
      ProcessRatings(repo, input, cfg, season, uid);
      hide Process, Dedupe, ValidateJob, Find, PowerLaw, NewRating, CountWins;
    }
  }

  // ----------------------------------------------------------------- Elo totals

  /** The result creates a point because its rating change is an exact half. */
  ghost predicate CreatesPoint(repo: Repo, input: Input, cfg: Config)
    requires PowerLaw(cfg.pow)
  {
    Accepted(input.job) &&
    var a, b := Current(repo.ratings, SeasonOf(input.job), PlayerA(input.job)),
        Current(repo.ratings, SeasonOf(input.job), PlayerB(input.job));
    IsHalf(Delta(a.elo, b.elo, ScoreFor(input.job.winnerUid, PlayerA(input.job)), cfg.kFactor, cfg.pow))
  }

  ghost function PointsCreated(inputs: seq<Input>, n: nat, cfg: Config, season: Quarter): nat
    requires n <= |inputs| && PowerLaw(cfg.pow)
  {
    if n == 0 then 0 else
    PointsCreated(inputs, n - 1, cfg, season)
    + if Accepted(inputs[n - 1].job) && SeasonOf(inputs[n - 1].job) == season
         && CreatesPoint(Run(inputs, n - 1, cfg), inputs[n - 1], cfg) then 1 else 0
  }

  lemma ScoresAddUp(job: Job)
    requires Accepted(job)
    ensures ScoreFor(job.winnerUid, PlayerA(job)) + ScoreFor(job.winnerUid, PlayerB(job)) == 1.0
  {
    DedupeDistinct(job.participants);
    TwoPlayers(job);
    hide Dedupe;
  }

  /** Replacing or adding two players of a season changes its total by the sum of their changes. */
  lemma {:induction false} TotalAfterTwo(ratings: seq<RatingEntry>, a: RatingEntry, b: RatingEntry, season: Quarter)
    requires a.season == b.season && a.uid != b.uid
    ensures var after := Put(Put(ratings, a), b);
      var old_, new_ := OfSeason(ratings, season), OfSeason(after, season);
      var change := (a.elo - Current(ratings, a.season, a.uid).elo) + (b.elo - Current(ratings, b.season, b.uid).elo);
      if a.season != season then new_ == old_
      else TotalElo(new_) - DEFAULT_ELO * |new_| == TotalElo(old_) - DEFAULT_ELO * |old_| + change
  {
    TotalsAfterPut(ratings, a, season);
    TotalsAfterPut(Put(ratings, a), b, season);
    FindAfterPut(ratings, a, b.season, b.uid);
    hide Put, OfSeason, TotalElo, Find;
  }

  /** A season's rating total is 1500 for each player, plus one point for each exact half that was rounded up. */
  lemma {:induction false} EloTotalIsAccounted(inputs: seq<Input>, n: nat, cfg: Config, season: Quarter)
    requires n <= |inputs| && PowerLaw(cfg.pow)
    ensures var board := OfSeason(Run(inputs, n, cfg).ratings, season);
            TotalElo(board) == DEFAULT_ELO * |board| + PointsCreated(inputs, n, cfg, season)
    ensures PointsCreated(inputs, n, cfg, season) <= n
  {
    hide Process, Accepted, CreatesPoint, PowerLaw;
    if n > 0 {
      EloTotalIsAccounted(inputs, n - 1, cfg, season);
      var repo, input := Run(inputs, n - 1, cfg), inputs[n - 1];
      ProcessTotal(repo, input, cfg, season);
    }
  }

  lemma {:induction false} ProcessTotal(repo: Repo, input: Input, cfg: Config, season: Quarter)
    requires PowerLaw(cfg.pow)
    ensures var old_, new_ := OfSeason(repo.ratings, season), OfSeason(Process(repo, input, cfg).ratings, season);
      TotalElo(new_) - DEFAULT_ELO * |new_| == TotalElo(old_) - DEFAULT_ELO * |old_|
        + if Accepted(input.job) && SeasonOf(input.job) == season && CreatesPoint(repo, input, cfg) then 1 else 0
  {
    if Accepted(input.job) {
      var job := input.job;
      ProcessRatings(repo, input, cfg, season, "");
      var (a, b) := NewRatings(repo.ratings, input, cfg);
      var pa, pb := Current(repo.ratings, SeasonOf(job), PlayerA(job)),
          Current(repo.ratings, SeasonOf(job), PlayerB(job));
      ScoresAddUp(job);
      EloPointsConserved(pa.elo, pb.elo, ScoreFor(job.winnerUid, PlayerA(job)), ScoreFor(job.winnerUid, PlayerB(job)),
          cfg.kFactor, cfg.pow);
      assert a.elo + b.elo == pa.elo + pb.elo + if CreatesPoint(repo, input, cfg) then 1 else 0 by {
        hide Dedupe, Find, ScoreFor, IsHalf, Delta, NewRating;
      }
      hide NewRatings, NewRating, CreatesPoint, PowerLaw, ScoreFor, Dedupe, ValidateJob, Find, EnsureSeason,
        SortRatings, Put;
      TotalAfterTwo(repo.ratings, a, b, season);
      TotalAfterTwo(repo.ratings, b, a, season);
    }
  }

  // ------------------------------------------------- seasons and leaderboards

  lemma {:induction false} DistinctInSeason(ratings: seq<RatingEntry>, season: Quarter)
    requires DistinctPlayers(ratings)
    ensures DistinctUids(OfSeason(ratings, season))
    ensures forall r | r in OfSeason(ratings, season) :: r in ratings && r.season == season
  {
    if ratings != [] {
      DistinctInSeason(ratings[1..], season);
    }
  }

  ghost predicate Orderly(repo: Repo, cfg: Config) {
    && AtMostOneActive(repo.seasons) && DistinctPlayers(repo.ratings)
    && forall s | s in repo.leaderboards :: IsRanking(repo.leaderboards[s], OfSeason(repo.ratings, s), cfg.lt)
  }

  lemma {:induction false} ProcessKeepsOrder(repo: Repo, input: Input, cfg: Config)
    requires Orderly(repo, cfg) && PowerLaw(cfg.pow) && TotalOrder(cfg.lt)
    ensures Orderly(Process(repo, input, cfg), cfg)
    ensures forall s | s in repo.seasons && repo.seasons[s].Archived? ::
      s in Process(repo, input, cfg).seasons && Process(repo, input, cfg).seasons[s].Archived?
  {
    if Accepted(input.job) {
      var season, after := SeasonOf(input.job), Process(repo, input, cfg);
      var (a, b) := NewRatings(repo.ratings, input, cfg);
      ProcessRatings(repo, input, cfg, season, "");
      SeasonLaws(repo.seasons, season);
      PutKeepsDistinct(repo.ratings, a);
      PutKeepsDistinct(Put(repo.ratings, a), b);
      PutKeepsDistinct(repo.ratings, b);
      PutKeepsDistinct(Put(repo.ratings, b), a);
      hide NewRatings, Put, EnsureSeason, SortRatings, IsRanking, DistinctPlayers, Dedupe, PowerLaw, TotalOrder,
        AtMostOneActive;
      DistinctInSeason(after.ratings, season);
      SortRanks(OfSeason(after.ratings, season), cfg.lt);
      forall s | s in after.leaderboards && s != season
        ensures OfSeason(after.ratings, s) == OfSeason(repo.ratings, s)
      {
        TotalAfterTwo(repo.ratings, a, b, s);
        TotalAfterTwo(repo.ratings, b, a, s);
      }
    }
  }

  /**
   * After any run at most one season is active, seasons once archived stay archived, and every saved
   * leaderboard is the one ranking of the current ratings of its season.
   */
  lemma {:induction false} RunIsOrderly(inputs: seq<Input>, i: nat, n: nat, cfg: Config)
    requires i <= n <= |inputs| && PowerLaw(cfg.pow) && TotalOrder(cfg.lt)
    ensures Orderly(Run(inputs, n, cfg), cfg)
    ensures forall s | s in Run(inputs, i, cfg).seasons && Run(inputs, i, cfg).seasons[s].Archived? ::
      s in Run(inputs, n, cfg).seasons && Run(inputs, n, cfg).seasons[s].Archived?
    decreases n
  {
    hide Process, IsRanking, PowerLaw, TotalOrder;
    if n > 0 {
      if i < n {
        RunIsOrderly(inputs, i, n - 1, cfg);
      } else {
        RunIsOrderly(inputs, n - 1, n - 1, cfg);
      }
      ProcessKeepsOrder(Run(inputs, n - 1, cfg), inputs[n - 1], cfg);
    }
  }

  /** Any other strict ranking of the same ratings is the saved leaderboard itself. */
  lemma {:induction false} LeaderboardIsUnique(inputs: seq<Input>, n: nat, cfg: Config, season: Quarter,
                                               board: seq<RatingEntry>)
    requires n <= |inputs| && PowerLaw(cfg.pow) && TotalOrder(cfg.lt)
    requires season in Run(inputs, n, cfg).leaderboards
      && IsRanking(board, OfSeason(Run(inputs, n, cfg).ratings, season), cfg.lt)
    ensures board == Run(inputs, n, cfg).leaderboards[season]
  {
    hide Run, Ranked, TotalOrder, PowerLaw;
    RunIsOrderly(inputs, n, n, cfg);
    RankingIsUnique(board, Run(inputs, n, cfg).leaderboards[season], cfg.lt);
  }
}
