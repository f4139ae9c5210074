/** Elo ratings, seasons and leaderboards. */
module Rating {
  import opened Wrappers

  const DEFAULT_ELO := 1500

  // ---------------------------------------------------------------------- Elo

  /** `Math.round`: halves go up. */
  function Round(x: real): int {
    (x + 0.5).Floor
  }

  /** `pow(d)` stands for 10 to the power d/400. */
  type Power = int -> real

  ghost predicate PowerLaw(pow: Power) {
    forall d :: pow(d) > 0.0 && pow(-d) * pow(d) == 1.0
  }

  function ExpectedScore(rating: int, opponent: int, pow: Power): real
    requires 1.0 + pow(opponent - rating) != 0.0
  {
    1.0 / (1.0 + pow(opponent - rating))
  }

  function NewRating(rating: int, opponent: int, score: real, kFactor: real, pow: Power): int
    requires 1.0 + pow(opponent - rating) != 0.0
  {
    Round(rating as real + kFactor * (score - ExpectedScore(rating, opponent, pow)))
  }

  /** Exact halves do occur: a decisive result between equal ratings creates a point for every odd K factor. */
  lemma {:induction false} OddFactorCreatesPoint(a: int, kFactor: int, pow: Power)
    requires PowerLaw(pow) && kFactor % 2 == 1
    ensures 1.0 + pow(a - a) != 0.0 && IsHalf(Delta(a, a, 1.0, kFactor as real, pow))
    ensures NewRating(a, a, 1.0, kFactor as real, pow) + NewRating(a, a, 0.0, kFactor as real, pow) == a + a + 1
  {
    ExpectationsAddUp(a, a, pow);
    EloPointsConserved(a, a, 1.0, 0.0, kFactor as real, pow);
    var k := kFactor / 2;
    assert ExpectedScore(a, a, pow) == 0.5;
    hide ExpectedScore, Round, NewRating;
    assert kFactor as real * (1.0 - 0.5) + 0.5 == (k + 1) as real;
  }

  /** The two expectations are complementary. */
  lemma ExpectationsAddUp(a: int, b: int, pow: Power)
    requires PowerLaw(pow)
    ensures 1.0 + pow(b - a) != 0.0 && 1.0 + pow(a - b) != 0.0
    ensures ExpectedScore(a, b, pow) + ExpectedScore(b, a, pow) == 1.0
  {
    var p, q := pow(b - a), pow(a - b);
    assert -(b - a) == a - b;
    assert q * p == 1.0 && p > 0.0 && q > 0.0;
    Complement(p, q);
  }

  lemma Complement(p: real, q: real)
    requires p > 0.0 && q > 0.0 && q * p == 1.0
    ensures 1.0 / (1.0 + p) + 1.0 / (1.0 + q) == 1.0
  {
    var x, y := 1.0 / (1.0 + p), 1.0 / (1.0 + q);
    assert x * (1.0 + p) == 1.0 && y * (1.0 + q) == 1.0;
    assert (1.0 + p) * (1.0 + q) == 2.0 + p + q by {
      assert (1.0 + p) * (1.0 + q) == 1.0 + p + q + q * p;
    }
    assert (x + y) * ((1.0 + p) * (1.0 + q)) == (1.0 + q) + (1.0 + p) by {
      assert x * ((1.0 + p) * (1.0 + q)) == (x * (1.0 + p)) * (1.0 + q);
      assert y * ((1.0 + p) * (1.0 + q)) == (y * (1.0 + q)) * (1.0 + p);
    }
    Cancel(x + y, 2.0 + p + q);
  }

  lemma Cancel(z: real, d: real)
    requires d > 0.0 && z * d == d
    ensures z == 1.0
  {
    assert (z - 1.0) * d == 0.0;
  }

  /** A change that lies exactly between two integers. */
  predicate IsHalf(delta: real) {
    (delta + 0.5).Floor as real == delta + 0.5
  }

  lemma RoundShift(n: int, delta: real)
    ensures Round(n as real + delta) == n + Round(delta)
  {
  }

  lemma OppositeRoundings(delta: real)
    ensures Round(delta) + Round(-delta) == if IsHalf(delta) then 1 else 0
  {
  }

  function Delta(a: int, b: int, scoreA: real, kFactor: real, pow: Power): real
    requires 1.0 + pow(b - a) != 0.0
  {
    kFactor * (scoreA - ExpectedScore(a, b, pow))
  }

  /** One match moves points between the players, except that an exact half creates one. */
  lemma {:induction false} EloPointsConserved(a: int, b: int, scoreA: real, scoreB: real, kFactor: real, pow: Power)
    requires PowerLaw(pow) && scoreA + scoreB == 1.0
    ensures 1.0 + pow(b - a) != 0.0 && 1.0 + pow(a - b) != 0.0
    ensures NewRating(a, b, scoreA, kFactor, pow) + NewRating(b, a, scoreB, kFactor, pow)
         == a + b + if IsHalf(Delta(a, b, scoreA, kFactor, pow)) then 1 else 0
  {
    ExpectationsAddUp(a, b, pow);
    var delta := Delta(a, b, scoreA, kFactor, pow);
    var eA, eB := ExpectedScore(a, b, pow), ExpectedScore(b, a, pow);
    hide ExpectedScore, Round, IsHalf;
    assert scoreB - eB == -(scoreA - eA);
    assert kFactor * (scoreB - eB) == -delta by {
      assert kFactor * (-(scoreA - eA)) == -(kFactor * (scoreA - eA));
    }
    assert NewRating(a, b, scoreA, kFactor, pow) == Round(a as real + delta);
    assert NewRating(b, a, scoreB, kFactor, pow) == Round(b as real + (-delta));
    RoundShift(a, delta);
    RoundShift(b, -delta);
    OppositeRoundings(delta);
  }

  // ------------------------------------------------------------ who gains by a match

  /** A larger difference has a larger power. */
  ghost predicate Increasing(pow: Power) {
    forall d, e | d < e :: pow(d) < pow(e)
  }

  /** The powers that an expectation needs are positive. */
  lemma PowersArePositive(pow: Power)
    requires PowerLaw(pow)
    ensures forall d :: pow(d) > 0.0
  {
  }

  lemma FractionFalls(p: real, q: real)
    requires 0.0 < p <= q
    ensures 0.0 < 1.0 / (1.0 + q) <= 1.0 / (1.0 + p) < 1.0
  {
  }

  lemma ScaledOrder(k: real, x: real, y: real)
    requires k >= 0.0 && x <= y
    ensures k * x <= k * y
  {
    assert k * (y - x) >= 0.0;
  }

  lemma RoundOrder(n: int, x: real, y: real)
    requires x <= y
    ensures Round(n as real + x) <= Round(n as real + y)
    ensures Round(n as real) == n
  {
  }

  lemma ChangeOrder(n: int, k: real, x: real, y: real)
    requires k >= 0.0 && x <= y
    ensures Round(n as real + k * x) <= Round(n as real + k * y)
  {
    ScaledOrder(k, x, y);
    RoundOrder(n, k * x, k * y);
  }

  /** The more is scored and the stronger the opponent, the higher is the new rating. */
  lemma {:induction false} NewRatingOrder(a: int, weaker: int, stronger: int, less: real, more: real, k: real,
                                          pow: Power)
    requires PowerLaw(pow) && Increasing(pow) && k >= 0.0 && weaker <= stronger && less <= more
    ensures 1.0 + pow(weaker - a) != 0.0 && 1.0 + pow(stronger - a) != 0.0
    ensures NewRating(a, weaker, less, k, pow) <= NewRating(a, stronger, more, k, pow)
  {
    PowersArePositive(pow);
    FractionFalls(pow(weaker - a), pow(stronger - a));
    hide Round, PowerLaw, Increasing;
    ChangeOrder(a, k, less - ExpectedScore(a, weaker, pow), more - ExpectedScore(a, stronger, pow));
  }

  /** A winner never loses points and a loser never gains any; no match moves a rating by more than the factor. */
  lemma {:induction false} WinnerNeverLoses(a: int, b: int, k: real, pow: Power)
    requires PowerLaw(pow) && k >= 0.0
    ensures 1.0 + pow(b - a) != 0.0
    ensures a <= NewRating(a, b, 1.0, k, pow) <= Round(a as real + k)
    ensures Round(a as real - k) <= NewRating(a, b, 0.0, k, pow) <= a
  {
    PowersArePositive(pow);
    FractionFalls(pow(b - a), pow(b - a));
    hide PowerLaw;
    var e := ExpectedScore(a, b, pow);
    hide Round, ExpectedScore;
    ExtremeChanges(a, k);
    ChangeOrder(a, k, 0.0, 1.0 - e);
    ChangeOrder(a, k, 1.0 - e, 1.0);
    ChangeOrder(a, k, 0.0 - e, 0.0);
    ChangeOrder(a, k, -1.0, 0.0 - e);
  }

  lemma ExtremeChanges(n: int, k: real)
    ensures Round(n as real + k * 0.0) == n
    ensures Round(n as real + k * 1.0) == Round(n as real + k) && Round(n as real + k * -1.0) == Round(n as real - k)
  {
  }

  /** Between equal ratings half of the factor changes hands, and a draw changes nothing. */
  lemma {:induction false} EqualRatings(a: int, k: real, pow: Power)
    requires PowerLaw(pow)
    ensures 1.0 + pow(a - a) != 0.0
    ensures NewRating(a, a, 1.0, k, pow) == a + Round(k / 2.0)
    ensures NewRating(a, a, 0.0, k, pow) == a + Round(-(k / 2.0))
    ensures NewRating(a, a, 0.5, k, pow) == a
  {
    ExpectationsAddUp(a, a, pow);
    RoundOrder(a, 0.0, 0.0);
    hide Round, PowerLaw;
    assert ExpectedScore(a, a, pow) == 0.5;
    assert k * (1.0 - 0.5) == k / 2.0 && k * (0.0 - 0.5) == -(k / 2.0) && k * (0.5 - 0.5) == 0.0;
    RoundShift(a, k / 2.0);
    RoundShift(a, -(k / 2.0));
  }

  /** A draw moves the lower rating up and the higher one down, if it moves them at all. */
  lemma {:induction false} DrawsNarrowTheGap(a: int, b: int, k: real, pow: Power)
    requires PowerLaw(pow) && Increasing(pow) && k >= 0.0 && a <= b
    ensures 1.0 + pow(b - a) != 0.0 && 1.0 + pow(a - b) != 0.0
    ensures NewRating(a, b, 0.5, k, pow) >= a && NewRating(b, a, 0.5, k, pow) <= b
  {
    EqualRatings(a, k, pow);
    EqualRatings(b, k, pow);
    NewRatingOrder(a, a, b, 0.5, 0.5, k, pow);
    NewRatingOrder(b, a, b, 0.5, 0.5, k, pow);
  }

  // --------------------------------------------------------------- repository

  datatype Quarter = Quarter(year: int, quarter: int)

  datatype RatingEntry = RatingEntry(uid: string, season: Quarter, elo: int, matches: nat, winRate: real)

  datatype SeasonStatus = Scheduled | Active | Archived

  /** The repository's maps; ratings are listed in insertion order. */
  datatype Repo = Repo(
    ratings: seq<RatingEntry>, seasons: map<Quarter, SeasonStatus>, leaderboards: map<Quarter, seq<RatingEntry>>)

  predicate SameKey(r: RatingEntry, season: Quarter, uid: string) {
    r.season == season && r.uid == uid
  }

  function Find(ratings: seq<RatingEntry>, season: Quarter, uid: string): Option<RatingEntry> {
    if ratings == [] then None
    else if SameKey(ratings[0], season, uid) then Some(ratings[0])
    else Find(ratings[1..], season, uid)
  }

  function Put(ratings: seq<RatingEntry>, r: RatingEntry): seq<RatingEntry> {
    if ratings == [] then [r]
    else if SameKey(ratings[0], r.season, r.uid) then [r] + ratings[1..]
    else [ratings[0]] + Put(ratings[1..], r)
  }

  lemma {:induction false} FindAfterPut(ratings: seq<RatingEntry>, r: RatingEntry, season: Quarter, uid: string)
    ensures Find(Put(ratings, r), season, uid) == if SameKey(r, season, uid) then Some(r)
      else Find(ratings, season, uid)
  {
    if ratings != [] && !SameKey(ratings[0], r.season, r.uid) {
      FindAfterPut(ratings[1..], r, season, uid);
    }
  }

  function OfSeason(ratings: seq<RatingEntry>, season: Quarter): seq<RatingEntry> {
    if ratings == [] then []
    else if ratings[0].season == season then [ratings[0]] + OfSeason(ratings[1..], season)
    else OfSeason(ratings[1..], season)
  }

  function TotalElo(ratings: seq<RatingEntry>): int {
    if ratings == [] then 0 else ratings[0].elo + TotalElo(ratings[1..])
  }

  lemma TotalCons(r: RatingEntry, rest: seq<RatingEntry>)
    ensures TotalElo([r] + rest) == r.elo + TotalElo(rest)
  {
    assert ([r] + rest)[1..] == rest;
  }

  lemma {:induction false} TotalsAfterPut(ratings: seq<RatingEntry>, r: RatingEntry, season: Quarter)
    ensures var before := Find(ratings, r.season, r.uid);
      var old_, new_ := OfSeason(ratings, season), OfSeason(Put(ratings, r), season);
      if r.season != season then new_ == old_
      else if before.Some? then |new_| == |old_| && TotalElo(new_) == TotalElo(old_) + r.elo - before.value.elo
      else |new_| == |old_| + 1 && TotalElo(new_) == TotalElo(old_) + r.elo
  {
    if ratings == [] {
      TotalCons(r, []);
    } else {
      var rest := ratings[1..];
      TotalCons(ratings[0], OfSeason(rest, season));
      if SameKey(ratings[0], r.season, r.uid) {
        TotalCons(r, OfSeason(rest, season));
        assert Put(ratings, r)[1..] == rest;
      } else {
        TotalsAfterPut(rest, r, season);
        TotalCons(ratings[0], OfSeason(Put(rest, r), season));
        assert Put(ratings, r)[1..] == Put(rest, r);
      }
    }
  }

  predicate DistinctPlayers(ratings: seq<RatingEntry>) {
    forall i, j | 0 <= i < j < |ratings| :: !SameKey(ratings[i], ratings[j].season, ratings[j].uid)
  }

  lemma {:induction false} PutMembers(ratings: seq<RatingEntry>, r: RatingEntry)
    ensures forall x | x in Put(ratings, r) :: x in ratings || x == r
  {
    if ratings != [] && !SameKey(ratings[0], r.season, r.uid) {
      PutMembers(ratings[1..], r);
    }
  }

  lemma {:induction false} PutKeepsDistinct(ratings: seq<RatingEntry>, r: RatingEntry)
    requires DistinctPlayers(ratings)
    ensures DistinctPlayers(Put(ratings, r))
  {
    if ratings != [] && !SameKey(ratings[0], r.season, r.uid) {
      PutKeepsDistinct(ratings[1..], r);
      PutMembers(ratings[1..], r);
      forall x | x in Put(ratings[1..], r) ensures !SameKey(ratings[0], x.season, x.uid) {
      }
    }
  }

  // --------------------------------------------------------------- leaderboard

  type UidOrder = (string, string) -> bool

  ghost predicate TotalOrder(lt: UidOrder) {
    && (forall a, b :: lt(a, b) ==> !lt(b, a))
    && (forall a, b :: a != b ==> lt(a, b) || lt(b, a))
    && (forall a, b, c :: lt(a, b) && lt(b, c) ==> lt(a, c))
  }

  /** Higher rating first, then more matches, then the smaller uid. */
  predicate Ahead(a: RatingEntry, b: RatingEntry, lt: UidOrder) {
    if a.elo != b.elo then a.elo > b.elo
    else if a.matches != b.matches then a.matches > b.matches
    else lt(a.uid, b.uid)
  }

  function InsertRating(r: RatingEntry, sorted: seq<RatingEntry>, lt: UidOrder): (s: seq<RatingEntry>)
    ensures multiset(s) == multiset(sorted) + multiset{r}
  {
    if sorted == [] then [r]
    else
      assert sorted == [sorted[0]] + sorted[1..];
      if Ahead(sorted[0], r, lt) then [sorted[0]] + InsertRating(r, sorted[1..], lt) else [r] + sorted
  }

  function SortRatings(ratings: seq<RatingEntry>, lt: UidOrder): (s: seq<RatingEntry>)
    ensures multiset(s) == multiset(ratings)
  {
    if ratings == [] then []
    else
      assert ratings == [ratings[0]] + ratings[1..];
      InsertRating(ratings[0], SortRatings(ratings[1..], lt), lt)
  }

  /** What being ahead means to a reader of the board. */
  lemma BoardOrder(board: seq<RatingEntry>, lt: UidOrder, i: nat, j: nat)
    requires Ranked(board, lt) && i < j < |board|
    ensures board[i].elo >= board[j].elo
    ensures board[i].elo == board[j].elo ==> board[i].matches >= board[j].matches
    ensures board[i].elo == board[j].elo && board[i].matches == board[j].matches ==> lt(board[i].uid, board[j].uid)
  {
  }

  ghost predicate Ranked(board: seq<RatingEntry>, lt: UidOrder) {
    forall i, j | 0 <= i < j < |board| :: Ahead(board[i], board[j], lt)
  }

  /** The board lists the ratings in strict ranking order. */
  ghost predicate IsRanking(board: seq<RatingEntry>, ratings: seq<RatingEntry>, lt: UidOrder) {
    multiset(board) == multiset(ratings) && Ranked(board, lt)
  }

  lemma RankedCons(r: RatingEntry, rest: seq<RatingEntry>, lt: UidOrder)
    requires Ranked(rest, lt) && forall x | x in rest :: Ahead(r, x, lt)
    ensures Ranked([r] + rest, lt)
  {
    hide Ahead;
  }

  predicate DistinctUids(ratings: seq<RatingEntry>) {
    forall i, j | 0 <= i < j < |ratings| :: ratings[i].uid != ratings[j].uid
  }

  lemma {:induction false} InsertRanks(r: RatingEntry, sorted: seq<RatingEntry>, lt: UidOrder)
    requires TotalOrder(lt) && Ranked(sorted, lt) && forall x | x in sorted :: x.uid != r.uid
    ensures Ranked(InsertRating(r, sorted, lt), lt)
  {
    if sorted == [] {
    } else if Ahead(sorted[0], r, lt) {
      InsertRanks(r, sorted[1..], lt);
      var rest := InsertRating(r, sorted[1..], lt);
      forall x | x in rest ensures Ahead(sorted[0], x, lt) {
        assert x in multiset(rest);
      }
      RankedCons(sorted[0], rest, lt);
    } else {
      forall x | x in sorted ensures Ahead(r, x, lt) {
      }
      RankedCons(r, sorted, lt);
    }
  }

  lemma {:induction false} SortRanks(ratings: seq<RatingEntry>, lt: UidOrder)
    requires TotalOrder(lt) && DistinctUids(ratings)
    ensures IsRanking(SortRatings(ratings, lt), ratings, lt)
  {
    if ratings != [] {
      SortRanks(ratings[1..], lt);
      var rest := SortRatings(ratings[1..], lt);
      forall x | x in rest ensures x.uid != ratings[0].uid {
        assert x in multiset(rest) && x in multiset(ratings[1..]);
      }
      InsertRanks(ratings[0], rest, lt);
    }
  }

  /** There is only one ranking of given ratings. */
  lemma {:induction false} RankingIsUnique(a: seq<RatingEntry>, b: seq<RatingEntry>, lt: UidOrder)
    requires TotalOrder(lt) && Ranked(a, lt) && Ranked(b, lt) && multiset(a) == multiset(b)
    ensures a == b
  {
    hide Ahead, TotalOrder, Ranked;
    if a != [] {
      HeadsAgree(a, b, lt);
      Tail(a);
      Tail(b);
      RankedHead(a, lt);
      RankedHead(b, lt);
      RankingIsUnique(a[1..], b[1..], lt);
      SameFromHead(a, b);
    } else {
      Tail(b);
    }
  }

  lemma HeadsAgree(a: seq<RatingEntry>, b: seq<RatingEntry>, lt: UidOrder)
    requires TotalOrder(lt) && Ranked(a, lt) && Ranked(b, lt) && multiset(a) == multiset(b) && a != []
    ensures b != [] && a[0] == b[0]
  {
    hide Ahead, TotalOrder, Ranked;
    Tail(a);
    Tail(b);
    RankedHead(a, lt);
    RankedHead(b, lt);
    AheadIsAsymmetric(a[0], b[0], lt);
  }

  lemma SameFromHead(a: seq<RatingEntry>, b: seq<RatingEntry>)
    requires a != [] && b != [] && a[0] == b[0] && a[1..] == b[1..]
    ensures a == b
  {
    assert a == [a[0]] + a[1..] && b == [b[0]] + b[1..];
  }

  lemma Tail(a: seq<RatingEntry>)
    ensures a == [] <==> multiset(a) == multiset{}
    ensures a != [] ==> a[0] in multiset(a) && multiset(a[1..]) == multiset(a) - multiset{a[0]}
  {
    if a != [] {
      assert a == [a[0]] + a[1..];
    } else {
      assert multiset(a) == multiset{};
    }
  }

  lemma AheadIsAsymmetric(a: RatingEntry, b: RatingEntry, lt: UidOrder)
    requires TotalOrder(lt)
    ensures !(Ahead(a, b, lt) && Ahead(b, a, lt))
  {
  }

  lemma RankedHead(a: seq<RatingEntry>, lt: UidOrder)
    requires a != [] && Ranked(a, lt)
    ensures forall x | x in multiset(a) :: x == a[0] || Ahead(a[0], x, lt)
    ensures Ranked(a[1..], lt)
  {
    hide Ahead;
    forall x | x in multiset(a) ensures x == a[0] || Ahead(a[0], x, lt) {
      assert x in a;
    }
  }
}
