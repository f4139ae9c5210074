/** Which queue entries may play each other, and the greedy pass that pairs them. */
module Pairing {
  import opened Wrappers

  const INITIAL_RATING_WINDOW := 200.0
  const EXPANDED_RATING_WINDOW := 400.0
  const EXPANSION_THRESHOLD_SECONDS := 30
  const SECOND_EXPANSION_THRESHOLD_SECONDS := 60

  datatype RatingRange = RatingRange(min: real, max: real)

  datatype Status = Queued | Matched(matchId: string, matchedAtMs: int)

  datatype Entry = Entry(
    entryId: string, uid: string, gameId: string, agentId: string, rating: real,
    queuedAtMs: int, status: Status, ratingRange: Option<RatingRange>)

  /** `None` is the unlimited window. */
  function ExpandedRatingWindow(waitedSeconds: int): Option<real> {
    if waitedSeconds >= SECOND_EXPANSION_THRESHOLD_SECONDS then None
    else if waitedSeconds >= EXPANSION_THRESHOLD_SECONDS then Some(EXPANDED_RATING_WINDOW)
    else Some(INITIAL_RATING_WINDOW)
  }

  function Max(a: int, b: int): int {
    if a < b then b else a
  }

  /** The division floors, also for an entry queued in the future. */
  function EffectiveRatingWindow(entry: Entry, nowMs: int): Option<real> {
    ExpandedRatingWindow(Max(0, (nowMs - entry.queuedAtMs) / 1000))
  }

  predicate Within(diff: real, window: Option<real>) {
    window.None? || diff <= window.value
  }

  predicate IsWithinRequestedRange(entry: Entry, opponentRating: real) {
    entry.ratingRange.None? || entry.ratingRange.value.min <= opponentRating <= entry.ratingRange.value.max
  }

  function Diff(left: Entry, right: Entry): real {
    if left.rating < right.rating then right.rating - left.rating else left.rating - right.rating
  }

  predicate CanMatch(left: Entry, right: Entry, nowMs: int) {
    && left.uid != right.uid
    && Within(Diff(left, right), EffectiveRatingWindow(left, nowMs))
    && Within(Diff(left, right), EffectiveRatingWindow(right, nowMs))
    && IsWithinRequestedRange(left, right.rating)
    && IsWithinRequestedRange(right, left.rating)
  }

  /** The rating is one that the entry asked for, if it asked for any. */
  ghost predicate Wants(entry: Entry, rating: real) {
    match entry.ratingRange
    case None => true
    case Some(range) => rating >= range.min && rating <= range.max
  }

  /**
   * Who may play whom, in milliseconds and rating points: different users, each within the range that the other asked
   * for, at most 200 points apart until both have waited half a minute and at most 400 until both have waited a minute.
   */
  ghost predicate MayPlay(a: Entry, b: Entry, nowMs: int) {
    var waited := if nowMs - a.queuedAtMs < nowMs - b.queuedAtMs then nowMs - a.queuedAtMs else nowMs - b.queuedAtMs;
    && a.uid != b.uid && Wants(a, b.rating) && Wants(b, a.rating)
    && (waited < 30000 ==> -200.0 <= a.rating - b.rating <= 200.0)
    && (waited < 60000 ==> -400.0 <= a.rating - b.rating <= 400.0)
  }

  lemma WindowOf(entry: Entry, nowMs: int, diff: real)
    ensures Within(diff, EffectiveRatingWindow(entry, nowMs)) <==>
      && (nowMs - entry.queuedAtMs < 30000 ==> diff <= 200.0)
      && (nowMs - entry.queuedAtMs < 60000 ==> diff <= 400.0)
  {
    var waited := nowMs - entry.queuedAtMs;
    assert waited / 1000 < 30 <==> waited < 30000;
    assert waited / 1000 < 60 <==> waited < 60000;
  }

  /** The test of the queue service, with its windows in floored seconds, is exactly that. */
  lemma {:induction false} CanMatchMeansMayPlay(left: Entry, right: Entry, nowMs: int)
    ensures CanMatch(left, right, nowMs) <==> MayPlay(left, right, nowMs)
  {
    WindowOf(left, nowMs, Diff(left, right));
    WindowOf(right, nowMs, Diff(left, right));
    hide EffectiveRatingWindow, Within;
  }

  /** Compatibility is symmetric and, once reached, is not lost by waiting longer. */
  lemma CompatibilityLaws(left: Entry, right: Entry, nowMs: int, laterMs: int)
    ensures CanMatch(left, right, nowMs) <==> CanMatch(right, left, nowMs)
    ensures nowMs <= laterMs && CanMatch(left, right, nowMs) ==> CanMatch(left, right, laterMs)
  {
    if nowMs <= laterMs {
      WindowGrows(left, nowMs, laterMs);
      WindowGrows(right, nowMs, laterMs);
    }
  }

  lemma WindowGrows(entry: Entry, nowMs: int, laterMs: int)
    requires nowMs <= laterMs
    ensures forall diff: real :: Within(diff, EffectiveRatingWindow(entry, nowMs)) ==>
      Within(diff, EffectiveRatingWindow(entry, laterMs))
  {
    assert (nowMs - entry.queuedAtMs) / 1000 <= (laterMs - entry.queuedAtMs) / 1000;
  }

  // ------------------------------------------------------------ choosing a partner

  /** A later entry that is still free and may play the current one. */
  predicate Candidate(entries: seq<Entry>, current: nat, k: nat, matched: set<string>, nowMs: int)
    requires current < |entries| && k < |entries|
  {
    current < k && entries[k].entryId !in matched && CanMatch(entries[current], entries[k], nowMs)
  }

  /** `a` is preferred to `b`: smaller rating difference, then earlier queue time, then earlier position. */
  predicate Preferred(entries: seq<Entry>, current: nat, a: nat, b: nat)
    requires current < |entries| && a < |entries| && b < |entries|
  {
    var (da, db) := (Diff(entries[current], entries[a]), Diff(entries[current], entries[b]));
    || da < db
    || (da == db && entries[a].queuedAtMs < entries[b].queuedAtMs)
    || (da == db && entries[a].queuedAtMs == entries[b].queuedAtMs && a <= b)
  }

  /** The best candidate before position `limit`. */
  ghost predicate IsBest(entries: seq<Entry>, current: nat, best: Option<nat>, matched: set<string>, nowMs: int,
                         limit: nat)
    requires current < |entries| && limit <= |entries|
  {
    match best
    case None => forall j: nat | j < limit :: !Candidate(entries, current, j, matched, nowMs)
    case Some(k) =>
      k < limit && Candidate(entries, current, k, matched, nowMs)
      && forall j: nat | j < limit && Candidate(entries, current, j, matched, nowMs) ::
          Preferred(entries, current, k, j)
  }

  lemma BestIsUnique(entries: seq<Entry>, current: nat, a: Option<nat>, b: Option<nat>, matched: set<string>,
                     nowMs: int, limit: nat)
    requires current < |entries| && limit <= |entries|
    requires IsBest(entries, current, a, matched, nowMs, limit) && IsBest(entries, current, b, matched, nowMs, limit)
    ensures a == b
  {
    hide CanMatch, Diff;
  }

  method BestCandidate(entries: seq<Entry>, index: nat, matchedEntryIds: set<string>, nowMs: int)
    returns (best: Option<nat>)
    requires index < |entries|
    ensures IsBest(entries, index, best, matchedEntryIds, nowMs, |entries|)
  {
    hide CanMatch;
    best := None;
    var bestDiff := 0.0;
    for candidateIndex := index + 1 to |entries|
      invariant IsBest(entries, index, best, matchedEntryIds, nowMs, candidateIndex)
      invariant best.Some? ==> bestDiff == Diff(entries[index], entries[best.value])
    {
      var candidate := entries[candidateIndex];
      if candidate.entryId in matchedEntryIds {
        continue;
      }
      if !CanMatch(entries[index], candidate, nowMs) {
        continue;
      }
      var diff := Diff(entries[index], candidate);
      if best.None? || diff < bestDiff || (diff == bestDiff && candidate.queuedAtMs < entries[best.value].queuedAtMs) {
        best := Some(candidateIndex);
        bestDiff := diff;
      }
    }
  }

  // -------------------------------------------------------------------- the pass

  datatype Pair = Pair(left: nat, right: nat)

  ghost function Best(entries: seq<Entry>, current: nat, matched: set<string>, nowMs: int): Option<nat>
    requires current < |entries|
  {
    if best: Option<nat> :| IsBest(entries, current, best, matched, nowMs, |entries|) then best else None
  }

  /** The pairs chosen from position `index` on, when the entries in `matched` are taken. */
  ghost function PairsFrom(entries: seq<Entry>, index: nat, matched: set<string>, nowMs: int): seq<Pair>
    requires index <= |entries|
    decreases |entries| - index
  {
    if index == |entries| then []
    else if entries[index].entryId in matched || Best(entries, index, matched, nowMs).None?
         || Best(entries, index, matched, nowMs).value >= |entries| then
      PairsFrom(entries, index + 1, matched, nowMs)
    else
      var k := Best(entries, index, matched, nowMs).value;
      [Pair(index, k)] + PairsFrom(entries, index + 1, matched + {entries[index].entryId, entries[k].entryId}, nowMs)
  }

  lemma BestIsBest(entries: seq<Entry>, current: nat, best: Option<nat>, matched: set<string>, nowMs: int)
    requires current < |entries| && IsBest(entries, current, best, matched, nowMs, |entries|)
    ensures Best(entries, current, matched, nowMs) == best && (best.Some? ==> current < best.value < |entries|)
  {
    BestIsUnique(entries, current, best, Best(entries, current, matched, nowMs), matched, nowMs, |entries|);
  }

  // ------------------------------------------------------- what the pass achieves

  predicate ValidPair(entries: seq<Entry>, p: Pair) {
    p.left < p.right < |entries|
  }

  function Ids(entries: seq<Entry>, p: Pair): set<string> {
    if ValidPair(entries, p) then {entries[p.left].entryId, entries[p.right].entryId} else {}
  }

  /** The ids of the entries that are paired. */
  function Taken(entries: seq<Entry>, pairs: seq<Pair>): set<string> {
    if pairs == [] then {} else Ids(entries, pairs[0]) + Taken(entries, pairs[1..])
  }

  lemma {:induction false} TakenContains(entries: seq<Entry>, pairs: seq<Pair>, a: nat)
    requires a < |pairs|
    ensures Ids(entries, pairs[a]) <= Taken(entries, pairs)
  {
    if a > 0 {
      TakenContains(entries, pairs[1..], a - 1);
    }
  }

  /** Pairs are ordered, compatible, free of `matched`, and no entry is in two of them. */
  ghost predicate IsMatching(entries: seq<Entry>, pairs: seq<Pair>, matched: set<string>, nowMs: int) {
    && (forall p | p in pairs :: ValidPair(entries, p) && CanMatch(entries[p.left], entries[p.right], nowMs))
    && Taken(entries, pairs) !! matched
    && (forall a, b | 0 <= a < b < |pairs| :: Ids(entries, pairs[a]) !! Ids(entries, pairs[b]))
  }

  /** No two entries from `index` on, outside `avoid`, could be paired. */
  ghost predicate NoneLeft(entries: seq<Entry>, index: nat, avoid: set<string>, nowMs: int) {
    forall i, j | index <= i < j < |entries| && entries[i].entryId !in avoid && entries[j].entryId !in avoid ::
      !CanMatch(entries[i], entries[j], nowMs)
  }

  /** Chosen pairs form a matching, and of the entries left over from `index` on no two could have been paired. */
  lemma {:induction false} PassIsMaximalMatching(entries: seq<Entry>, index: nat, matched: set<string>, nowMs: int)
    requires index <= |entries|
    ensures var pairs := PairsFrom(entries, index, matched, nowMs);
            IsMatching(entries, pairs, matched, nowMs)
                && NoneLeft(entries, index, matched + Taken(entries, pairs), nowMs)
    decreases |entries| - index
  {
    hide CanMatch, Preferred, IsBest, IsMatching, Taken, NoneLeft;
    if index == |entries| {
      EmptyPass(entries, matched, nowMs);
    } else {
      var best := Best(entries, index, matched, nowMs);
      var skip := entries[index].entryId in matched || best.None? || best.value >= |entries|;
      var k := if skip then index else best.value;
      var taken := {entries[index].entryId, entries[k].entryId};
      if skip {
        PassIsMaximalMatching(entries, index + 1, matched, nowMs);
        if entries[index].entryId !in matched {
          NoCandidate(entries, index, matched, nowMs);
        }
        SkipEntry(entries, index, matched, matched + Taken(entries, PairsFrom(entries, index + 1, matched, nowMs)),
            nowMs);
      } else {
        BestIsCandidate(entries, index, matched, nowMs);
        PassIsMaximalMatching(entries, index + 1, matched + taken, nowMs);
        AddPair(entries, index, k, PairsFrom(entries, index + 1, matched + taken, nowMs), matched, nowMs);
      }
    }
  }

  /** In the terms of the players: pairs may play each other, and no two entries that were left over may. */
  lemma {:induction false} PassPairsFairly(entries: seq<Entry>, nowMs: int)
    ensures var pairs := PairsFrom(entries, 0, {}, nowMs);
      && (forall p | p in pairs ::
            p.left < p.right < |entries| && MayPlay(entries[p.left], entries[p.right], nowMs))
      && (forall i, j | 0 <= i < j < |entries|
            && entries[i].entryId !in Taken(entries, pairs) && entries[j].entryId !in Taken(entries, pairs) ::
            !MayPlay(entries[i], entries[j], nowMs))
  {
    hide CanMatch, MayPlay, PairsFrom, Taken;
    PassIsMaximalMatching(entries, 0, {}, nowMs);
    var pairs := PairsFrom(entries, 0, {}, nowMs);
    forall i, j | 0 <= i < |entries| && 0 <= j < |entries|
      ensures CanMatch(entries[i], entries[j], nowMs) <==> MayPlay(entries[i], entries[j], nowMs)
    {
      CanMatchMeansMayPlay(entries[i], entries[j], nowMs);
    }
    assert {} + Taken(entries, pairs) == Taken(entries, pairs);
  }

  lemma EmptyPass(entries: seq<Entry>, matched: set<string>, nowMs: int)
    ensures IsMatching(entries, [], matched, nowMs) && NoneLeft(entries, |entries|, matched + Taken(entries, []), nowMs)
  {
  }

  lemma SkipEntry(entries: seq<Entry>, index: nat, matched: set<string>, avoid: set<string>, nowMs: int)
    requires index < |entries| && matched <= avoid && NoneLeft(entries, index + 1, avoid, nowMs)
    requires entries[index].entryId in matched
      || forall j | index < j < |entries| && entries[j].entryId !in matched ::
          !CanMatch(entries[index], entries[j], nowMs)
    ensures NoneLeft(entries, index, avoid, nowMs)
  {
    hide CanMatch;
  }

  lemma AddPair(entries: seq<Entry>, index: nat, k: nat, rest: seq<Pair>, matched: set<string>, nowMs: int)
    requires index < k < |entries| && CanMatch(entries[index], entries[k], nowMs)
    requires entries[index].entryId !in matched && entries[k].entryId !in matched
    requires var taken := {entries[index].entryId, entries[k].entryId};
             IsMatching(entries, rest, matched + taken, nowMs)
             && NoneLeft(entries, index + 1, matched + taken + Taken(entries, rest), nowMs)
    ensures var pairs := [Pair(index, k)] + rest;
            IsMatching(entries, pairs, matched, nowMs)
                && NoneLeft(entries, index, matched + Taken(entries, pairs), nowMs)
  {
    hide CanMatch;
    var pairs := [Pair(index, k)] + rest;
    var taken := {entries[index].entryId, entries[k].entryId};
    assert pairs[1..] == rest && Taken(entries, pairs) == taken + Taken(entries, rest);
    forall a, b | 0 <= a < b < |pairs| ensures Ids(entries, pairs[a]) !! Ids(entries, pairs[b]) {
      TakenContains(entries, rest, b - 1);
    }
    assert matched + Taken(entries, pairs) == matched + taken + Taken(entries, rest);
  }

  lemma BestIsCandidate(entries: seq<Entry>, current: nat, matched: set<string>, nowMs: int)
    requires current < |entries|
    ensures var best := Best(entries, current, matched, nowMs);
            best.Some? && best.value < |entries| ==> Candidate(entries, current, best.value, matched, nowMs)
  {
    hide CanMatch, Preferred;
  }

  lemma NoCandidate(entries: seq<Entry>, current: nat, matched: set<string>, nowMs: int)
    requires current < |entries|
    requires var best := Best(entries, current, matched, nowMs); best.None? || best.value >= |entries|
    ensures forall j | current < j < |entries| && entries[j].entryId !in matched ::
      !CanMatch(entries[current], entries[j], nowMs)
  {
    hide CanMatch, Preferred;
    SomeBest(entries, current, matched, nowMs, |entries|);
    forall j | current < j < |entries| && entries[j].entryId !in matched
      ensures !CanMatch(entries[current], entries[j], nowMs)
    {
      assert !Candidate(entries, current, j, matched, nowMs);
    }
  }

  /** There is always a best candidate, or no candidate. */
  lemma {:induction false} SomeBest(entries: seq<Entry>, current: nat, matched: set<string>, nowMs: int, limit: nat)
    requires current < |entries| && limit <= |entries|
    ensures exists best: Option<nat> :: IsBest(entries, current, best, matched, nowMs, limit)
  {
    hide CanMatch, Diff;
    if limit == 0 {
      assert IsBest(entries, current, None, matched, nowMs, 0);
    } else {
      SomeBest(entries, current, matched, nowMs, limit - 1);
      var best: Option<nat> :| IsBest(entries, current, best, matched, nowMs, limit - 1);
      if !Candidate(entries, current, limit - 1, matched, nowMs)
          || (best.Some? && Preferred(entries, current, best.value, limit - 1)) {
        assert IsBest(entries, current, best, matched, nowMs, limit);
      } else {
        assert IsBest(entries, current, Some(limit - 1), matched, nowMs, limit);
      }
    }
  }

  /** Each partner is the best candidate among the entries that earlier pairs left free. */
  lemma {:induction false} PartnersAreBest(entries: seq<Entry>, index: nat, matched: set<string>, nowMs: int, a: nat)
    requires index <= |entries| && a < |PairsFrom(entries, index, matched, nowMs)|
    ensures var pairs := PairsFrom(entries, index, matched, nowMs);
      ValidPair(entries, pairs[a])
      && IsBest(entries, pairs[a].left, Some(pairs[a].right), matched + Taken(entries, pairs[..a]), nowMs, |entries|)
    decreases |entries| - index
  {
    hide CanMatch, Preferred, Diff;
    var pairs := PairsFrom(entries, index, matched, nowMs);
    var best := Best(entries, index, matched, nowMs);
    if entries[index].entryId in matched || best.None? || best.value >= |entries| {
      PartnersAreBest(entries, index + 1, matched, nowMs, a);
    } else {
      var k := best.value;
      var taken := {entries[index].entryId, entries[k].entryId};
      var rest := PairsFrom(entries, index + 1, matched + taken, nowMs);
      assert pairs == [Pair(index, k)] + rest;
      if a == 0 {
        assert matched + Taken(entries, pairs[..0]) == matched;
      } else {
        PartnersAreBest(entries, index + 1, matched + taken, nowMs, a - 1);
        assert pairs[..a] == [Pair(index, k)] + rest[..a - 1];
        assert pairs[..a][1..] == rest[..a - 1];
        assert (matched + taken) + Taken(entries, rest[..a - 1]) == matched + Taken(entries, pairs[..a]);
      }
    }
  }

  ghost predicate SortedByQueueTime(entries: seq<Entry>) {
    forall i, j | 0 <= i < j < |entries| :: entries[i].queuedAtMs <= entries[j].queuedAtMs
  }

  /** On a sorted list the queue-time tie-break decides nothing: preference is by rating difference, then position. */
  lemma TieBreakNeverDecides(entries: seq<Entry>, current: nat, a: nat, b: nat)
    requires SortedByQueueTime(entries) && current < |entries| && a < |entries| && b < |entries|
    ensures Preferred(entries, current, a, b) <==>
      (Diff(entries[current], entries[a]), a) == (Diff(entries[current], entries[b]), b)
      || Diff(entries[current], entries[a]) < Diff(entries[current], entries[b])
      || (Diff(entries[current], entries[a]) == Diff(entries[current], entries[b]) && a < b)
  {
    hide Diff;
    if a < b {
      assert entries[a].queuedAtMs <= entries[b].queuedAtMs;
    } else if b < a {
      assert entries[b].queuedAtMs <= entries[a].queuedAtMs;
    }
  }

  /** Two users without a requested range who have both waited a minute never both stay in the queue. */
  lemma LongWaitersAreServed(entries: seq<Entry>, nowMs: int, i: nat, j: nat)
    requires i < j < |entries| && entries[i].uid != entries[j].uid
    requires entries[i].ratingRange.None? && entries[j].ratingRange.None?
    requires nowMs - entries[i].queuedAtMs >= 60000 && nowMs - entries[j].queuedAtMs >= 60000
    ensures var taken := Taken(entries, PairsFrom(entries, 0, {}, nowMs));
            entries[i].entryId in taken || entries[j].entryId in taken
  {
    PassIsMaximalMatching(entries, 0, {}, nowMs);
    assert CanMatch(entries[i], entries[j], nowMs);
  }
}
