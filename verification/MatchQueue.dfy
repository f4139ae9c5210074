/** The matchmaking queue: entries, active pointers and per-game lists in Redis. */
module MatchQueue {
  import opened Text
  import opened Wrappers
  import opened Pairing

  const QUEUE_ENTRY_TTL_MS := 24 * 60 * 60 * 1000
  const MATCHED_ENTRY_TTL_MS := 60 * 60 * 1000

  datatype StoredEntry = StoredEntry(entry: Entry, expiresAtMs: int)

  datatype Pointer = Pointer(entryId: string, expiresAtMs: int)

  datatype Key = Key(uid: string, gameId: string)

  datatype Queue = Queue(entries: map<string, StoredEntry>, active: map<Key, Pointer>, lists: map<string, seq<string>>)

  // ----------------------------------------------------------------- reading

  function ListOf(q: Queue, gameId: string): seq<string> {
    if gameId in q.lists then q.lists[gameId] else []
  }

  /** An expired key reads as missing. */
  function GetEntry(q: Queue, entryId: string, nowMs: int): Option<Entry> {
    if entryId in q.entries && nowMs < q.entries[entryId].expiresAtMs then Some(q.entries[entryId].entry) else None
  }

  function ActiveEntry(q: Queue, uid: string, gameId: string, nowMs: int): Option<Entry> {
    var key := Key(uid, gameId);
    if key in q.active && nowMs < q.active[key].expiresAtMs then GetEntry(q, q.active[key].entryId, nowMs) else None
  }

  /** The entries behind the ids that are live and still waiting. */
  function Collect(q: Queue, ids: seq<string>, nowMs: int): seq<Entry> {
    if ids == [] then [] else
    var e := GetEntry(q, ids[0], nowMs);
    (if e.Some? && e.value.status.Queued? then [e.value] else []) + Collect(q, ids[1..], nowMs)
  }

  /** `localeCompare` on entry ids, as a parameter. */
  type IdOrder = (string, string) -> bool

  predicate Before(a: Entry, b: Entry, lt: IdOrder) {
    if a.queuedAtMs != b.queuedAtMs then a.queuedAtMs < b.queuedAtMs else lt(a.entryId, b.entryId)
  }

  function InsertEntry(e: Entry, sorted: seq<Entry>, lt: IdOrder): seq<Entry> {
    if sorted != [] && Before(sorted[0], e, lt) then [sorted[0]] + InsertEntry(e, sorted[1..], lt) else [e] + sorted
  }

  function SortEntries(entries: seq<Entry>, lt: IdOrder): seq<Entry> {
    if entries == [] then [] else InsertEntry(entries[0], SortEntries(entries[1..], lt), lt)
  }

  function ListQueued(q: Queue, gameId: string, nowMs: int, lt: IdOrder): seq<Entry> {
    SortEntries(Collect(q, ListOf(q, gameId), nowMs), lt)
  }

  // ----------------------------------------------------------------- writing

  /** LREM with count 0. */
  function RemoveAll(list: seq<string>, id: string): (r: seq<string>)
    ensures multiset(r) == multiset(list)[id := 0]
  {
    if list == [] then []
    else
      assert list == [list[0]] + list[1..];
      if list[0] == id then RemoveAll(list[1..], id) else [list[0]] + RemoveAll(list[1..], id)
  }

  function Remove(q: Queue, gameId: string, id: string): Queue {
    q.(lists := q.lists[gameId := RemoveAll(ListOf(q, gameId), id)])
  }

  function PutQueued(q: Queue, e: Entry, nowMs: int): Queue {
    var expires := nowMs + QUEUE_ENTRY_TTL_MS;
    Queue(q.entries[e.entryId := StoredEntry(e, expires)],
          q.active[Key(e.uid, e.gameId) := Pointer(e.entryId, expires)],
          q.lists[e.gameId := ListOf(q, e.gameId) + [e.entryId]])
  }

  function LeaveStep(q: Queue, uid: string, gameId: string, nowMs: int): Queue {
    var entry := ActiveEntry(q, uid, gameId, nowMs);
    if entry.None? then q else
    Remove(Queue(q.entries - {entry.value.entryId}, q.active - {Key(uid, gameId)}, q.lists), gameId,
        entry.value.entryId)
  }

  function PutMatched(q: Queue, e: Entry, matchId: string, nowMs: int): Queue {
    var expires := nowMs + MATCHED_ENTRY_TTL_MS;
    Remove(Queue(q.entries[e.entryId := StoredEntry(e.(status := Matched(matchId, nowMs)), expires)],
                 q.active[Key(e.uid, e.gameId) := Pointer(e.entryId, expires)],
                 q.lists), e.gameId, e.entryId)
  }

  function CreateMatch(q: Queue, left: Entry, right: Entry, matchId: string, nowMs: int): Queue {
    PutMatched(PutMatched(q, left, matchId, nowMs), right, matchId, nowMs)
  }

  function CreateAll(q: Queue, entries: seq<Entry>, pairs: seq<Pair>, matchIds: seq<string>, nowMs: int): Queue
    requires |pairs| <= |matchIds|
  {
    if pairs == [] then q else
    var n := |pairs| - 1;
    var before := CreateAll(q, entries, pairs[..n], matchIds, nowMs);
    if ValidPair(entries, pairs[n]) then
      CreateMatch(before, entries[pairs[n].left], entries[pairs[n].right], matchIds[n], nowMs)
    else before
  }

  ghost function PassPairs(q: Queue, gameId: string, nowMs: int, lt: IdOrder): seq<Pair> {
    PairsFrom(ListQueued(q, gameId, nowMs, lt), 0, {}, nowMs)
  }

  /** One pass; the engine starts as many matches as there are ids in `matchIds` and then fails. */
  ghost function ProcessStep(q: Queue, gameId: string, matchIds: seq<string>, nowMs: int, lt: IdOrder): Queue {
    var pairs := PassPairs(q, gameId, nowMs, lt);
    var made := if |pairs| <= |matchIds| then |pairs| else |matchIds|;
    CreateAll(q, ListQueued(q, gameId, nowMs, lt), pairs[..made], matchIds, nowMs)
  }

  // ------------------------------------------------------------------ service

  datatype QueueError = InvalidInput | EngineUnavailable | NotPersisted

  datatype EnqueueInput = EnqueueInput(uid: string, gameId: string, agentId: string, ratingRange: Option<RatingRange>)

  predicate ValidInput(input: EnqueueInput) {
    && Trim(input.uid) != "" && Trim(input.gameId) != "" && Trim(input.agentId) != ""
    && (input.ratingRange.Some? ==> input.ratingRange.value.min <= input.ratingRange.value.max)
  }

  function NewEntry(input: EnqueueInput, entryId: string, rating: real, nowMs: int): Entry {
    Entry(entryId, input.uid, input.gameId, input.agentId, rating, nowMs, Queued, input.ratingRange)
  }

  ghost function EnqueueStep(q: Queue, input: EnqueueInput, entryId: string, rating: real, matchIds: seq<string>,
                             nowMs: int, lt: IdOrder): Queue
  {
    if !ValidInput(input) || ActiveEntry(q, input.uid, input.gameId, nowMs).Some? then q
    else ProcessStep(PutQueued(q, NewEntry(input, entryId, rating, nowMs), nowMs), input.gameId, matchIds, nowMs, lt)
  }

  lemma NextPaired(all: seq<Pair>, done: seq<Pair>, pair: Pair, rest: seq<Pair>)
    ensures all == done + ([pair] + rest) ==> all == (done + [pair]) + rest && all[..|done|] == done
  {
  }

  lemma NoneCreated(q: Queue, entries: seq<Entry>, matchIds: seq<string>, nowMs: int)
    ensures CreateAll(q, entries, [], matchIds, nowMs) == q
  {
  }

  lemma CreateOneMore(q: Queue, entries: seq<Entry>, done: seq<Pair>, pair: Pair, matchIds: seq<string>, nowMs: int)
    requires |done| < |matchIds| && ValidPair(entries, pair)
    ensures CreateAll(q, entries, done + [pair], matchIds, nowMs)
      == CreateMatch(CreateAll(q, entries, done, matchIds, nowMs), entries[pair.left], entries[pair.right],
          matchIds[|done|], nowMs)
  {
    hide CreateMatch;
    assert (done + [pair])[..|done|] == done;
  }

  class MatchQueueService {
    const localeCompare: IdOrder
    var entries: map<string, StoredEntry>
    var active: map<Key, Pointer>
    var lists: map<string, seq<string>>

    constructor (localeCompare: IdOrder)
      ensures this.localeCompare == localeCompare && State() == Queue(map[], map[], map[])
    {
      this.localeCompare := localeCompare;
      entries, active, lists := map[], map[], map[];
    }

    ghost function State(): Queue
      reads this
    {
      Queue(entries, active, lists)
    }

    method GetStatus(uid: string, gameId: string, nowMs: int) returns (entry: Option<Entry>)
      ensures entry == ActiveEntry(State(), uid, gameId, nowMs)
    {
      entry := ActiveEntry(Queue(entries, active, lists), uid, gameId, nowMs);
    }

    method Leave(uid: string, gameId: string, nowMs: int)
      modifies this
      ensures State() == LeaveStep(old(State()), uid, gameId, nowMs)
    {
      var entry := GetStatus(uid, gameId, nowMs);
      if entry.None? {
        return;
      }
      active := active - {Key(uid, gameId)};
      entries := entries - {entry.value.entryId};
      LRem(gameId, entry.value.entryId);
    }

    method LRem(gameId: string, entryId: string)
      modifies this`lists
      ensures State() == Remove(old(State()), gameId, entryId)
    {
      lists := lists[gameId := RemoveAll(if gameId in lists then lists[gameId] else [], entryId)];
    }

    method SetMatched(e: Entry, matchId: string, nowMs: int)
      modifies this
      ensures State() == PutMatched(old(State()), e, matchId, nowMs)
    {
      var expires := nowMs + MATCHED_ENTRY_TTL_MS;
      entries := entries[e.entryId := StoredEntry(e.(status := Matched(matchId, nowMs)), expires)];
      active := active[Key(e.uid, e.gameId) := Pointer(e.entryId, expires)];
      LRem(e.gameId, e.entryId);
    }

    method Enqueue(input: EnqueueInput, entryId: string, rating: real, matchIds: seq<string>, nowMs: int)
      returns (r: Result<Entry, QueueError>)
      modifies this
      ensures State() == EnqueueStep(old(State()), input, entryId, rating, matchIds, nowMs, localeCompare)
      ensures r ==
        var before, after := old(State()), ActiveEntry(State(), input.uid, input.gameId, nowMs);
        if !ValidInput(input) then Err(InvalidInput)
        else if ActiveEntry(before, input.uid, input.gameId, nowMs).None?
          && |matchIds| < |PassPairs(PutQueued(before, NewEntry(input, entryId, rating, nowMs), nowMs), input.gameId,
                                     nowMs, localeCompare)|
        then Err(EngineUnavailable)
        else if after.None? then Err(NotPersisted)
        else Ok(after.value)
      ensures r == Err(InvalidInput) <==>
        || Trim(input.uid) == "" || Trim(input.gameId) == "" || Trim(input.agentId) == ""
        || (input.ratingRange.Some? && input.ratingRange.value.max < input.ratingRange.value.min)
    {
      if !ValidInput(input) {
        return Err(InvalidInput);
      }
      var existing := GetStatus(input.uid, input.gameId, nowMs);
      if existing.Some? {
        return Ok(existing.value);
      }
      var entry := NewEntry(input, entryId, rating, nowMs);
      var expires := nowMs + QUEUE_ENTRY_TTL_MS;
      entries := entries[entryId := StoredEntry(entry, expires)];
      active := active[Key(input.uid, input.gameId) := Pointer(entryId, expires)];
      lists := lists[input.gameId := (if input.gameId in lists then lists[input.gameId] else []) + [entryId]];
      var processed := ProcessQueue(input.gameId, matchIds, nowMs);
      if processed.Err? {
        return Err(processed.error);
      }
      var current := GetStatus(input.uid, input.gameId, nowMs);
      if current.None? {
        return Err(NotPersisted);
      }
      r := Ok(current.value);
    }

    method ProcessQueue(gameId: string, matchIds: seq<string>, nowMs: int) returns (r: Result<(), QueueError>)
      modifies this
      ensures State() == ProcessStep(old(State()), gameId, matchIds, nowMs, localeCompare)
      ensures r == if |PassPairs(old(State()), gameId, nowMs, localeCompare)| <= |matchIds| then Ok(())
        else Err(EngineUnavailable)
    {
      hide IsBest, CreateMatch, CreateAll, Best, CanMatch, ListQueued;
      ghost var start := State();
      var queued := ListQueued(Queue(entries, active, lists), gameId, nowMs, localeCompare);
      ghost var all := PairsFrom(queued, 0, {}, nowMs);
      ghost var done: seq<Pair> := [];
      NoneCreated(start, queued, matchIds, nowMs);
      var matchedEntryIds: set<string> := {};
      var made := 0;
      for index := 0 to |queued|
        invariant made == |done| <= |matchIds|
        invariant done + PairsFrom(queued, index, matchedEntryIds, nowMs) == all
        invariant State() == CreateAll(start, queued, done, matchIds, nowMs)
      {
        var current := queued[index];
        if current.entryId in matchedEntryIds {
          continue;
        }
        var bestCandidate := BestCandidate(queued, index, matchedEntryIds, nowMs);
        BestIsBest(queued, index, bestCandidate, matchedEntryIds, nowMs);
        if bestCandidate.None? {
          continue;
        }
        var best := queued[bestCandidate.value];
        ghost var pair := Pair(index, bestCandidate.value);
        ghost var rest := PairsFrom(queued, index + 1, matchedEntryIds + {current.entryId, best.entryId}, nowMs);
        NextPaired(all, done, pair, rest);
        if made == |matchIds| {
          return Err(EngineUnavailable);
        }
        CreateOneMore(start, queued, done, pair, matchIds, nowMs);
        SetBoth(current, best, matchIds[made], nowMs);
        done := done + [pair];
        made := made + 1;
        matchedEntryIds := matchedEntryIds + {current.entryId, best.entryId};
      }
      assert all == done && all[..|all|] == all;
      r := Ok(());
    }

    method SetBoth(left: Entry, right: Entry, matchId: string, nowMs: int)
      modifies this
      ensures State() == CreateMatch(old(State()), left, right, matchId, nowMs)
    {
      SetMatched(left, matchId, nowMs);
      SetMatched(right, matchId, nowMs);
    }
  }
}
