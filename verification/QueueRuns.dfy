/** What any run of enqueue, leave and matchmaking steps keeps true of the three queue structures. */
module QueueRuns {
  import opened Wrappers
  import opened Pairing
  import opened MatchQueue

  // -------------------------------------------------------------- the invariant

  ghost predicate InList(q: Queue, gameId: string, id: string) {
    id in multiset(ListOf(q, gameId))
  }

  ghost predicate Waiting(q: Queue, id: string, nowMs: int) {
    id in q.entries && nowMs < q.entries[id].expiresAtMs && q.entries[id].entry.status.Queued?
  }

  /** A waiting entry is in its game's list once and is the active entry of its user, for just as long as it lives. */
  ghost predicate WaitingOk(q: Queue, id: string)
    requires id in q.entries
  {
    var s := q.entries[id];
    var key := Key(s.entry.uid, s.entry.gameId);
    && multiset(ListOf(q, s.entry.gameId))[id] == 1
    && key in q.active && q.active[key] == Pointer(id, s.expiresAtMs)
  }

  ghost predicate EntryOk(q: Queue, id: string)
    requires id in q.entries
  {
    var e := q.entries[id].entry;
    && e.entryId == id
    && (forall g | InList(q, g, id) :: g == e.gameId)
    && (e.status.Matched? ==> forall g :: !InList(q, g, id))
  }

  ghost predicate PointersOk(q: Queue) {
    forall k | k in q.active && q.active[k].entryId in q.entries ::
      q.entries[q.active[k].entryId].entry.uid == k.uid && q.entries[q.active[k].entryId].entry.gameId == k.gameId
  }

  ghost predicate MatchedAs(q: Queue, id: string, matchId: string) {
    id in q.entries && q.entries[id].entry.status.Matched? && q.entries[id].entry.status.matchId == matchId
  }

  /** A match has at most two entries, of different users. */
  ghost predicate MatchesOk(q: Queue) {
    && (forall a, b, m | MatchedAs(q, a, m) && MatchedAs(q, b, m) && a != b ::
        q.entries[a].entry.uid != q.entries[b].entry.uid)
    && (forall a, b, c, m | MatchedAs(q, a, m) && MatchedAs(q, b, m) && MatchedAs(q, c, m) ::
          a == b || b == c || a == c)
  }

  ghost predicate Inv(q: Queue, nowMs: int) {
    && (forall id | id in q.entries :: EntryOk(q, id))
    && (forall id | Waiting(q, id, nowMs) :: WaitingOk(q, id))
    && PointersOk(q)
    && MatchesOk(q)
  }

  /** Expiry only removes waiting entries, never half of one. */
  lemma TimeKeepsInv(q: Queue, nowMs: int, laterMs: int)
    requires Inv(q, nowMs) && nowMs <= laterMs
    ensures Inv(q, laterMs)
  {
    hide EntryOk, WaitingOk, PointersOk, MatchesOk;
    forall id | Waiting(q, id, laterMs) ensures WaitingOk(q, id) {
      assert Waiting(q, id, nowMs);
    }
  }

  /** While it lives, a waiting entry is what the queue reports for its user and game. */
  lemma WaitingIsActive(q: Queue, id: string, nowMs: int)
    requires Inv(q, nowMs) && Waiting(q, id, nowMs)
    ensures ActiveEntry(q, q.entries[id].entry.uid, q.entries[id].entry.gameId, nowMs) == Some(q.entries[id].entry)
  {
    assert WaitingOk(q, id);
  }

  /**
   * What the queue reports for a user and game: a waiting entry exactly when one of theirs is alive, and
   * otherwise at most a matched entry of theirs.
   */
  lemma {:induction false} StatusIsExact(q: Queue, uid: string, gameId: string, nowMs: int, id: string)
    requires Inv(q, nowMs)
    ensures var entry := ActiveEntry(q, uid, gameId, nowMs);
      && (Waiting(q, id, nowMs) && q.entries[id].entry.uid == uid && q.entries[id].entry.gameId == gameId
          <==> entry.Some? && entry.value.entryId == id && entry.value.status.Queued?)
      && (entry.Some? ==> entry.value.uid == uid && entry.value.gameId == gameId)
  {
    hide InList, MatchedAs, MatchesOk;
    if Waiting(q, id, nowMs) && q.entries[id].entry.uid == uid && q.entries[id].entry.gameId == gameId {
      WaitingIsActive(q, id, nowMs);
      assert EntryOk(q, id);
    }
    if ActiveEntry(q, uid, gameId, nowMs).Some? {
      var active := q.active[Key(uid, gameId)].entryId;
      assert EntryOk(q, active);
    }
  }

  // ------------------------------------------------------------------- each step

  ghost predicate FreshEntry(q: Queue, id: string) {
    id !in q.entries && (forall g :: !InList(q, g, id)) && (forall k | k in q.active :: q.active[k].entryId != id)
  }

  ghost predicate FreshMatch(q: Queue, matchId: string) {
    forall id :: !MatchedAs(q, id, matchId)
  }

  lemma ListAfterRemove(q: Queue, gameId: string, id: string, g: string)
    ensures multiset(ListOf(Remove(q, gameId, id), g))
         == if g == gameId then multiset(ListOf(q, g))[id := 0] else multiset(ListOf(q, g))
  {
  }

  lemma PutFields(q: Queue, e: Entry, nowMs: int)
    ensures var r := PutQueued(q, e, nowMs);
      && r.entries == q.entries[e.entryId := StoredEntry(e, nowMs + QUEUE_ENTRY_TTL_MS)]
      && r.active == q.active[Key(e.uid, e.gameId) := Pointer(e.entryId, nowMs + QUEUE_ENTRY_TTL_MS)]
      && forall g :: multiset(ListOf(r, g))
                  == multiset(ListOf(q, g)) + if g == e.gameId then multiset{e.entryId} else multiset{}
  {
  }

  lemma PutKeepsEntries(q: Queue, e: Entry, nowMs: int)
    requires (forall id | id in q.entries :: EntryOk(q, id)) && FreshEntry(q, e.entryId) && e.status.Queued?
    ensures var r := PutQueued(q, e, nowMs); forall id | id in r.entries :: EntryOk(r, id)
  {
    PutFields(q, e, nowMs);
    hide PutQueued, ListOf;
    var r := PutQueued(q, e, nowMs);
    forall id | id in r.entries ensures EntryOk(r, id) {
      if id != e.entryId {
        assert EntryOk(q, id);
        assert forall g :: InList(r, g, id) <==> InList(q, g, id);
      } else {
        assert forall g :: InList(r, g, id) ==> g == e.gameId || InList(q, g, id);
      }
    }
  }

  lemma {:induction false} PutKeepsInv(q: Queue, e: Entry, nowMs: int)
    requires Inv(q, nowMs) && FreshEntry(q, e.entryId) && e.status.Queued?
    requires ActiveEntry(q, e.uid, e.gameId, nowMs).None?
    ensures Inv(PutQueued(q, e, nowMs), nowMs)
  {
    PutKeepsEntries(q, e, nowMs);
    PutKeepsWaiting(q, e, nowMs);
    PutKeepsRest(q, e, nowMs);
    hide PutQueued, EntryOk, WaitingOk, PointersOk, MatchesOk, Waiting, FreshEntry, ActiveEntry;
  }

  lemma PutKeepsWaiting(q: Queue, e: Entry, nowMs: int)
    requires Inv(q, nowMs) && FreshEntry(q, e.entryId) && e.status.Queued?
    requires ActiveEntry(q, e.uid, e.gameId, nowMs).None?
    ensures var r := PutQueued(q, e, nowMs); forall id | Waiting(r, id, nowMs) :: WaitingOk(r, id)
  {
    PutFields(q, e, nowMs);
    hide PutQueued, ListOf, EntryOk, PointersOk, MatchesOk;
    var r := PutQueued(q, e, nowMs);
    assert !InList(q, e.gameId, e.entryId);
    forall id | Waiting(r, id, nowMs) ensures WaitingOk(r, id) {
      if id != e.entryId {
        assert Waiting(q, id, nowMs) && WaitingOk(q, id);
        WaitingIsActive(q, id, nowMs);
      }
    }
  }

  lemma PutKeepsRest(q: Queue, e: Entry, nowMs: int)
    requires PointersOk(q) && MatchesOk(q) && FreshEntry(q, e.entryId) && e.status.Queued?
    ensures PointersOk(PutQueued(q, e, nowMs)) && MatchesOk(PutQueued(q, e, nowMs))
  {
    PutFields(q, e, nowMs);
    hide PutQueued, ListOf;
    var r := PutQueued(q, e, nowMs);
    assert forall id, m :: MatchedAs(r, id, m) <==> MatchedAs(q, id, m);
  }

  /** The entry is gone with its active key, and from its game's list. */
  ghost predicate TakenOut(q: Queue, r: Queue, key: Key, id: string) {
    && r.entries == q.entries - {id} && r.active == q.active - {key}
    && forall g :: multiset(ListOf(r, g))
                == if g == key.gameId then multiset(ListOf(q, g))[id := 0] else multiset(ListOf(q, g))
  }

  lemma LeaveTakesOut(q: Queue, uid: string, gameId: string, nowMs: int)
    requires ActiveEntry(q, uid, gameId, nowMs).Some?
      && ActiveEntry(q, uid, gameId, nowMs).value.entryId == q.active[Key(uid, gameId)].entryId
    ensures TakenOut(q, LeaveStep(q, uid, gameId, nowMs), Key(uid, gameId), q.active[Key(uid, gameId)].entryId)
  {
    hide RemoveAll;
    var key, id := Key(uid, gameId), q.active[Key(uid, gameId)].entryId;
    var cut := Queue(q.entries - {id}, q.active - {key}, q.lists);
    assert LeaveStep(q, uid, gameId, nowMs) == Remove(cut, gameId, id);
    hide LeaveStep, ActiveEntry;
    forall g ensures multiset(ListOf(Remove(cut, gameId, id), g))
                  == if g == gameId then multiset(ListOf(q, g))[id := 0] else multiset(ListOf(q, g))
    {
      ListAfterRemove(cut, gameId, id, g);
    }
  }

  lemma TakenOutEntries(q: Queue, r: Queue, key: Key, id: string)
    requires TakenOut(q, r, key, id) && forall x | x in q.entries :: EntryOk(q, x)
    ensures forall x | x in r.entries :: EntryOk(r, x)
  {
    hide ListOf;
    forall x | x in r.entries ensures EntryOk(r, x) {
      assert EntryOk(q, x);
      assert forall g :: InList(r, g, x) ==> InList(q, g, x);
    }
  }

  lemma TakenOutWaiting(q: Queue, r: Queue, key: Key, id: string, nowMs: int)
    requires TakenOut(q, r, key, id) && (forall x | Waiting(q, x, nowMs) :: WaitingOk(q, x))
    requires key in q.active && q.active[key].entryId == id
    ensures forall x | Waiting(r, x, nowMs) :: WaitingOk(r, x)
  {
    hide ListOf;
    forall x | Waiting(r, x, nowMs) ensures WaitingOk(r, x) {
      assert Waiting(q, x, nowMs) && WaitingOk(q, x);
    }
  }

  lemma TakenOutRest(q: Queue, r: Queue, key: Key, id: string)
    requires TakenOut(q, r, key, id)
    ensures PointersOk(q) ==> PointersOk(r)
    ensures MatchesOk(q) ==> MatchesOk(r)
  {
    hide ListOf;
    assert forall x, m :: MatchedAs(r, x, m) ==> MatchedAs(q, x, m) && r.entries[x] == q.entries[x];
  }

  lemma {:induction false} LeaveKeepsInv(q: Queue, uid: string, gameId: string, nowMs: int)
    requires Inv(q, nowMs)
    ensures Inv(LeaveStep(q, uid, gameId, nowMs), nowMs)
    ensures ActiveEntry(LeaveStep(q, uid, gameId, nowMs), uid, gameId, nowMs).None?
    ensures forall u, g | u != uid || g != gameId ::
      ActiveEntry(LeaveStep(q, uid, gameId, nowMs), u, g, nowMs) == ActiveEntry(q, u, g, nowMs)
  {
    hide EntryOk, WaitingOk, PointersOk, MatchesOk, Remove;
    if ActiveEntry(q, uid, gameId, nowMs).Some? {
      var key, id := Key(uid, gameId), q.active[Key(uid, gameId)].entryId;
      OwnId(q, id, nowMs);
      PointerOwner(q, key, nowMs);
      LeaveTakesOut(q, uid, gameId, nowMs);
      hide LeaveStep;
      var r := LeaveStep(q, uid, gameId, nowMs);
      TakenOutEntries(q, r, key, id);
      TakenOutWaiting(q, r, key, id, nowMs);
      TakenOutRest(q, r, key, id);
      OthersStay(q, r, key, id, nowMs);
    }
  }

  lemma PointerOwner(q: Queue, key: Key, nowMs: int)
    requires Inv(q, nowMs) && key in q.active && q.active[key].entryId in q.entries
    ensures var e := q.entries[q.active[key].entryId].entry; e.uid == key.uid && e.gameId == key.gameId
  {
    hide EntryOk, WaitingOk, MatchesOk;
  }

  /** Nobody else's status changes: a pointer to an entry belongs to its user and game. */
  lemma OthersStay(q: Queue, r: Queue, key: Key, id: string, nowMs: int)
    requires TakenOut(q, r, key, id) && Inv(q, nowMs) && id in q.entries
    requires q.entries[id].entry.uid == key.uid && q.entries[id].entry.gameId == key.gameId
    ensures forall u, g | u != key.uid || g != key.gameId :: ActiveEntry(r, u, g, nowMs) == ActiveEntry(q, u, g, nowMs)
  {
    hide EntryOk, WaitingOk, MatchesOk, ListOf;
  }

  /** The entry is waiting in the queue with this content. */
  ghost predicate Holds(q: Queue, e: Entry, nowMs: int) {
    Waiting(q, e.entryId, nowMs) && q.entries[e.entryId].entry == e
  }

  /** The entry is matched, active, and in no list. */
  ghost predicate TurnedMatched(q: Queue, r: Queue, e: Entry, matchId: string, nowMs: int) {
    var expires := nowMs + MATCHED_ENTRY_TTL_MS;
    && r.entries == q.entries[e.entryId := StoredEntry(e.(status := Matched(matchId, nowMs)), expires)]
    && r.active == q.active[Key(e.uid, e.gameId) := Pointer(e.entryId, expires)]
    && forall g :: multiset(ListOf(r, g))
                == if g == e.gameId then multiset(ListOf(q, g))[e.entryId := 0] else multiset(ListOf(q, g))
  }

  lemma MatchedFields(q: Queue, e: Entry, matchId: string, nowMs: int)
    ensures TurnedMatched(q, PutMatched(q, e, matchId, nowMs), e, matchId, nowMs)
  {
    hide RemoveAll;
    var expires := nowMs + MATCHED_ENTRY_TTL_MS;
    var cut := Queue(q.entries[e.entryId := StoredEntry(e.(status := Matched(matchId, nowMs)), expires)],
                     q.active[Key(e.uid, e.gameId) := Pointer(e.entryId, expires)], q.lists);
    forall g ensures multiset(ListOf(PutMatched(q, e, matchId, nowMs), g))
                  == if g == e.gameId then multiset(ListOf(q, g))[e.entryId := 0] else multiset(ListOf(q, g))
    {
      ListAfterRemove(cut, e.gameId, e.entryId, g);
    }
  }

  lemma MatchedEntries(q: Queue, r: Queue, e: Entry, matchId: string, nowMs: int)
    requires TurnedMatched(q, r, e, matchId, nowMs) && e.entryId in q.entries && q.entries[e.entryId].entry == e
    requires forall x | x in q.entries :: EntryOk(q, x)
    ensures forall x | x in r.entries :: EntryOk(r, x)
  {
    hide ListOf;
    assert EntryOk(q, e.entryId);
    forall x | x in r.entries ensures EntryOk(r, x) {
      assert EntryOk(q, x);
      assert forall g :: InList(r, g, x) ==> InList(q, g, x);
      if x == e.entryId {
        assert forall g | InList(q, g, x) :: g == e.gameId;
      }
    }
  }

  lemma MatchedWaiting(q: Queue, r: Queue, e: Entry, matchId: string, nowMs: int)
    requires TurnedMatched(q, r, e, matchId, nowMs) && Holds(q, e, nowMs)
    requires forall x | Waiting(q, x, nowMs) :: WaitingOk(q, x)
    ensures forall x | Waiting(r, x, nowMs) :: WaitingOk(r, x)
  {
    hide ListOf;
    assert WaitingOk(q, e.entryId);
    forall x | Waiting(r, x, nowMs) ensures WaitingOk(r, x) {
      assert x != e.entryId && Waiting(q, x, nowMs) && WaitingOk(q, x);
    }
  }

  lemma MatchedRest(q: Queue, r: Queue, e: Entry, matchId: string, nowMs: int)
    requires TurnedMatched(q, r, e, matchId, nowMs) && Holds(q, e, nowMs) && PointersOk(q) && MatchesOk(q)
    requires forall id | MatchedAs(q, id, matchId) :: q.entries[id].entry.uid != e.uid
    requires forall a, b | MatchedAs(q, a, matchId) && MatchedAs(q, b, matchId) :: a == b
    ensures PointersOk(r) && MatchesOk(r)
  {
    hide ListOf;
    var id := e.entryId;
    assert forall x, m :: MatchedAs(r, x, m) <==> (x == id && m == matchId) || (x != id && MatchedAs(q, x, m));
  }

  /** Marking one waiting entry as matched keeps everything but the pairing of the match itself. */
  lemma {:induction false} MatchedKeepsInv(q: Queue, e: Entry, matchId: string, nowMs: int)
    requires Inv(q, nowMs) && Holds(q, e, nowMs)
    requires forall id | MatchedAs(q, id, matchId) :: q.entries[id].entry.uid != e.uid
    requires forall a, b | MatchedAs(q, a, matchId) && MatchedAs(q, b, matchId) :: a == b
    ensures Inv(PutMatched(q, e, matchId, nowMs), nowMs)
  {
    MatchedFields(q, e, matchId, nowMs);
    hide PutMatched, ListOf, EntryOk, WaitingOk, PointersOk, MatchesOk;
    var r := PutMatched(q, e, matchId, nowMs);
    MatchedEntries(q, r, e, matchId, nowMs);
    MatchedWaiting(q, r, e, matchId, nowMs);
    MatchedRest(q, r, e, matchId, nowMs);
  }

  lemma {:induction false} CreateKeepsInv(q: Queue, left: Entry, right: Entry, matchId: string, nowMs: int)
    requires Inv(q, nowMs) && Holds(q, left, nowMs) && Holds(q, right, nowMs)
    requires left.uid != right.uid && FreshMatch(q, matchId)
    ensures Inv(CreateMatch(q, left, right, matchId, nowMs), nowMs)
  {
    MatchedKeepsInv(q, left, matchId, nowMs);
    MatchedFields(q, left, matchId, nowMs);
    var middle := PutMatched(q, left, matchId, nowMs);
    hide PutMatched, Inv, ListOf;
    assert right.entryId != left.entryId;
    assert Holds(middle, right, nowMs);
    forall x | MatchedAs(middle, x, matchId) ensures x == left.entryId {
      assert !MatchedAs(q, x, matchId);
    }
    MatchedKeepsInv(middle, right, matchId, nowMs);
  }

  /** What a created match changes, and what it leaves alone. */
  lemma CreateFrame(q: Queue, left: Entry, right: Entry, matchId: string, nowMs: int)
    ensures var r := CreateMatch(q, left, right, matchId, nowMs);
      && BothMatched(q, r, left, right, matchId, nowMs)
      && forall x, m | MatchedAs(r, x, m) :: m == matchId || MatchedAs(q, x, m)
  {
    MatchedFields(q, left, matchId, nowMs);
    MatchedFields(PutMatched(q, left, matchId, nowMs), right, matchId, nowMs);
    hide PutMatched;
  }

  ghost predicate FreshMatches(q: Queue, matchIds: seq<string>) {
    && (forall i | 0 <= i < |matchIds| :: FreshMatch(q, matchIds[i]))
    && (forall i, j | 0 <= i < j < |matchIds| :: matchIds[i] != matchIds[j])
  }

  lemma TakenSnoc(entries: seq<Entry>, pairs: seq<Pair>)
    requires pairs != []
    ensures Taken(entries, pairs) == Taken(entries, pairs[..|pairs| - 1]) + Ids(entries, pairs[|pairs| - 1])
  {
    if |pairs| > 1 {
      TakenSnoc(entries, pairs[1..]);
      assert pairs[1..][..|pairs| - 2] == pairs[..|pairs| - 1][1..];
    }
  }

  /** Between `q` and `r` exactly the entries in `taken` were matched, with ids from `matchIds`; each is active now. */
  ghost predicate Made(q: Queue, r: Queue, taken: set<string>, matchIds: seq<string>, nowMs: int) {
    && (forall x | x in q.entries && x !in taken :: x in r.entries && r.entries[x] == q.entries[x])
    && (forall x | x in r.entries && x !in taken :: x in q.entries)
    && (forall x | x in taken :: Waiting(q, x, nowMs) && IsMatchedNow(q, r, x, nowMs))
    && (forall x, m | MatchedAs(r, x, m) :: MatchedAs(q, x, m) || m in matchIds)
  }

  ghost predicate IsMatchedNow(q: Queue, r: Queue, x: string, nowMs: int)
    requires x in q.entries
  {
    var key := Key(q.entries[x].entry.uid, q.entries[x].entry.gameId);
    && x in r.entries && r.entries[x].entry.status.Matched? && r.entries[x].expiresAtMs == nowMs + MATCHED_ENTRY_TTL_MS
    && r.entries[x].entry.entryId == x
    && r.entries[x].entry == q.entries[x].entry.(status := r.entries[x].entry.status)
    && key in r.active && r.active[key] == Pointer(x, nowMs + MATCHED_ENTRY_TTL_MS)
  }

  /** One more match, of two entries that are still waiting. */
  lemma MadeStep(q: Queue, before: Queue, left: Entry, right: Entry, taken: set<string>, matchIds: seq<string>,
                 matchId: string, nowMs: int)
    requires Made(q, before, taken, matchIds, nowMs) && Holds(q, left, nowMs) && Holds(q, right, nowMs)
    requires left.entryId !in taken && right.entryId !in taken && left.uid != right.uid
    requires forall x | Waiting(q, x, nowMs) :: WaitingOk(q, x)
    ensures Made(q, CreateMatch(before, left, right, matchId, nowMs), taken + {left.entryId, right.entryId},
                 matchIds + [matchId], nowMs)
  {
    CreateFrame(before, left, right, matchId, nowMs);
    hide CreateMatch, MatchedAs, ListOf, IsMatchedNow;
    var r := CreateMatch(before, left, right, matchId, nowMs);
    var longer := taken + {left.entryId, right.entryId};
    assert WaitingOk(q, left.entryId) && WaitingOk(q, right.entryId);
    forall x | x in longer ensures Waiting(q, x, nowMs) && IsMatchedNow(q, r, x, nowMs) {
      assert WaitingOk(q, x);
      if x in taken {
        assert IsMatchedNow(q, before, x, nowMs);
        StaysMatched(q, before, r, left, right, matchId, x, nowMs);
      } else {
        TurnsMatched(q, before, r, left, right, matchId, x, nowMs);
      }
    }
    hide Waiting, WaitingOk;
    assert forall m | m in matchIds || m == matchId :: m in matchIds + [matchId];
  }

  ghost predicate BothMatched(before: Queue, r: Queue, left: Entry, right: Entry, matchId: string, nowMs: int) {
    var expires := nowMs + MATCHED_ENTRY_TTL_MS;
    && r.entries == before.entries[left.entryId := StoredEntry(left.(status := Matched(matchId, nowMs)), expires)]
                                  [right.entryId := StoredEntry(right.(status := Matched(matchId, nowMs)), expires)]
    && r.active == before.active[Key(left.uid, left.gameId) := Pointer(left.entryId, expires)]
                                [Key(right.uid, right.gameId) := Pointer(right.entryId, expires)]
  }

  /** An entry matched before keeps its active key, which is not the key of either of the two. */
  lemma StaysMatched(q: Queue, before: Queue, r: Queue, left: Entry, right: Entry, matchId: string, x: string,
                     nowMs: int)
    requires BothMatched(before, r, left, right, matchId, nowMs) && Holds(q, left, nowMs) && Holds(q, right, nowMs)
    requires WaitingOk(q, left.entryId) && WaitingOk(q, right.entryId)
    requires x in q.entries && WaitingOk(q, x) && IsMatchedNow(q, before, x, nowMs)
    requires x != left.entryId && x != right.entryId
    ensures IsMatchedNow(q, r, x, nowMs)
  {
    hide ListOf;
  }

  lemma TurnsMatched(q: Queue, before: Queue, r: Queue, left: Entry, right: Entry, matchId: string, x: string,
                     nowMs: int)
    requires BothMatched(before, r, left, right, matchId, nowMs) && Holds(q, left, nowMs) && Holds(q, right, nowMs)
    requires left.uid != right.uid && (x == left.entryId || x == right.entryId)
    ensures IsMatchedNow(q, r, x, nowMs)
  {
  }

  /** The matches of one pass, made one after the other from a snapshot of waiting entries. */
  lemma {:induction false} CreateAllKeepsInv(
      q: Queue, entries: seq<Entry>, pairs: seq<Pair>, n: nat, matchIds: seq<string>, nowMs: int)
    requires Inv(q, nowMs) && forall e | e in entries :: Holds(q, e, nowMs)
    requires n <= |pairs| && n <= |matchIds| && IsMatching(entries, pairs, {}, nowMs) && FreshMatches(q, matchIds)
    ensures var r := CreateAll(q, entries, pairs[..n], matchIds, nowMs);
      Inv(r, nowMs) && Made(q, r, Taken(entries, pairs[..n]), matchIds[..n], nowMs)
    decreases n
  {
    hide CreateMatch, CanMatch, EntryOk, WaitingOk, PointersOk, MatchesOk, Made, FreshMatches, Holds, Taken;
    if n == 0 {
      assert pairs[..0] == [] && matchIds[..0] == [];
      NothingMade(q, entries, nowMs);
    } else {
      CreateAllKeepsInv(q, entries, pairs, n - 1, matchIds, nowMs);
      NextPair(entries, pairs, n, nowMs);
      var left, right := entries[pairs[n - 1].left], entries[pairs[n - 1].right];
      var before := CreateAll(q, entries, pairs[..n - 1], matchIds, nowMs);
      var taken := Taken(entries, pairs[..n - 1]);
      StillFree(q, before, left, taken, matchIds, n - 1, nowMs);
      StillFree(q, before, right, taken, matchIds, n - 1, nowMs);
      CreateKeepsInv(before, left, right, matchIds[n - 1], nowMs);
      MadeStep(q, before, left, right, taken, matchIds[..n - 1], matchIds[n - 1], nowMs);
      assert pairs[..n][..n - 1] == pairs[..n - 1] && matchIds[..n] == matchIds[..n - 1] + [matchIds[n - 1]];
    }
  }

  lemma NothingMade(q: Queue, entries: seq<Entry>, nowMs: int)
    ensures Made(q, q, Taken(entries, []), [], nowMs)
  {
  }

  /** The next pair of a matching is compatible and apart from the pairs before it. */
  lemma NextPair(entries: seq<Entry>, pairs: seq<Pair>, n: nat, nowMs: int)
    requires 0 < n <= |pairs| && IsMatching(entries, pairs, {}, nowMs)
    ensures var p := pairs[n - 1];
      && ValidPair(entries, p) && entries[p.left] in entries && entries[p.right] in entries
      && entries[p.left].uid != entries[p.right].uid
      && entries[p.left].entryId !in Taken(entries, pairs[..n - 1])
      && entries[p.right].entryId !in Taken(entries, pairs[..n - 1])
      && Taken(entries, pairs[..n])
         == Taken(entries, pairs[..n - 1]) + {entries[p.left].entryId, entries[p.right].entryId}
  {
    var p := pairs[n - 1];
    assert p in pairs && ValidPair(entries, p);
    MatchersDiffer(entries[p.left], entries[p.right], nowMs);
    NotTakenYet(entries, pairs, n - 1, nowMs);
    hide CanMatch, IsMatching;
    TakenSnoc(entries, pairs[..n]);
    assert pairs[..n][..n - 1] == pairs[..n - 1];
    hide Taken;
  }

  lemma StillFree(q: Queue, before: Queue, e: Entry, taken: set<string>, matchIds: seq<string>, n: nat, nowMs: int)
    requires n < |matchIds| && Made(q, before, taken, matchIds[..n], nowMs) && Holds(q, e, nowMs) && e.entryId !in taken
    requires FreshMatches(q, matchIds)
    ensures Holds(before, e, nowMs) && FreshMatch(before, matchIds[n])
  {
    hide IsMatchedNow;
    assert FreshMatch(q, matchIds[n]);
    assert matchIds[n] !in matchIds[..n];
    forall id ensures !MatchedAs(before, id, matchIds[n]) {
    }
  }

  lemma MatchersDiffer(left: Entry, right: Entry, nowMs: int)
    requires CanMatch(left, right, nowMs)
    ensures left.uid != right.uid
  {
  }

  lemma {:induction false} NotTakenYet(entries: seq<Entry>, pairs: seq<Pair>, n: nat, nowMs: int)
    requires n < |pairs| && IsMatching(entries, pairs, {}, nowMs)
    ensures Ids(entries, pairs[n]) !! Taken(entries, pairs[..n])
  {
    hide CanMatch;
    TakenApart(entries, pairs[..n], Ids(entries, pairs[n]));
  }

  lemma {:induction false} TakenApart(entries: seq<Entry>, pairs: seq<Pair>, ids: set<string>)
    requires forall a | 0 <= a < |pairs| :: Ids(entries, pairs[a]) !! ids
    ensures Taken(entries, pairs) !! ids
  {
    if pairs != [] {
      TakenApart(entries, pairs[1..], ids);
    }
  }

  // ------------------------------------------------------------------ the snapshot

  lemma {:induction false} CollectExact(q: Queue, ids: seq<string>, nowMs: int)
    requires forall id | id in q.entries :: EntryOk(q, id)
    ensures forall e | e in Collect(q, ids, nowMs) :: Holds(q, e, nowMs) && e.entryId in ids
    ensures forall id | id in ids && Waiting(q, id, nowMs) :: q.entries[id].entry in Collect(q, ids, nowMs)
  {
    hide EntryOk;
    if ids != [] {
      CollectExact(q, ids[1..], nowMs);
      assert ids == [ids[0]] + ids[1..];
      if ids[0] in q.entries {
        assert EntryOk(q, ids[0]);
        EntryOwnsId(q, ids[0]);
      }
    }
  }

  lemma EntryOwnsId(q: Queue, id: string)
    requires id in q.entries && EntryOk(q, id)
    ensures q.entries[id].entry.entryId == id
  {
  }

  lemma {:induction false} InsertEntryKeeps(e: Entry, sorted: seq<Entry>, lt: IdOrder)
    ensures multiset(InsertEntry(e, sorted, lt)) == multiset(sorted) + multiset{e}
  {
    if sorted != [] {
      assert sorted == [sorted[0]] + sorted[1..];
      if Before(sorted[0], e, lt) {
        InsertEntryKeeps(e, sorted[1..], lt);
      }
    }
  }

  lemma SortedCons(head: Entry, rest: seq<Entry>)
    requires SortedByQueueTime(rest) && forall x | x in rest :: head.queuedAtMs <= x.queuedAtMs
    ensures SortedByQueueTime([head] + rest)
  {
  }

  lemma {:induction false} InsertEntrySorts(e: Entry, sorted: seq<Entry>, lt: IdOrder)
    requires SortedByQueueTime(sorted)
    ensures SortedByQueueTime(InsertEntry(e, sorted, lt))
  {
    if sorted != [] && Before(sorted[0], e, lt) {
      var rest := InsertEntry(e, sorted[1..], lt);
      InsertEntrySorts(e, sorted[1..], lt);
      InsertEntryKeeps(e, sorted[1..], lt);
      hide InsertEntry;
      forall x | x in rest ensures sorted[0].queuedAtMs <= x.queuedAtMs {
        assert x in multiset(rest);
        assert x == e || x in sorted[1..];
      }
      SortedCons(sorted[0], rest);
    } else {
      SortedCons(e, sorted);
    }
  }

  lemma {:induction false} SortEntriesKeeps(entries: seq<Entry>, lt: IdOrder)
    ensures multiset(SortEntries(entries, lt)) == multiset(entries)
    ensures SortedByQueueTime(SortEntries(entries, lt))
  {
    if entries != [] {
      assert entries == [entries[0]] + entries[1..];
      SortEntriesKeeps(entries[1..], lt);
      InsertEntryKeeps(entries[0], SortEntries(entries[1..], lt), lt);
      InsertEntrySorts(entries[0], SortEntries(entries[1..], lt), lt);
    }
  }

  /** The snapshot of a pass is sorted and holds exactly the waiting entries of the game. */
  lemma {:induction false} SnapshotExact(q: Queue, gameId: string, nowMs: int, lt: IdOrder)
    requires Inv(q, nowMs)
    ensures var entries := ListQueued(q, gameId, nowMs, lt);
      && SortedByQueueTime(entries)
      && (forall e | e in entries :: Holds(q, e, nowMs) && e.gameId == gameId)
      && (forall id | Waiting(q, id, nowMs) && q.entries[id].entry.gameId == gameId :: q.entries[id].entry in entries)
  {
    hide Collect, SortEntries, PointersOk, MatchesOk, SortedByQueueTime;
    var ids := ListOf(q, gameId);
    var unsorted := Collect(q, ids, nowMs);
    CollectExact(q, ids, nowMs);
    SortEntriesKeeps(unsorted, lt);
    var entries := ListQueued(q, gameId, nowMs, lt);
    forall e | e in entries ensures Holds(q, e, nowMs) && e.gameId == gameId {
      assert e in multiset(entries);
      assert EntryOk(q, e.entryId) && InList(q, gameId, e.entryId);
    }
    forall id | Waiting(q, id, nowMs) && q.entries[id].entry.gameId == gameId ensures q.entries[id].entry in entries {
      assert WaitingOk(q, id);
      assert id in multiset(ids);
      assert q.entries[id].entry in multiset(unsorted);
    }
  }

  ghost predicate TotalIdOrder(lt: IdOrder) {
    && (forall a, b :: lt(a, b) ==> !lt(b, a))
    && (forall a, b :: a != b ==> lt(a, b) || lt(b, a))
    && (forall a, b, c :: lt(a, b) && lt(b, c) ==> lt(a, c))
  }

  /** Earlier first, and at the same time by id. */
  ghost predicate InOrder(a: Entry, b: Entry, lt: IdOrder) {
    || a.queuedAtMs < b.queuedAtMs
    || (a.queuedAtMs == b.queuedAtMs && (a.entryId == b.entryId || lt(a.entryId, b.entryId)))
  }

  ghost predicate AllInOrder(entries: seq<Entry>, lt: IdOrder) {
    forall i, j | 0 <= i < j < |entries| :: InOrder(entries[i], entries[j], lt)
  }

  lemma OrderedCons(head: Entry, rest: seq<Entry>, lt: IdOrder)
    requires AllInOrder(rest, lt) && forall x | x in rest :: InOrder(head, x, lt)
    ensures AllInOrder([head] + rest, lt)
  {
    hide InOrder;
  }

  lemma {:induction false} InsertInOrder(e: Entry, sorted: seq<Entry>, lt: IdOrder)
    requires TotalIdOrder(lt) && AllInOrder(sorted, lt)
    ensures AllInOrder(InsertEntry(e, sorted, lt), lt)
  {
    if sorted != [] && Before(sorted[0], e, lt) {
      InsertInOrder(e, sorted[1..], lt);
      InsertEntryKeeps(e, sorted[1..], lt);
      var rest := InsertEntry(e, sorted[1..], lt);
      forall x | x in rest ensures InOrder(sorted[0], x, lt) {
        assert x in multiset(rest);
        assert x == e || x in sorted[1..];
      }
      OrderedCons(sorted[0], rest, lt);
    } else {
      forall x | x in sorted ensures InOrder(e, x, lt) {
        assert InOrder(e, sorted[0], lt) && (x == sorted[0] || InOrder(sorted[0], x, lt));
      }
      OrderedCons(e, sorted, lt);
    }
  }

  /** A pass looks at the waiting entries by queue time and, at the same time, by entry id. */
  lemma {:induction false} SnapshotInOrder(entries: seq<Entry>, lt: IdOrder)
    requires TotalIdOrder(lt)
    ensures AllInOrder(SortEntries(entries, lt), lt)
  {
    hide TotalIdOrder, AllInOrder;
    if entries != [] {
      SnapshotInOrder(entries[1..], lt);
      InsertInOrder(entries[0], SortEntries(entries[1..], lt), lt);
    } else {
      EmptyInOrder(lt);
    }
  }

  lemma EmptyInOrder(lt: IdOrder)
    ensures AllInOrder([], lt)
  {
  }

  lemma {:induction false} ProcessKeepsInv(q: Queue, gameId: string, matchIds: seq<string>, nowMs: int, lt: IdOrder)
    requires Inv(q, nowMs) && FreshMatches(q, matchIds)
    ensures Inv(ProcessStep(q, gameId, matchIds, nowMs, lt), nowMs)
  {
    hide Inv, ListQueued, CreateAll, PairsFrom, IsMatching, Holds;
    SnapshotExact(q, gameId, nowMs, lt);
    var entries, pairs := ListQueued(q, gameId, nowMs, lt), PassPairs(q, gameId, nowMs, lt);
    PassIsMaximalMatching(entries, 0, {}, nowMs);
    var made := if |pairs| <= |matchIds| then |pairs| else |matchIds|;
    CreateAllKeepsInv(q, entries, pairs, made, matchIds, nowMs);
  }

  /** After a pass in which every match could be started, no two waiting entries of the game could play each other. */
  lemma {:induction false} NoCompatiblePairSurvives(
      q: Queue, gameId: string, matchIds: seq<string>, nowMs: int, lt: IdOrder, a: string, b: string)
    requires Inv(q, nowMs) && FreshMatches(q, matchIds) && |PassPairs(q, gameId, nowMs, lt)| <= |matchIds|
    requires var r := ProcessStep(q, gameId, matchIds, nowMs, lt);
      Waiting(r, a, nowMs) && Waiting(r, b, nowMs) && a != b
      && r.entries[a].entry.gameId == gameId && r.entries[b].entry.gameId == gameId
    ensures var r := ProcessStep(q, gameId, matchIds, nowMs, lt);
      !MayPlay(r.entries[a].entry, r.entries[b].entry, nowMs)
  {
    hide Inv, ListQueued, CreateAll, PairsFrom, IsMatching, CanMatch, MayPlay, Taken, SortedByQueueTime;
    SnapshotExact(q, gameId, nowMs, lt);
    var entries, pairs := ListQueued(q, gameId, nowMs, lt), PassPairs(q, gameId, nowMs, lt);
    PassIsMaximalMatching(entries, 0, {}, nowMs);
    CreateAllKeepsInv(q, entries, pairs, |pairs|, matchIds, nowMs);
    assert pairs[..|pairs|] == pairs;
    var r := ProcessStep(q, gameId, matchIds, nowMs, lt);
    var x, y := r.entries[a].entry, r.entries[b].entry;
    assert Waiting(q, a, nowMs) && Waiting(q, b, nowMs);
    assert x in entries && y in entries;
    hide Made;
    OwnId(q, a, nowMs);
    OwnId(q, b, nowMs);
    var i :| 0 <= i < |entries| && entries[i] == x;
    var j :| 0 <= j < |entries| && entries[j] == y;
    CompatibilityLaws(x, y, nowMs, nowMs);
    CanMatchMeansMayPlay(x, y, nowMs);
    assert {} + Taken(entries, pairs) == Taken(entries, pairs);
    if i < j {
      assert !CanMatch(entries[i], entries[j], nowMs);
    } else {
      assert j < i && !CanMatch(entries[j], entries[i], nowMs);
    }
  }

  /** Each pair of a pass has its own match id, and its two entries change nothing but their status. */
  lemma {:induction false} PairsGetTheirIds(q: Queue, entries: seq<Entry>, pairs: seq<Pair>, n: nat,
                                            matchIds: seq<string>, nowMs: int, k: nat)
    requires n <= |pairs| && n <= |matchIds| && IsMatching(entries, pairs, {}, nowMs) && k < n
    requires forall e | e in entries :: Holds(q, e, nowMs)
    ensures var r := CreateAll(q, entries, pairs[..n], matchIds, nowMs);
      && ValidPair(entries, pairs[k])
      && HasMatch(r, entries[pairs[k].left], matchIds[k], nowMs)
      && HasMatch(r, entries[pairs[k].right], matchIds[k], nowMs)
    decreases n
  {
    hide CreateMatch, CanMatch, IsMatching, Ids, ListOf;
    var before := CreateAll(q, entries, pairs[..n - 1], matchIds, nowMs);
    assert pairs[..n][..n - 1] == pairs[..n - 1];
    PairsAreApart(entries, pairs, k, n - 1, nowMs);
    var left, right := entries[pairs[n - 1].left], entries[pairs[n - 1].right];
    assert Holds(q, left, nowMs) && Holds(q, right, nowMs) && left.entryId != right.entryId;
    CreateFrame(before, left, right, matchIds[n - 1], nowMs);
    if k < n - 1 {
      PairsGetTheirIds(q, entries, pairs, n - 1, matchIds, nowMs, k);
    }
    hide CreateAll;
  }

  /** The entry is stored as matched now, otherwise as it was, for an hour. */
  ghost predicate HasMatch(q: Queue, e: Entry, matchId: string, nowMs: int) {
    && e.entryId in q.entries
    && q.entries[e.entryId] == StoredEntry(e.(status := Matched(matchId, nowMs)), nowMs + 3600000)
  }

  lemma PairsAreApart(entries: seq<Entry>, pairs: seq<Pair>, k: nat, last: nat, nowMs: int)
    requires IsMatching(entries, pairs, {}, nowMs) && k <= last < |pairs|
    ensures ValidPair(entries, pairs[k]) && ValidPair(entries, pairs[last])
    ensures entries[pairs[last].left].uid != entries[pairs[last].right].uid
    ensures k < last ==>
      && entries[pairs[k].left].entryId !in Ids(entries, pairs[last])
      && entries[pairs[k].right].entryId !in Ids(entries, pairs[last])
      && Ids(entries, pairs[last]) == {entries[pairs[last].left].entryId, entries[pairs[last].right].entryId}
  {
    assert pairs[k] in pairs && pairs[last] in pairs;
    hide Taken;
  }

  /** Two entries that were waiting for this game and may play each other, now in one match with a new id. */
  ghost predicate FairMatch(q: Queue, r: Queue, a: string, b: string, gameId: string, matchIds: seq<string>,
                            nowMs: int)
  {
    && a != b && Waiting(q, a, nowMs) && Waiting(q, b, nowMs)
    && q.entries[a].entry.gameId == gameId && q.entries[b].entry.gameId == gameId
    && MayPlay(q.entries[a].entry, q.entries[b].entry, nowMs)
    && exists m :: m in matchIds
                   && HasMatch(r, q.entries[a].entry, m, nowMs) && HasMatch(r, q.entries[b].entry, m, nowMs)
  }

  /** Whatever entry a pass changes has been matched with one that it may play. */
  lemma {:induction false} PassMatchesFairly(q: Queue, gameId: string, matchIds: seq<string>, nowMs: int, lt: IdOrder,
                                             id: string)
    requires Inv(q, nowMs) && FreshMatches(q, matchIds)
    ensures var r := ProcessStep(q, gameId, matchIds, nowMs, lt);
      && (id in r.entries <==> id in q.entries)
      && (id in q.entries && r.entries[id] != q.entries[id] ==>
            exists other :: FairMatch(q, r, id, other, gameId, matchIds, nowMs))
  {
    hide Inv, ListQueued, CreateAll, PairsFrom, IsMatching, CanMatch, MayPlay, SortedByQueueTime, FreshMatches;
    SnapshotExact(q, gameId, nowMs, lt);
    var entries, pairs := ListQueued(q, gameId, nowMs, lt), PassPairs(q, gameId, nowMs, lt);
    PassIsMaximalMatching(entries, 0, {}, nowMs);
    var made := if |pairs| <= |matchIds| then |pairs| else |matchIds|;
    CreateAllKeepsInv(q, entries, pairs, made, matchIds, nowMs);
    var r := ProcessStep(q, gameId, matchIds, nowMs, lt);
    if id in q.entries && r.entries[id] != q.entries[id] {
      assert id in Taken(entries, pairs[..made]);
      var k := TakenBy(entries, pairs[..made], id);
      PairIsFair(q, entries, pairs, made, matchIds, gameId, nowMs, k);
    }
  }

  /** A taken entry is one of a pair. */
  lemma {:induction false} TakenBy(entries: seq<Entry>, pairs: seq<Pair>, id: string) returns (k: nat)
    requires id in Taken(entries, pairs)
    ensures k < |pairs| && ValidPair(entries, pairs[k])
    ensures id == entries[pairs[k].left].entryId || id == entries[pairs[k].right].entryId
  {
    if id in Ids(entries, pairs[0]) {
      k := 0;
    } else {
      k := TakenBy(entries, pairs[1..], id);
      k := k + 1;
    }
  }

  lemma PairIsFair(q: Queue, entries: seq<Entry>, pairs: seq<Pair>, n: nat, matchIds: seq<string>, gameId: string,
                   nowMs: int, k: nat)
    requires n <= |pairs| && n <= |matchIds| && IsMatching(entries, pairs, {}, nowMs) && k < n
    requires forall e | e in entries :: Holds(q, e, nowMs) && e.gameId == gameId
    ensures ValidPair(entries, pairs[k])
    ensures var r := CreateAll(q, entries, pairs[..n], matchIds, nowMs);
      var a, b := entries[pairs[k].left].entryId, entries[pairs[k].right].entryId;
      FairMatch(q, r, a, b, gameId, matchIds, nowMs) && FairMatch(q, r, b, a, gameId, matchIds, nowMs)
  {
    PairsGetTheirIds(q, entries, pairs, n, matchIds, nowMs, k);
    assert pairs[k] in pairs;
    var left, right := entries[pairs[k].left], entries[pairs[k].right];
    assert CanMatch(left, right, nowMs);
    CanMatchMeansMayPlay(left, right, nowMs);
    CompatibilityLaws(left, right, nowMs, nowMs);
    CanMatchMeansMayPlay(right, left, nowMs);
    MatchersDiffer(left, right, nowMs);
    hide CreateAll, IsMatching, CanMatch, MayPlay, HasMatch, Taken;
    assert Holds(q, left, nowMs) && Holds(q, right, nowMs);
    assert matchIds[k] in matchIds;
  }

  lemma OwnId(q: Queue, id: string, nowMs: int)
    requires Inv(q, nowMs) && id in q.entries
    ensures q.entries[id].entry.entryId == id
  {
    assert EntryOk(q, id);
  }

  /**
   * An accepted enqueue is never lost: its entry, as it was asked for, is the user's active one afterwards, for a day
   * while it waits and for an hour if it has already been matched.
   */
  lemma {:induction false} EnqueueIsPersisted(q: Queue, input: EnqueueInput, entryId: string, rating: real,
                                              matchIds: seq<string>, nowMs: int, lt: IdOrder)
    requires Inv(q, nowMs) && FreshEntry(q, entryId) && FreshMatches(q, matchIds)
    requires ValidInput(input) && ActiveEntry(q, input.uid, input.gameId, nowMs).None?
    ensures var after := EnqueueStep(q, input, entryId, rating, matchIds, nowMs, lt);
      var active := ActiveEntry(after, input.uid, input.gameId, nowMs);
      && active.Some?
      && active.value.(status := Queued)
         == Entry(entryId, input.uid, input.gameId, input.agentId, rating, nowMs, Queued, input.ratingRange)
      && forall t | t >= nowMs ::
           ActiveEntry(after, input.uid, input.gameId, t)
           == if t < nowMs + (if active.value.status.Queued? then 86400000 else 3600000) then active else None
  {
    hide Inv, ListQueued, CreateAll, PairsFrom, IsMatching, Holds, FreshEntry, FreshMatches, Taken, ValidInput,
      SortedByQueueTime;
    var e := NewEntry(input, entryId, rating, nowMs);
    var p := PutQueued(q, e, nowMs);
    PutKeepsInv(q, e, nowMs);
    PutKeepsMatches(q, e, matchIds, nowMs);
    SnapshotExact(p, input.gameId, nowMs, lt);
    var entries, pairs := ListQueued(p, input.gameId, nowMs, lt), PassPairs(p, input.gameId, nowMs, lt);
    PassIsMaximalMatching(entries, 0, {}, nowMs);
    var made := if |pairs| <= |matchIds| then |pairs| else |matchIds|;
    CreateAllKeepsInv(p, entries, pairs, made, matchIds, nowMs);
    var r := ProcessStep(p, input.gameId, matchIds, nowMs, lt);
    assert r == CreateAll(p, entries, pairs[..made], matchIds, nowMs);
    assert EnqueueStep(q, input, entryId, rating, matchIds, nowMs, lt) == r;
    PersistedAfter(p, r, e, Taken(entries, pairs[..made]), matchIds[..made], nowMs);
  }

  lemma WaitingHasPointer(q: Queue, id: string, nowMs: int)
    requires Inv(q, nowMs)
    ensures Waiting(q, id, nowMs) ==> WaitingOk(q, id)
  {
  }

  lemma PersistedAfter(p: Queue, r: Queue, e: Entry, taken: set<string>, matchIds: seq<string>, nowMs: int)
    requires Made(p, r, taken, matchIds, nowMs) && Inv(r, nowMs) && e.status.Queued?
    requires e.entryId in p.entries && p.entries[e.entryId] == StoredEntry(e, nowMs + QUEUE_ENTRY_TTL_MS)
    ensures var active := ActiveEntry(r, e.uid, e.gameId, nowMs);
      && active.Some? && active.value.(status := Queued) == e
      && forall t | t >= nowMs ::
           ActiveEntry(r, e.uid, e.gameId, t)
           == if t < nowMs + (if active.value.status.Queued? then 86400000 else 3600000) then active else None
  {
    WaitingHasPointer(r, e.entryId, nowMs);
    hide Inv, MatchedAs;
    if e.entryId in taken {
      assert IsMatchedNow(p, r, e.entryId, nowMs);
    } else {
      WaitingIsActive(r, e.entryId, nowMs);
    }
  }

  // ------------------------------------------------------------------------ runs

  datatype Move =
    | Enqueue(input: EnqueueInput, entryId: string, rating: real, matchIds: seq<string>, nowMs: int)
    | Leave(uid: string, gameId: string, nowMs: int)
    | Process(gameId: string, matchIds: seq<string>, nowMs: int)

  ghost function Step(q: Queue, m: Move, lt: IdOrder): Queue {
    match m
    case Enqueue(input, entryId, rating, matchIds, nowMs) => EnqueueStep(q, input, entryId, rating, matchIds, nowMs, lt)
    case Leave(uid, gameId, nowMs) => LeaveStep(q, uid, gameId, nowMs)
    case Process(gameId, matchIds, nowMs) => ProcessStep(q, gameId, matchIds, nowMs, lt)
  }

  /** Generated entry and match ids have not been used before. */
  ghost predicate FreshIds(q: Queue, m: Move) {
    match m
    case Enqueue(_, entryId, _, matchIds, _) => FreshEntry(q, entryId) && FreshMatches(q, matchIds)
    case Leave(_, _, _) => true
    case Process(_, matchIds, _) => FreshMatches(q, matchIds)
  }

  ghost function Run(q: Queue, moves: seq<Move>, n: nat, lt: IdOrder): Queue
    requires n <= |moves|
  {
    if n == 0 then q else Step(Run(q, moves, n - 1, lt), moves[n - 1], lt)
  }

  ghost predicate Timed(moves: seq<Move>) {
    forall i, j | 0 <= i < j < |moves| :: moves[i].nowMs <= moves[j].nowMs
  }

  lemma {:induction false} StepKeepsInv(q: Queue, m: Move, lt: IdOrder)
    requires Inv(q, m.nowMs) && FreshIds(q, m)
    ensures Inv(Step(q, m, lt), m.nowMs)
  {
    hide Inv, ProcessStep, LeaveStep, FreshEntry;
    match m
    case Leave(uid, gameId, nowMs) => LeaveKeepsInv(q, uid, gameId, nowMs);
    case Process(gameId, matchIds, nowMs) => ProcessKeepsInv(q, gameId, matchIds, nowMs, lt);
    case Enqueue(input, entryId, rating, matchIds, nowMs) =>
      if ValidInput(input) && ActiveEntry(q, input.uid, input.gameId, nowMs).None? {
        var e := NewEntry(input, entryId, rating, nowMs);
        PutKeepsInv(q, e, nowMs);
        PutKeepsMatches(q, e, matchIds, nowMs);
        ProcessKeepsInv(PutQueued(q, e, nowMs), input.gameId, matchIds, nowMs, lt);
      }
  }

  lemma PutKeepsMatches(q: Queue, e: Entry, matchIds: seq<string>, nowMs: int)
    requires FreshMatches(q, matchIds) && e.status.Queued?
    ensures FreshMatches(PutQueued(q, e, nowMs), matchIds)
  {
    PutFields(q, e, nowMs);
    hide PutQueued;
    assert forall id, m :: MatchedAs(PutQueued(q, e, nowMs), id, m) ==> MatchedAs(q, id, m);
  }

  /**
   * After any run from an empty queue, at any later time, every live waiting entry is in its game's list
   * exactly once and is its user's active entry, matched entries are in no list, and a match has at most
   * two entries, of different users.
   */
  lemma {:induction false} RunKeepsInv(moves: seq<Move>, n: nat, nowMs: int, lt: IdOrder)
    requires n <= |moves| && Timed(moves) && forall i | 0 <= i < n :: moves[i].nowMs <= nowMs
    requires forall i | 0 <= i < n :: FreshIds(Run(Queue(map[], map[], map[]), moves, i, lt), moves[i])
    ensures Inv(Run(Queue(map[], map[], map[]), moves, n, lt), nowMs)
    decreases n
  {
    hide Step, FreshIds;
    if n > 0 {
      hide Inv;
      var now := moves[n - 1].nowMs;
      RunKeepsInv(moves, n - 1, now, lt);
      StepKeepsInv(Run(Queue(map[], map[], map[]), moves, n - 1, lt), moves[n - 1], lt);
      TimeKeepsInv(Run(Queue(map[], map[], map[]), moves, n, lt), now, nowMs);
    }
  }
}
