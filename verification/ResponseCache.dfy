/**
 The agent's idempotency cache: a repeated command is answered from the cache instead of
 being executed again.

 One call is one critical section. The clock is whatever the caller passes, so nothing here
 assumes that it moves forward unless a statement says so.
 */
module ResponseCache {
  import opened Base

  datatype Response = Response(requestId: Id, body: Id)
  datatype Entry = Entry(digest: Id, status: int, response: Response, expiresAt: int)
  type Entries = map<string, Entry>

  /** `status` and `response` are what executing the command yields, if it is executed. */
  datatype Call = Call(key: string, digest: Id, requestId: Id, now: int, status: int, response: Response)
  datatype Answer =
    | Replayed(status: int, response: Response)
    | Executed(status: int, response: Response)
    | DigestConflict

  // ----- One call ---------------------------------------------------------

  function Pruned(entries: Entries, now: int): Entries {
    map k | k in entries && entries[k].expiresAt > now :: entries[k]
  }

  /** A key with the earliest expiry is gone; which one of several is not determined. */
  ghost predicate Evicts(before: Entries, after: Entries) {
    exists key :: key in before && after == before - {key} && forall k :: k in before ==>
      before[key].expiresAt <= before[k].expiresAt
  }

  function NewEntry(call: Call, ttl: int): Entry {
    Entry(call.digest, call.status, call.response, call.now + ttl)
  }

  /** Room for one more entry was made if it was needed. */
  ghost predicate MakesRoom(before: Entries, after: Entries, limit: int) {
    if |before| >= limit then (before == map[] && after == before) || Evicts(before, after) else after == before
  }

  ghost predicate Executes(before: Entries, call: Call, answer: Answer, after: Entries, limit: int, ttl: int) {
    var live := Pruned(before, call.now);
    if call.key in live then
      && after == live
      && answer == if live[call.key].digest != call.digest then DigestConflict
                   else Replayed(live[call.key].status, live[call.key].response.(requestId := call.requestId))
    else
      && answer == Executed(call.status, call.response)
      && if call.status >= 500 then after == live
         else exists room :: MakesRoom(live, room, limit) && after == room[call.key := NewEntry(call, ttl)]
  }

  // ----- Histories --------------------------------------------------------

  datatype Event = Event(call: Call, answer: Answer, after: Entries)

  ghost function StateAt(events: seq<Event>, n: nat): Entries
    requires n <= |events|
  {
    if n == 0 then map[] else events[n - 1].after
  }

  /** A history of the cache from its creation. */
  ghost predicate History(events: seq<Event>, limit: int, ttl: int) {
    forall i {:trigger StepAt(events, i, limit, ttl)} :: 0 <= i < |events| ==> StepAt(events, i, limit, ttl)
  }

  ghost predicate StepAt(events: seq<Event>, i: nat, limit: int, ttl: int)
    requires i < |events|
  {
    Executes(StateAt(events, i), events[i].call, events[i].answer, events[i].after, limit, ttl)
  }

  /**
   Every call is answered, and by exactly one of three: a conflict or a replay if the key is there and
   unexpired, and otherwise its own execution, whose status and response it is given. Failures of the
   server are not kept.
   */
  lemma AnswersAreExact(events: seq<Event>, i: nat, limit: int, ttl: int)
    requires History(events, limit, ttl) && i < |events|
    ensures var call, live := events[i].call, Pruned(StateAt(events, i), events[i].call.now);
      && (events[i].answer.Executed? <==> call.key !in live)
      && (events[i].answer.DigestConflict? <==> call.key in live && live[call.key].digest != call.digest)
      && (events[i].answer.Executed? ==> events[i].answer == Executed(call.status, call.response))
      && (!Stored(events[i]) ==> events[i].after == live)
      && (Stored(events[i]) ==>
            && call.key in events[i].after && events[i].after[call.key] == NewEntry(call, ttl)
            && forall k :: k in events[i].after && k != call.key ==> k in live && events[i].after[k] == live[k])
  {
    assert StepAt(events, i, limit, ttl);
    hide Pruned;
  }

  /** The call was executed and its response kept. */
  predicate Stored(e: Event) {
    e.answer.Executed? && e.call.status < 500
  }

  /** Event `i` is the source of the entry under its key in the state after `n` events. */
  ghost predicate SourceOf(events: seq<Event>, i: int, n: nat, ttl: int)
    requires n <= |events|
  {
    && 0 <= i < n && Stored(events[i])
    && events[i].call.key in StateAt(events, n)
    && StateAt(events, n)[events[i].call.key] == NewEntry(events[i].call, ttl)
    && forall m :: i < m < n && Stored(events[m]) ==> events[m].call.key != events[i].call.key
  }

  ghost predicate HasSource(events: seq<Event>, n: nat, ttl: int, key: string)
    requires n <= |events|
  {
    exists i :: SourceOf(events, i, n, ttl) && events[i].call.key == key
  }

  lemma StepEntries(before: Entries, call: Call, answer: Answer, after: Entries, limit: int, ttl: int, key: string)
    requires Executes(before, call, answer, after, limit, ttl) && key in after
    ensures answer.Executed? && call.status < 500 && key == call.key ==> after[key] == NewEntry(call, ttl)
    ensures !(answer.Executed? && call.status < 500 && key == call.key) ==>
      key in before && after[key] == before[key] && before[key].expiresAt > call.now
  {
  }

  /** Every entry of every state comes from the latest stored execution under its key. */
  lemma {:induction false} EntriesHaveSources(events: seq<Event>, n: nat, limit: int, ttl: int)
    requires History(events, limit, ttl) && n <= |events|
    ensures forall key :: key in StateAt(events, n) ==> HasSource(events, n, ttl, key)
  {
    hide Executes;
    if n > 0 {
      EntriesHaveSources(events, n - 1, limit, ttl);
      forall key | key in StateAt(events, n) ensures HasSource(events, n, ttl, key) {
        SourceSurvives(events, n - 1, limit, ttl, key);
      }
    }
  }

  lemma SourceSurvives(events: seq<Event>, n: nat, limit: int, ttl: int, key: string)
    requires History(events, limit, ttl) && n < |events| && key in events[n].after
    requires key in StateAt(events, n) ==> HasSource(events, n, ttl, key)
    ensures HasSource(events, n + 1, ttl, key)
  {
    hide Executes, NewEntry;
    var e := events[n];
    assert StepAt(events, n, limit, ttl);
    StepEntries(StateAt(events, n), e.call, e.answer, e.after, limit, ttl, key);
    if Stored(e) && key == e.call.key {
      assert SourceOf(events, n, n + 1, ttl);
    } else {
      var i :| SourceOf(events, i, n, ttl) && events[i].call.key == key;
      assert SourceOf(events, i, n + 1, ttl);
    }
  }

  // ----- Bounded size -----------------------------------------------------

  lemma EvictSize(before: Entries, after: Entries)
    requires Evicts(before, after)
    ensures |after| == |before| - 1
  {
    var key :| key in before && after == before - {key};
    assert after.Keys == before.Keys - {key};
  }

  lemma InsertSize(entries: Entries, key: string, entry: Entry)
    ensures |entries[key := entry]| <= |entries| + 1
  {
    assert entries[key := entry].Keys == entries.Keys + {key};
  }

  lemma RoomSize(before: Entries, after: Entries, limit: int)
    requires MakesRoom(before, after, limit) && 1 <= limit && |before| <= limit
    ensures |after| < limit
  {
    hide Evicts;
    if |before| >= limit {
      EvictSize(before, after);
    }
  }

  lemma StepSize(before: Entries, call: Call, answer: Answer, after: Entries, limit: int, ttl: int)
    requires Executes(before, call, answer, after, limit, ttl) && 1 <= limit && |before| <= limit
    ensures |after| <= limit
  {
    var live := Pruned(before, call.now);
    SubmapSize(live, before);
    hide MakesRoom, Pruned, NewEntry;
    if call.key !in live && call.status < 500 {
      var room :| MakesRoom(live, room, limit) && after == room[call.key := NewEntry(call, ttl)];
      RoomSize(live, room, limit);
      InsertSize(room, call.key, NewEntry(call, ttl));
    }
  }

  lemma SubmapSize(small: Entries, large: Entries)
    requires forall k :: k in small ==> k in large
    ensures |small| <= |large|
  {
    SubsetSize(small.Keys, large.Keys);
  }

  lemma {:induction false} SubsetSize(small: set<string>, large: set<string>)
    requires small <= large
    ensures |small| <= |large|
  {
    if small != {} {
      var x :| x in small;
      SubsetSize(small - {x}, large - {x});
    }
  }

  /** The cache never holds more entries than its limit. */
  lemma {:induction false} SizeBounded(events: seq<Event>, n: nat, limit: int, ttl: int)
    requires History(events, limit, ttl) && n <= |events| && 1 <= limit
    ensures |StateAt(events, n)| <= limit
  {
    hide Executes;
    if n > 0 {
      SizeBounded(events, n - 1, limit, ttl);
      var e := events[n - 1];
      assert StepAt(events, n - 1, limit, ttl);
      StepSize(StateAt(events, n - 1), e.call, e.answer, e.after, limit, ttl);
    }
  }

  // ----- Replay fidelity --------------------------------------------------

  /**
   A replayed answer is the answer of the latest stored execution under the key, with only
   the request identifier exchanged; that execution had the same digest and has not expired.
   */
  lemma ReplayIsFaithful(events: seq<Event>, j: nat, limit: int, ttl: int) returns (i: nat)
    requires History(events, limit, ttl) && j < |events| && events[j].answer.Replayed?
    ensures i < j && Stored(events[i]) && events[i].call.key == events[j].call.key
    ensures events[i].call.digest == events[j].call.digest
    ensures events[j].answer == Replayed(events[i].call.status,
      events[i].call.response.(requestId := events[j].call.requestId))
    ensures events[j].call.now < events[i].call.now + ttl
    ensures forall m :: i < m < j && Stored(events[m]) ==> events[m].call.key != events[j].call.key
  {
    EntriesHaveSources(events, j, limit, ttl);
    assert StepAt(events, j, limit, ttl);
    assert HasSource(events, j, ttl, events[j].call.key);
    i :| SourceOf(events, i, j, ttl) && events[i].call.key == events[j].call.key;
  }

  /** A conflict is reported only against a live execution of the key with another digest. */
  lemma ConflictIsGenuine(events: seq<Event>, j: nat, limit: int, ttl: int) returns (i: nat)
    requires History(events, limit, ttl) && j < |events| && events[j].answer.DigestConflict?
    ensures i < j && Stored(events[i]) && events[i].call.key == events[j].call.key
    ensures events[i].call.digest != events[j].call.digest
    ensures events[j].call.now < events[i].call.now + ttl
  {
    EntriesHaveSources(events, j, limit, ttl);
    assert StepAt(events, j, limit, ttl);
    assert HasSource(events, j, ttl, events[j].call.key);
    i :| SourceOf(events, i, j, ttl) && events[i].call.key == events[j].call.key;
  }

  // ----- Retention --------------------------------------------------------

  /** At event `m` the live entries fill the cache, none expires before the one of event `i`, and one must go. */
  ghost predicate Displaces(events: seq<Event>, i: nat, m: nat, limit: int, ttl: int)
    requires i < |events| && m < |events|
  {
    var live := Pruned(StateAt(events, m), events[m].call.now);
    && Stored(events[m]) && events[m].call.key !in live && |live| >= limit && events[i].call.key in live
    && forall k :: k in live ==> live[k].expiresAt >= events[i].call.now + ttl
  }

  lemma LossExplained(before: Entries, call: Call, answer: Answer, after: Entries, limit: int, ttl: int, key: string)
    requires Executes(before, call, answer, after, limit, ttl) && key in before && key !in after
    ensures before[key].expiresAt <= call.now ||
      var live := Pruned(before, call.now);
      && answer.Executed? && call.status < 500 && call.key !in live && |live| >= limit && key in live
      && forall k :: k in live ==> before[key].expiresAt <= live[k].expiresAt
  {
  }

  /** The entry of event `i` is still there, or the event at which it was lost explains why. */
  lemma {:induction false} KeptOrExplained(events: seq<Event>, i: nat, n: nat, limit: int, ttl: int)
    requires History(events, limit, ttl) && i < n <= |events| && Stored(events[i])
    requires forall m :: i < m < n && Stored(events[m]) ==> events[m].call.key != events[i].call.key
    ensures SourceOf(events, i, n, ttl)
      || (exists m :: i < m < n && events[m].call.now >= events[i].call.now + ttl)
      || (exists m :: i < m < n && Displaces(events, i, m, limit, ttl))
  {
    hide Executes, NewEntry;
    var key, e := events[i].call.key, events[n - 1];
    assert StepAt(events, n - 1, limit, ttl);
    if n == i + 1 {
      StoredIsKept(StateAt(events, i), e.call, e.answer, e.after, limit, ttl);
    } else {
      KeptOrExplained(events, i, n - 1, limit, ttl);
      if SourceOf(events, i, n - 1, ttl) {
        if key in e.after {
          StepEntries(StateAt(events, n - 1), e.call, e.answer, e.after, limit, ttl, key);
        } else {
          LossExplained(StateAt(events, n - 1), e.call, e.answer, e.after, limit, ttl, key);
          ExpiryOf(events[i].call, ttl);
          assert e.call.now >= events[i].call.now + ttl || Displaces(events, i, n - 1, limit, ttl);
        }
      }
    }
  }

  lemma ExpiryOf(call: Call, ttl: int)
    ensures NewEntry(call, ttl).expiresAt == call.now + ttl
  {
  }

  lemma StoredIsKept(before: Entries, call: Call, answer: Answer, after: Entries, limit: int, ttl: int)
    requires Executes(before, call, answer, after, limit, ttl) && answer.Executed? && call.status < 500
    ensures call.key in after && after[call.key] == NewEntry(call, ttl)
  {
  }

  lemma ExecutedMeansAbsent(before: Entries, call: Call, answer: Answer, after: Entries, limit: int, ttl: int)
    requires Executes(before, call, answer, after, limit, ttl) && answer.Executed?
    ensures call.key in before ==> before[call.key].expiresAt <= call.now
  {
  }

  /** A second execution under a key, whatever the clock does, has one of two causes. */
  lemma ReexecutionExplained(events: seq<Event>, i: nat, j: nat, limit: int, ttl: int)
    requires History(events, limit, ttl) && i < j < |events| && Stored(events[i])
    requires events[j].answer.Executed? && events[j].call.key == events[i].call.key
    requires forall m :: i < m < j && Stored(events[m]) ==> events[m].call.key != events[i].call.key
    ensures (exists m :: i < m <= j && events[m].call.now >= events[i].call.now + ttl)
      || (exists m :: i < m < j && Displaces(events, i, m, limit, ttl))
  {
    hide Executes, Displaces;
    KeptOrExplained(events, i, j, limit, ttl);
    if SourceOf(events, i, j, ttl) {
      assert StepAt(events, j, limit, ttl);
      ExecutedMeansAbsent(StateAt(events, j), events[j].call, events[j].answer, events[j].after, limit, ttl);
    }
  }

  /** Keys other than `key` whose responses were stored by the first `n` calls at time `t` or later. */
  ghost function StoredSince(events: seq<Event>, n: nat, t: int, key: string): set<string>
    requires n <= |events|
  {
    set p | 0 <= p < n && Stored(events[p]) && events[p].call.now >= t && events[p].call.key != key ::
      events[p].call.key
  }

  ghost predicate ClockNeverGoesBack(events: seq<Event>) {
    forall i, j :: 0 <= i <= j < |events| ==> events[i].call.now <= events[j].call.now
  }

  lemma ExchangeSize(keys: set<string>, out: string, into: string)
    requires out in keys && into !in keys
    ensures |keys - {out} + {into}| == |keys|
  {
  }

  /** An entry that is there when call `m` displaces that of call `i` was stored no earlier than it. */
  lemma KeptIsStoredSince(events: seq<Event>, i: nat, m: nat, j: nat, limit: int, ttl: int, k: string)
    requires m < j < |events| && i < m && Displaces(events, i, m, limit, ttl) && HasSource(events, m, ttl, k)
    requires k in Pruned(StateAt(events, m), events[m].call.now) && k != events[i].call.key
    ensures k in StoredSince(events, j, events[i].call.now, events[i].call.key)
  {
    var p :| SourceOf(events, p, m, ttl) && events[p].call.key == k;
    assert StateAt(events, m)[k].expiresAt == events[p].call.now + ttl;
  }

  lemma DisplacedByMany(events: seq<Event>, i: nat, m: nat, j: nat, limit: int, ttl: int)
    requires History(events, limit, ttl) && ClockNeverGoesBack(events) && i < m < j < |events|
    requires Displaces(events, i, m, limit, ttl)
    ensures |StoredSince(events, j, events[i].call.now, events[i].call.key)| >= limit
  {
    var live, key := Pruned(StateAt(events, m), events[m].call.now), events[i].call.key;
    var since := StoredSince(events, j, events[i].call.now, key);
    EntriesHaveSources(events, m, limit, ttl);
    assert events[m].call.key in since;
    hide Executes, History, HasSource, StoredSince, NewEntry;
    forall k | k in live && k != key ensures k in since {
      KeptIsStoredSince(events, i, m, j, limit, ttl, k);
    }
    var others := live.Keys - {key} + {events[m].call.key};
    ExchangeSize(live.Keys, key, events[m].call.key);
    SubsetSize(others, since);
  }

  /**
   Exactly-once within the window: with a clock that never goes back, a command whose
   response was stored is not executed again under its key until the time to live has
   passed or `limit` other keys have been stored since.
   */
  lemma {:induction false} ExecutedOnce(events: seq<Event>, i: nat, j: nat, limit: int, ttl: int)
    requires History(events, limit, ttl) && ClockNeverGoesBack(events)
    requires i < j < |events| && Stored(events[i]) && events[j].call.key == events[i].call.key
    requires events[j].call.now < events[i].call.now + ttl
    requires |StoredSince(events, j, events[i].call.now, events[i].call.key)| < limit
    ensures !events[j].answer.Executed?
    decreases j
  {
    hide Executes, History, StoredSince, Displaces;
    var t, key := events[i].call.now, events[i].call.key;
    forall m | i < m < j && Stored(events[m]) ensures events[m].call.key != key {
      if events[m].call.key == key {
        StoredSinceGrows(events, m, j, t, key);
        ExecutedOnce(events, i, m, limit, ttl);
      }
    }
    if events[j].answer.Executed? {
      ReexecutionExplained(events, i, j, limit, ttl);
      var m :| i < m < j && Displaces(events, i, m, limit, ttl);
      DisplacedByMany(events, i, m, j, limit, ttl);
    }
  }

  lemma StoredSinceGrows(events: seq<Event>, m: nat, j: nat, t: int, key: string)
    requires m <= j <= |events|
    ensures |StoredSince(events, m, t, key)| <= |StoredSince(events, j, t, key)|
  {
    SubsetSize(StoredSince(events, m, t, key), StoredSince(events, j, t, key));
  }

  // ----- The cache object -------------------------------------------------

  class Cache {
    var entries: Entries
    const limit: int
    const ttl: int
    ghost var events: seq<Event>

    /** The object's entries are the last state of a genuine history, and every key is non-empty. */
    ghost predicate Valid()
      reads this
    {
      && 1 <= limit && "" !in entries
      && History(events, limit, ttl) && entries == StateAt(events, |events|)
    }

    constructor (limit: int, ttl: int)
      requires 1 <= limit
      ensures Valid() && this.limit == limit && this.ttl == ttl && events == []
    {
      this.limit, this.ttl := limit, ttl;
      entries, events := map[], [];
    }

    /** Deletes expired entries while walking over the map in any order. */
    method Prune(now: int)
      modifies this`entries
      ensures entries == Pruned(old(entries), now)
    {
      var remaining := entries.Keys;
      while remaining != {}
        invariant remaining <= old(entries).Keys
        invariant forall k :: k in entries <==> k in old(entries) && (k in remaining || old(entries)[k].expiresAt > now)
        invariant forall k :: k in entries ==> entries[k] == old(entries)[k]
        decreases |remaining|
      {
        var key :| key in remaining;
        remaining := remaining - {key};
        if !(entries[key].expiresAt > now) {
          entries := entries - {key};
        }
      }
    }

    /** Walks over the map in any order; the empty string stands for "none seen yet". */
    method EvictOldest()
      requires "" !in entries
      modifies this`entries
      ensures if old(entries) == map[] then entries == map[] else Evicts(old(entries), entries)
    {
      var oldestKey, oldestTime := "", 0;
      var remaining := entries.Keys;
      while remaining != {}
        invariant remaining <= entries.Keys
        invariant oldestKey == "" ==> remaining == entries.Keys
        invariant oldestKey != "" ==> oldestKey in entries && oldestTime == entries[oldestKey].expiresAt
        invariant oldestKey != "" ==> forall k :: k in entries && k !in remaining ==> oldestTime <= entries[k].expiresAt
        decreases |remaining|
      {
        var key :| key in remaining;
        remaining := remaining - {key};
        if oldestKey == "" || entries[key].expiresAt < oldestTime {
          oldestKey, oldestTime := key, entries[key].expiresAt;
        }
      }
      if oldestKey != "" {
        entries := entries - {oldestKey};
      }
    }

    /** One call under the lock; the protocol rejects empty keys before it gets here. */
    method Execute(call: Call) returns (answer: Answer)
      requires Valid() && call.key != ""
      modifies this`entries, this`events
      ensures Valid() && events == old(events) + [Event(call, answer, entries)]
    {
      ghost var before := entries;
      Prune(call.now);
      ghost var live := entries;
      if call.key in entries {
        var existing := entries[call.key];
        if existing.digest != call.digest {
          answer := DigestConflict;
        } else {
          answer := Replayed(existing.status, existing.response.(requestId := call.requestId));
        }
      } else {
        answer := Executed(call.status, call.response);
        if call.status < 500 {
          if |entries| >= limit {
            EvictOldest();
          }
          assert MakesRoom(live, entries, limit);
          entries := entries[call.key := NewEntry(call, ttl)];
        }
      }
      assert Executes(before, call, answer, entries, limit, ttl);
      HistoryGrows(events, call, answer, entries, limit, ttl);
      events := events + [Event(call, answer, entries)];
    }
  }

  lemma HistoryGrows(events: seq<Event>, call: Call, answer: Answer, after: Entries, limit: int, ttl: int)
    requires History(events, limit, ttl) && Executes(StateAt(events, |events|), call, answer, after, limit, ttl)
    ensures History(events + [Event(call, answer, after)], limit, ttl)
  {
    hide Executes;
    var events' := events + [Event(call, answer, after)];
    forall i | 0 <= i < |events'| ensures StepAt(events', i, limit, ttl) {
      assert StateAt(events', i) == StateAt(events, i);
      assert i < |events| ==> StepAt(events, i, limit, ttl);
    }
  }

  // ----- Where the bounds are needed --------------------------------------

  /** Without room for a single entry the bound fails at once: nothing can be evicted from an empty cache. */
  lemma NoRoomNoBound(call: Call, limit: int, ttl: int)
    requires limit <= 0 && call.status < 500
    ensures exists after ::
      Executes(map[], call, Executed(call.status, call.response), after, limit, ttl) && |after| > limit
  {
    var after: Entries := map[call.key := NewEntry(call, ttl)];
    assert Pruned(map[], call.now) == map[];
    assert MakesRoom(map[], map[], limit);
    assert Executes(map[], call, Executed(call.status, call.response), after, limit, ttl);
  }
}
