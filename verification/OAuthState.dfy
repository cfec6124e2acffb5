/**
 The OAuth `state` parameter (section 4.1.1 of RFC 6749): a record is saved when authorization begins and
 consumed by the callback. A callback that fails validation puts the record back.
 */
module OAuthState {
  import opened Text
  import opened BoundedTable

  /** `None` stands for Go's zero time. */
  datatype Record = Record(
    state: string, providerID: string, scopeType: string, scopeID: string, redirectURI: string, payload: string,
    createdAt: Option<int>, expiresAt: Option<int>)

  type Entries = map<string, Record>

  datatype Config = Config(ttl: int, maxEntries: int)

  predicate WellFormed(config: Config) { config.ttl > 0 && config.maxEntries > 0 }

  predicate Expired(record: Record, now: int) { record.expiresAt.Some? && now > record.expiresAt.value }

  function Unexpired(entries: Entries, now: int): Entries {
    map k | k in entries && !Expired(entries[k], now) :: entries[k]
  }

  function Stamped(config: Config, record: Record, now: int): Record {
    var created := if record.createdAt.None? then now else record.createdAt.value;
    record.(createdAt := Some(created),
            expiresAt := Some(if record.expiresAt.None? then created + config.ttl else record.expiresAt.value))
  }

  /** What eviction sorts by. */
  function Deadline(config: Config, now: int): Record -> int {
    (record: Record) =>
      if record.expiresAt.Some? then record.expiresAt.value
      else if record.createdAt.None? then now
      else record.createdAt.value + config.ttl
  }

  // ---------------------------------------------------------------- save and consume

  ghost predicate SaveStep(config: Config, before: Entries, record: Record, now: int, after: Entries) {
    var key, pruned := Trim(record.state), Unexpired(before, now);
    if key == "" then after == before
    else
      && key in after && after[key] == Stamped(config, record, now)
      && if key in pruned then after - {key} == pruned - {key}
         else Trimmed(pruned, after - {key}, config.maxEntries - 1, Deadline(config, now))
  }

  function Consumed(before: Entries, state: string, now: int): (Option<Record>, Entries) {
    var key, pruned := Trim(state), Unexpired(before, now);
    if key == "" then (None, before)
    else if key in pruned then (Some(pruned[key]), pruned - {key})
    else (None, pruned)
  }

  ghost predicate FiledRecord(k: string, record: Record) {
    k != "" && Trim(record.state) == k && record.createdAt.Some? && record.expiresAt.Some?
  }

  /** Every record is filed under its own trimmed state and carries its times; the table fits. */
  ghost predicate Filed(config: Config, entries: Entries) {
    |entries| <= config.maxEntries && forall k :: k in entries ==> FiledRecord(k, entries[k])
  }

  lemma UnexpiredSmaller(entries: Entries, now: int)
    ensures |Unexpired(entries, now)| <= |entries|
  {
    assert Unexpired(entries, now).Keys <= entries.Keys;
    SubsetSize(Unexpired(entries, now).Keys, entries.Keys);
  }

  lemma SavePlaces(config: Config, before: Entries, record: Record, now: int, after: Entries)
    requires WellFormed(config) && |before| <= config.maxEntries && SaveStep(config, before, record, now, after)
    ensures |after| <= config.maxEntries
    ensures forall k :: k in after && (k != Trim(record.state) || k == "") ==> k in before && after[k] == before[k]
  {
    var key, pruned := Trim(record.state), Unexpired(before, now);
    UnexpiredSmaller(before, now);
    hide Trim, Deadline, Stamped;
    if key != "" {
      var room := after - {key};
      assert after.Keys == room.Keys + {key};
      assert key in pruned ==> pruned.Keys == (pruned - {key}).Keys + {key};
      forall k | k in after && k != key ensures k in before && after[k] == before[k] {
        assert k in room;
        assert k in pruned;
      }
    }
  }

  lemma SaveKeepsFiled(config: Config, before: Entries, record: Record, now: int, after: Entries)
    requires WellFormed(config) && Filed(config, before) && SaveStep(config, before, record, now, after)
    ensures Filed(config, after)
  {
    SavePlaces(config, before, record, now, after);
    if Trim(record.state) != "" { assert FiledRecord(Trim(record.state), after[Trim(record.state)]); }
    hide SaveStep, Trim, FiledRecord;
  }

  lemma ConsumeKeepsFiled(config: Config, before: Entries, state: string, now: int)
    requires Filed(config, before)
    ensures Filed(config, Consumed(before, state, now).1)
    ensures Consumed(before, state, now).0.Some? ==> |Consumed(before, state, now).1| < config.maxEntries
  {
    UnexpiredSmaller(before, now);
    hide Trim;
    var key, pruned := Trim(state), Unexpired(before, now);
    if key in pruned { assert pruned.Keys == (pruned - {key}).Keys + {key}; }
  }

  // ---------------------------------------------------------------- the callback

  datatype Callback = Callback(
    state: string, providerID: string, scopeType: string, scopeID: string, redirectURI: string, needsRedirect: bool)

  /** `fold` is simple case folding, the equivalence behind strings.EqualFold. */
  predicate Matches(fold: string -> string, record: Record, req: Callback) {
    var saved, given := Trim(record.redirectURI), Trim(req.redirectURI);
    && fold(Trim(record.providerID)) == fold(Trim(req.providerID))
    && fold(Trim(record.scopeType)) == fold(Trim(req.scopeType))
    && Trim(record.scopeID) == Trim(req.scopeID)
    && (saved == "" || (given != "" && saved == given) || (given == "" && !req.needsRedirect))
  }

  /** Consume, validate, and on a mismatch save the consumed record again at `later`. */
  ghost predicate CallbackStep(
    config: Config, fold: string -> string, before: Entries, req: Callback, now: int, later: int,
    after: Entries, passed: bool)
  {
    var (found, rest) := Consumed(before, req.state, now);
    && passed == (found.Some? && Matches(fold, found.value, req))
    && if found.Some? && !passed then SaveStep(config, rest, found.value, later, after) else after == rest
  }

  /** The callback is for what was saved: provider and scope type in any case, scope id, and the redirect if saved. */
  ghost predicate Fits(fold: string -> string, saved: Record, req: Callback) {
    && fold(Trim(req.providerID)) == fold(Trim(saved.providerID))
    && fold(Trim(req.scopeType)) == fold(Trim(saved.scopeType))
    && Trim(req.scopeID) == Trim(saved.scopeID)
    && (Trim(saved.redirectURI) != "" && (Trim(req.redirectURI) != "" || req.needsRedirect) ==>
          Trim(req.redirectURI) == Trim(saved.redirectURI))
  }

  /**
   A saved record lets a callback for its state through exactly until it expires, and then only one that fits; the
   time is the record's own or, lacking one, the lifetime after its creation or its saving.
   */
  lemma SavedPassesExactly(
    config: Config, fold: string -> string, before: Entries, record: Record, savedAt: int, mid: Entries,
    req: Callback, now: int, later: int, after: Entries, passed: bool)
    requires Trim(record.state) == Trim(req.state) != "" && SaveStep(config, before, record, savedAt, mid)
    requires CallbackStep(config, fold, mid, req, now, later, after, passed)
    ensures passed <==>
      && Fits(fold, record, req)
      && now <= (if record.expiresAt.Some? then record.expiresAt.value
                 else config.ttl + if record.createdAt.Some? then record.createdAt.value else savedAt)
  {
    hide Trim, SaveStep;
    SavedIsFound(config, before, record, savedAt, mid, req.state, now);
  }

  lemma SavedIsFound(
    config: Config, before: Entries, record: Record, savedAt: int, mid: Entries, state: string, now: int)
    requires Trim(record.state) == Trim(state) != "" && SaveStep(config, before, record, savedAt, mid)
    ensures Consumed(mid, state, now).0 ==
      if Expired(Stamped(config, record, savedAt), now) then None else Some(Stamped(config, record, savedAt))
  {
    hide Trim, Trimmed, Stamped, Expired;
  }

  /** A passing callback removes exactly its own record. */
  lemma PassingCallbackRemovesOwn(
    config: Config, fold: string -> string, before: Entries, req: Callback, now: int, later: int, after: Entries)
    requires Filed(config, before) && CallbackStep(config, fold, before, req, now, later, after, true)
    ensures Trim(req.state) in before && !Expired(before[Trim(req.state)], now)
    ensures after == Unexpired(before, now) - {Trim(req.state)}
  {
    hide Trim, Matches;
  }

  /** A failing callback leaves every unexpired record in place, its own included, and evicts nothing. */
  lemma FailingCallbackRestores(
    config: Config, fold: string -> string, before: Entries, req: Callback, now: int, later: int, after: Entries)
    requires WellFormed(config) && Filed(config, before) && now <= later
    requires CallbackStep(config, fold, before, req, now, later, after, false)
    ensures forall k :: k in before && !Expired(before[k], later) ==> k in after && after[k] == before[k]
    ensures forall k :: k in after ==> k in before && after[k] == before[k]
    ensures Filed(config, after)
  {
    var (found, rest) := Consumed(before, req.state, now);
    var key := Trim(req.state);
    ConsumeKeepsFiled(config, before, req.state, now);
    if found.Some? {
      SaveKeepsFiled(config, rest, found.value, later, after);
      RestoredUnderOwnKey(config, before, req, now);
      RestoreIsExact(config, rest, found.value, key, later, after);
      hide Trim, Matches, SaveStep, Filed, Unexpired;
      RestoredView(before, key, now, later);
    }
  }

  lemma RestoredView(before: Entries, key: string, now: int, later: int)
    requires key in before && now <= later
    ensures var after := Unexpired(Unexpired(before, now) - {key}, later)[key := before[key]];
      && (forall k :: k in before && !Expired(before[k], later) ==> k in after && after[k] == before[k])
      && (forall k :: k in after ==> k in before && after[k] == before[k])
    ensures var after := Unexpired(before, now);
      && (forall k :: k in before && !Expired(before[k], later) ==> k in after && after[k] == before[k])
      && (forall k :: k in after ==> k in before && after[k] == before[k])
  {
  }

  /** With a free place for it, saving a stamped record evicts nothing. */
  lemma RestoreIsExact(config: Config, rest: Entries, record: Record, key: string, later: int, after: Entries)
    requires |rest| < config.maxEntries && key !in rest && key == Trim(record.state) != ""
    requires record.createdAt.Some? && record.expiresAt.Some?
    requires SaveStep(config, rest, record, later, after)
    ensures after == Unexpired(rest, later)[key := record]
  {
    var pruned := Unexpired(rest, later);
    UnexpiredSmaller(rest, later);
    hide Trim;
    NothingEvicted(pruned, after - {key}, config.maxEntries - 1, Deadline(config, later));
    assert after == (after - {key})[key := record];
  }

  lemma RestoredUnderOwnKey(config: Config, before: Entries, req: Callback, now: int)
    requires Filed(config, before) && Consumed(before, req.state, now).0.Some?
    ensures var found := Consumed(before, req.state, now).0.value;
      && Trim(found.state) == Trim(req.state) != "" && Trim(req.state) in before && found == before[Trim(req.state)]
      && found.createdAt.Some? && found.expiresAt.Some?
  {
    assert FiledRecord(Trim(req.state), before[Trim(req.state)]);
    hide Trim;
  }

  // ---------------------------------------------------------------- runs

  datatype Op = Begin(record: Record, now: int) | Return(req: Callback, now: int, later: int)

  ghost predicate OpStep(
    config: Config, fold: string -> string, before: Entries, op: Op, after: Entries, passed: bool)
  {
    match op
    case Begin(record, now) => SaveStep(config, before, record, now, after) && !passed
    case Return(req, now, later) => CallbackStep(config, fold, before, req, now, later, after, passed)
  }

  ghost predicate IsRun(
    config: Config, fold: string -> string, ops: seq<Op>, stores: seq<Entries>, passed: seq<bool>)
  {
    && |stores| == |ops| + 1 && |passed| == |ops| && stores[0] == map[]
    && forall i :: 0 <= i < |ops| ==> OpStep(config, fold, stores[i], ops[i], stores[i + 1], passed[i])
  }

  ghost function Saves(ops: seq<Op>, n: nat, key: string): nat
    requires n <= |ops|
  {
    if n == 0 then 0
    else Saves(ops, n - 1, key) + if ops[n - 1].Begin? && Trim(ops[n - 1].record.state) == key then 1 else 0
  }

  ghost function Passes(ops: seq<Op>, passed: seq<bool>, n: nat, key: string): nat
    requires n <= |ops| == |passed|
  {
    if n == 0 then 0
    else
      var now := if ops[n - 1].Return? && passed[n - 1] && Trim(ops[n - 1].req.state) == key then 1 else 0;
      Passes(ops, passed, n - 1, key) + now
  }

  lemma StepTally(
    config: Config, fold: string -> string, before: Entries, op: Op, after: Entries, passed: bool, key: string)
    requires WellFormed(config) && Filed(config, before) && OpStep(config, fold, before, op, after, passed)
    ensures Filed(config, after)
    ensures op.Begin? && Trim(op.record.state) != key && key in after ==> key in before
    ensures op.Return? && key in after ==> key in before && !(passed && Trim(op.req.state) == key)
    ensures op.Return? && passed && Trim(op.req.state) == key ==> key in before
  {
    hide Trim, Matches, SaveStep, FiledRecord;
    match op
    case Begin(record, now) =>
      SaveKeepsFiled(config, before, record, now, after);
      SavePlaces(config, before, record, now, after);
    case Return(req, now, later) =>
      ConsumeKeepsFiled(config, before, req.state, now);
      var (found, rest) := Consumed(before, req.state, now);
      if found.Some? && !passed {
        RestoredUnderOwnKey(config, before, req, now);
        SaveKeepsFiled(config, rest, found.value, later, after);
        SavePlaces(config, rest, found.value, later, after);
      }
  }

  /**
   Over any run each save is consumed successfully at most once, however many callbacks failed in between,
   and the store stays within its limit.
   */
  lemma {:induction false} EachSavePassesOnce(
    config: Config, fold: string -> string, ops: seq<Op>, stores: seq<Entries>, passed: seq<bool>, n: nat, key: string)
    requires WellFormed(config) && IsRun(config, fold, ops, stores, passed) && n <= |ops|
    ensures Filed(config, stores[n]) && |stores[n]| <= config.maxEntries
    ensures Passes(ops, passed, n, key) + (if key in stores[n] then 1 else 0) <= Saves(ops, n, key)
  {
    hide OpStep, Trim;
    if n > 0 {
      EachSavePassesOnce(config, fold, ops, stores, passed, n - 1, key);
      StepTally(config, fold, stores[n - 1], ops[n - 1], stores[n], passed[n - 1], key);
    }
  }

  // ---------------------------------------------------------------- the store and the callback service

  class MemoryOAuthStateStore {
    const config: Config
    var entries: Entries

    ghost predicate Valid()
      reads this
    {
      WellFormed(config) && Filed(config, entries)
    }

    constructor (ttl: int, maxEntries: int)
      ensures Valid() && entries == map[]
      ensures config == Config(if ttl > 0 then ttl else 900_000_000_000, if maxEntries > 0 then maxEntries else 4096)
    {
      config := Config(if ttl <= 0 then 900_000_000_000 else ttl, if maxEntries <= 0 then 4096 else maxEntries);
      entries := map[];
    }

    method PruneExpired(now: int)
      modifies this`entries
      ensures entries == Unexpired(old(entries), now) && entries.Keys <= old(entries).Keys
    {
      var pending := entries.Keys;
      while pending != {}
        invariant pending <= entries.Keys <= old(entries).Keys
        invariant forall k :: k in entries ==>
          entries[k] == old(entries)[k] && (k in pending || !Expired(entries[k], now))
        invariant forall k :: k in old(entries) && !Expired(old(entries)[k], now) ==> k in entries
      {
        var key :| key in pending;
        pending := pending - {key};
        if entries[key].expiresAt.Some? && now > entries[key].expiresAt.value {
          entries := entries - {key};
        }
      }
    }

    /** The scan uses the blank key for "none yet"; with no blank key filed it finds an earliest deadline. */
    method EvictOldest(now: int) returns (ghost evicted: string)
      requires entries != map[] && "" !in entries
      modifies this`entries
      ensures evicted in old(entries) && entries == old(entries) - {evicted}
      ensures forall k :: k in old(entries) ==>
        Deadline(config, now)(old(entries)[evicted]) <= Deadline(config, now)(old(entries)[k])
    {
      var pending, oldestKey, oldestAt := entries.Keys, "", 0;
      while pending != {}
        invariant pending <= entries.Keys
        invariant if oldestKey == "" then pending == entries.Keys
          else oldestKey in entries && oldestAt == Deadline(config, now)(entries[oldestKey])
               && forall k :: k in entries && k !in pending ==> oldestAt <= Deadline(config, now)(entries[k])
      {
        var key :| key in pending;
        pending := pending - {key};
        var record := entries[key];
        var candidateAt := if record.expiresAt.Some? then record.expiresAt.value
                           else if record.createdAt.None? then now
                           else record.createdAt.value + config.ttl;
        if oldestKey == "" || candidateAt < oldestAt {
          oldestKey, oldestAt := key, candidateAt;
        }
      }
      entries := entries - {oldestKey};
      return oldestKey;
    }

    method EnforceCapacity(now: int, incoming: int)
      requires "" !in entries && 0 <= incoming <= config.maxEntries
      modifies this`entries
      ensures Trimmed(old(entries), entries, config.maxEntries - incoming, Deadline(config, now))
    {
      hide Deadline;
      var target := config.maxEntries - incoming;
      while |entries| > target
        invariant "" !in entries && entries.Keys <= old(entries).Keys
        invariant |entries| >= target || entries == old(entries)
        invariant |entries| <= |old(entries)| && (|entries| == |old(entries)| ==> entries == old(entries))
        invariant forall k :: k in entries ==> entries[k] == old(entries)[k]
        invariant forall g, k :: g in old(entries) && g !in entries && k in entries ==>
          Deadline(config, now)(old(entries)[g]) <= Deadline(config, now)(old(entries)[k])
      {
        ghost var before := entries;
        ghost var evicted := EvictOldest(now);
        assert entries.Keys == before.Keys - {evicted};
      }
    }

    /** Prune, and make a place for a state that is not filed yet. */
    method MakeRoom(state: string, now: int)
      requires WellFormed(config) && "" !in entries
      modifies this`entries
      ensures if state in Unexpired(old(entries), now) then entries == Unexpired(old(entries), now)
              else Trimmed(Unexpired(old(entries), now), entries, config.maxEntries - 1, Deadline(config, now))
    {
      hide Trimmed, Deadline, Unexpired;
      PruneExpired(now);
      if state !in entries {
        EnforceCapacity(now, 1);
      }
    }

    method Save(record: Record, now: int) returns (ok: bool)
      requires Valid()
      modifies this`entries
      ensures Valid() && ok == (Trim(record.state) != "")
      ensures SaveStep(config, old(entries), record, now, entries)
    {
      BlankNotFiled(config, entries);
      hide Trim, Filed, Unexpired, Trimmed, Deadline;
      var state := Trim(record.state);
      if state == "" {
        return false;
      }
      hide SaveStep;
      var createdAt := if record.createdAt.None? then now else record.createdAt.value;
      var expiresAt := if record.expiresAt.None? then createdAt + config.ttl else record.expiresAt.value;
      var stamped := record.(createdAt := Some(createdAt), expiresAt := Some(expiresAt));
      assert stamped == Stamped(config, record, now);
      hide Stamped;
      MakeRoom(state, now);
      SavedInRoom(config, old(entries), record, now, entries);
      entries := entries[state := stamped];
      SaveKeepsFiled(config, old(entries), record, now, entries);
      return true;
    }

    method Consume(state: string, now: int) returns (found: Option<Record>)
      requires Valid()
      modifies this`entries
      ensures Valid() && (found, entries) == Consumed(old(entries), state, now)
    {
      ConsumeKeepsFiled(config, entries, state, now);
      hide Trim, Filed;
      var key := Trim(state);
      if key == "" {
        return None;
      }
      PruneExpired(now);
      if key !in entries {
        return None;
      }
      found := Some(entries[key]);
      entries := entries - {key};
    }
  }

  lemma SavedInRoom(config: Config, before: Entries, record: Record, now: int, room: Entries)
    requires Trim(record.state) != ""
    requires var key, pruned := Trim(record.state), Unexpired(before, now);
      if key in pruned then room == pruned else Trimmed(pruned, room, config.maxEntries - 1, Deadline(config, now))
    ensures SaveStep(config, before, record, now, room[Trim(record.state) := Stamped(config, record, now)])
  {
    var key := Trim(record.state);
    hide Trim, Deadline, Stamped, Unexpired, Trimmed;
    assert room[key := Stamped(config, record, now)] - {key} == room - {key};
    assert key !in room ==> room - {key} == room;
    if key !in Unexpired(before, now) { TrimmedLacks(config, before, now, room, key); }
  }

  lemma TrimmedLacks(config: Config, before: Entries, now: int, room: Entries, key: string)
    requires key !in Unexpired(before, now)
    requires Trimmed(Unexpired(before, now), room, config.maxEntries - 1, Deadline(config, now))
    ensures key !in room
  {
  }

  lemma BlankNotFiled(config: Config, entries: Entries)
    requires Filed(config, entries)
    ensures "" !in entries
  {
    forall k | k in entries ensures k != "" { assert FiledRecord(k, entries[k]); }
  }

  class CallbackService {
    const fold: string -> string
    const store: MemoryOAuthStateStore

    constructor (fold: string -> string, store: MemoryOAuthStateStore)
      ensures this.fold == fold && this.store == store
    {
      this.fold, this.store := fold, store;
    }

    method ConsumeCallbackState(req: Callback, now: int, later: int) returns (record: Option<Record>)
      requires store.Valid()
      modifies store
      ensures store.Valid()
      ensures CallbackStep(store.config, fold, old(store.entries), req, now, later, store.entries, record.Some?)
      // It passes exactly on a filed, unexpired record that fits it, and hands that record out.
      ensures record.Some? <==>
        && Trim(req.state) in old(store.entries)
        && var saved := old(store.entries)[Trim(req.state)];
           && (saved.expiresAt.Some? ==> now <= saved.expiresAt.value)
           && Fits(fold, saved, req)
      ensures record.Some? ==> record.value == old(store.entries)[Trim(req.state)]
    {
      BlankNotFiled(store.config, store.entries);

      hide Trim, Filed, SaveStep;
      record := store.Consume(req.state, now);
      if record.None? {
        return;
      }
      if fold(Trim(record.value.providerID)) != fold(Trim(req.providerID))
         || fold(Trim(record.value.scopeType)) != fold(Trim(req.scopeType))
         || Trim(record.value.scopeID) != Trim(req.scopeID) {
        var _ := store.Save(record.value, later);
        return None;
      }
      var saved, given := Trim(record.value.redirectURI), Trim(req.redirectURI);
      if saved != "" && ((given != "" && saved != given) || (given == "" && req.needsRedirect)) {
        var _ := store.Save(record.value, later);
        return None;
      }
    }
  }
}
