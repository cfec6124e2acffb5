/**
 The replay ledger: a key is accepted once per lifetime. The table is bounded; when it is full, the entry that
 expires first makes room. The bound must be invisible as long as the live keys fit.
 */
module ReplayLedger {
  import opened Text
  import opened BoundedTable

  type Table = map<string, int>

  datatype Request = Request(key: string, ttl: int, now: int)
  datatype Config = Config(defaultTTL: int, maxEntries: int)

  predicate WellFormed(config: Config) { config.defaultTTL > 0 && config.maxEntries > 0 }

  function Lifetime(config: Config, req: Request): int {
    if req.ttl <= 0 then config.defaultTTL else req.ttl
  }

  predicate Keyed(req: Request) { Trim(req.key) != "" }

  /** The keys that are not expired. */
  function Live(table: Table, now: int): set<string> {
    set k | k in table && now < table[k]
  }

  function Pruned(table: Table, now: int): Table { map k | k in table && now < table[k] :: table[k] }

  predicate Accepts(table: Table, req: Request) {
    Keyed(req) && (Trim(req.key) !in table || req.now >= table[Trim(req.key)])
  }

  // ---------------------------------------------------------------- eviction

  predicate Earliest(table: Table, key: string) {
    key in table && forall k :: k in table ==> table[key] <= table[k]
  }

  function Expiry(expiresAt: int): int { expiresAt }

  ghost predicate ClaimStep(config: Config, before: Table, req: Request, after: Table, accepted: bool) {
    if !Keyed(req) then !accepted && after == before
    else
      var key, pruned := Trim(req.key), Pruned(before, req.now);
      && accepted == Accepts(before, req)
      && if !accepted then after == pruned
         else
           && Trimmed(pruned, after - {key}, config.maxEntries - 1, Expiry)
           && key in after && after[key] == req.now + Lifetime(config, req)
  }

  // ---------------------------------------------------------------- capacity

  lemma StepKeepsCapacity(config: Config, before: Table, req: Request, after: Table, accepted: bool)
    requires WellFormed(config) && ClaimStep(config, before, req, after, accepted)
    requires |before| <= config.maxEntries
    ensures |after| <= config.maxEntries
  {
    PrunedSmaller(before, req.now);
    hide Pruned, Trim, Accepts;
    assert accepted ==> after.Keys == (after - {Trim(req.key)}).Keys + {Trim(req.key)};
  }

  lemma PrunedSmaller(table: Table, now: int)
    ensures |Pruned(table, now)| <= |table| && Pruned(table, now).Keys == Live(table, now)
    ensures Pruned(table, now).Keys <= table.Keys
  {
    assert Pruned(table, now).Keys <= table.Keys;
    SubsetSize(Pruned(table, now).Keys, table.Keys);
  }

  // ---------------------------------------------------------------- refinement of the unbounded ledger

  /** A ledger that neither prunes nor evicts, after the first `n` requests. */
  ghost function Unbounded(config: Config, reqs: seq<Request>, n: nat): Table
    requires n <= |reqs|
  {
    if n == 0 then map[]
    else
      var before := Unbounded(config, reqs, n - 1);
      if Accepts(before, reqs[n - 1]) then
        before[Trim(reqs[n - 1].key) := reqs[n - 1].now + Lifetime(config, reqs[n - 1])]
      else before
  }

  ghost predicate Monotone(reqs: seq<Request>) {
    forall i, j :: 0 <= i < j < |reqs| ==> reqs[i].now <= reqs[j].now
  }

  ghost predicate IsRun(config: Config, reqs: seq<Request>, tables: seq<Table>, accepted: seq<bool>) {
    && |tables| == |reqs| + 1 && |accepted| == |reqs| && tables[0] == map[]
    && forall i :: 0 <= i < |reqs| ==> ClaimStep(config, tables[i], reqs[i], tables[i + 1], accepted[i])
  }

  /** At most maxEntries keys of the unbounded ledger are unexpired after request `n - 1`. */
  ghost predicate Fits(config: Config, reqs: seq<Request>, n: nat)
    requires 0 < n <= |reqs|
  {
    |Live(Unbounded(config, reqs, n), reqs[n - 1].now)| <= config.maxEntries
  }

  /** Everything live is remembered, with its expiry, and nothing else is. */
  ghost predicate Agrees(table: Table, full: Table, clock: int) {
    && (forall k :: k in table ==> k in full && table[k] == full[k])
    && (forall k :: k in full && clock < full[k] ==> k in table)
  }

  lemma LiveAgree(table: Table, full: Table, clock: int, now: int)
    requires Agrees(table, full, clock) && clock <= now
    ensures Live(table, now) == Live(full, now)
    ensures Agrees(Pruned(table, now), full, now)
  {
  }

  lemma AgreesInsert(table: Table, full: Table, key: string, expiry: int, now: int)
    requires Agrees(table, full, now)
    ensures Agrees(table[key := expiry], full[key := expiry], now)
  {
  }

  lemma LiveInsert(table: Table, full: Table, key: string, now: int, expiry: int)
    requires table.Keys == Live(full, now) && now < expiry && key !in table
    ensures |Live(full[key := expiry], now)| == |table| + 1
  {
    assert Live(full[key := expiry], now) == table.Keys + {key};
  }

  lemma OneAdded(table: Table, after: Table, key: string, expiry: int)
    requires key in after && after[key] == expiry && after - {key} == table
    ensures after == table[key := expiry]
  {
    assert forall k :: k in after && k != key ==> k in after - {key} && after[k] == (after - {key})[k];
  }

  lemma AcceptedAgrees(config: Config, table: Table, full: Table, key: string, now: int, expiry: int, after: Table)
    requires table.Keys == Live(full, now) && Agrees(table, full, now) && now < expiry && key !in table
    requires Trimmed(table, after - {key}, config.maxEntries - 1, Expiry) && key in after && after[key] == expiry
    requires |Live(full[key := expiry], now)| <= config.maxEntries
    ensures Agrees(after, full[key := expiry], now)
  {
    hide Trimmed, Live, Agrees;
    LiveInsert(table, full, key, now, expiry);
    NothingEvicted(table, after - {key}, config.maxEntries - 1, Expiry);
    OneAdded(table, after, key, expiry);
    AgreesInsert(table, full, key, expiry, now);
  }

  lemma AcceptsByLive(table: Table, req: Request)
    ensures Keyed(req) ==> (Accepts(table, req) <==> Trim(req.key) !in Live(table, req.now))
    ensures !Keyed(req) ==> !Accepts(table, req)
    ensures Pruned(table, req.now).Keys == Live(table, req.now)
  {
    hide Trim;
  }

  lemma StepAgrees(config: Config, before: Table, full: Table, clock: int, req: Request, after: Table, accepted: bool)
    requires WellFormed(config) && Agrees(before, full, clock) && clock <= req.now
    requires ClaimStep(config, before, req, after, accepted)
    ensures accepted == Accepts(full, req)
    ensures var next := if Accepts(full, req) then full[Trim(req.key) := req.now + Lifetime(config, req)] else full;
      |Live(next, req.now)| <= config.maxEntries ==> Agrees(after, next, req.now)
  {
    LiveAgree(before, full, clock, req.now);
    AcceptsByLive(before, req);
    AcceptsByLive(full, req);
    hide Trim, Pruned, Trimmed, Live, Agrees, Accepts;
    if Keyed(req) {
      KeyedStepAgrees(config, before, full, req, after, accepted);
    } else {
      Later(before, full, clock, req.now);
    }
  }

  lemma KeyedStepAgrees(config: Config, before: Table, full: Table, req: Request, after: Table, accepted: bool)
    requires WellFormed(config) && Keyed(req) && ClaimStep(config, before, req, after, accepted)
    requires Agrees(Pruned(before, req.now), full, req.now) && Pruned(before, req.now).Keys == Live(full, req.now)
    requires accepted == Accepts(full, req) && (accepted <==> Trim(req.key) !in Live(full, req.now))
    ensures var next := if accepted then full[Trim(req.key) := req.now + Lifetime(config, req)] else full;
      |Live(next, req.now)| <= config.maxEntries ==> Agrees(after, next, req.now)
  {
    hide Trim, Pruned, Trimmed, Live, Agrees, Accepts;
    var expiry := req.now + Lifetime(config, req);
    if accepted && |Live(full[Trim(req.key) := expiry], req.now)| <= config.maxEntries {
      AcceptedAgrees(config, Pruned(before, req.now), full, Trim(req.key), req.now, expiry, after);
    }
  }

  lemma Later(table: Table, full: Table, clock: int, now: int)
    requires Agrees(table, full, clock) && clock <= now
    ensures Agrees(table, full, now)
  {
  }

  lemma {:induction false} RunAgrees(
    config: Config, reqs: seq<Request>, tables: seq<Table>, accepted: seq<bool>, n: nat)
    requires WellFormed(config) && Monotone(reqs) && IsRun(config, reqs, tables, accepted) && 0 < n <= |reqs|
    requires forall m :: 0 < m < n ==> Fits(config, reqs, m)
    ensures accepted[n - 1] == Accepts(Unbounded(config, reqs, n - 1), reqs[n - 1])
    ensures Fits(config, reqs, n) ==> Agrees(tables[n], Unbounded(config, reqs, n), reqs[n - 1].now)
  {
    hide ClaimStep, Agrees, Accepts, Trim;
    var clock := if n == 1 then reqs[0].now else reqs[n - 2].now;
    if n == 1 {
      AgreesEmpty(clock);
    } else {
      RunAgrees(config, reqs, tables, accepted, n - 1);
    }
    StepAgrees(config, tables[n - 1], Unbounded(config, reqs, n - 1), clock, reqs[n - 1], tables[n], accepted[n - 1]);
  }

  lemma AgreesEmpty(clock: int)
    ensures Agrees(map[], map[], clock)
  {
  }

  /**
   The bound is invisible: on every run where at most maxEntries keys are unexpired at once, each decision is
   that of the unbounded ledger, and the table never exceeds its limit on any run.
   */
  lemma BoundIsInvisible(config: Config, reqs: seq<Request>, tables: seq<Table>, accepted: seq<bool>, i: nat)
    requires WellFormed(config) && Monotone(reqs) && IsRun(config, reqs, tables, accepted) && i < |reqs|
    requires forall m :: 0 < m <= i ==> Fits(config, reqs, m)
    ensures accepted[i] == Accepts(Unbounded(config, reqs, i), reqs[i])
  {
    hide Unbounded, Accepts, ClaimStep;
    RunAgrees(config, reqs, tables, accepted, i + 1);
  }

  lemma {:induction false} NeverOverfull(
    config: Config, reqs: seq<Request>, tables: seq<Table>, accepted: seq<bool>, n: nat)
    requires WellFormed(config) && IsRun(config, reqs, tables, accepted) && n <= |reqs|
    ensures |tables[n]| <= config.maxEntries
  {
    hide ClaimStep;
    if n > 0 {
      NeverOverfull(config, reqs, tables, accepted, n - 1);
      StepKeepsCapacity(config, tables[n - 1], reqs[n - 1], tables[n], accepted[n - 1]);
    }
  }

  lemma {:induction false} UnboundedKeys(config: Config, reqs: seq<Request>, n: nat)
    requires n <= |reqs|
    ensures forall k :: k in Unbounded(config, reqs, n) ==> Trim(k) == k && k != ""
  {
    if n > 0 {
      TrimIdempotent(reqs[n - 1].key);
      hide Trim;
      UnboundedKeys(config, reqs, n - 1);
    }
  }

  /**
   The condition is exact: at the first request after which more keys are live than fit, some live key has been
   forgotten, and asking for that key again at once is accepted where the unbounded ledger refuses.
   */
  lemma OverflowForgets(config: Config, reqs: seq<Request>, tables: seq<Table>, accepted: seq<bool>)
    returns (key: string)
    requires WellFormed(config) && Monotone(reqs) && IsRun(config, reqs, tables, accepted) && |reqs| > 0
    requires !Fits(config, reqs, |reqs|)
    ensures var again := Request(key, 1, reqs[|reqs| - 1].now);
      Accepts(tables[|reqs|], again) && !Accepts(Unbounded(config, reqs, |reqs|), again)
  {
    var n := |reqs|;
    var now := reqs[n - 1].now;
    var full := Unbounded(config, reqs, n);
    NeverOverfull(config, reqs, tables, accepted, n);
    UnboundedKeys(config, reqs, n);
    hide IsRun, Unbounded, ClaimStep, Trim;
    if Live(full, now) <= tables[n].Keys {
      SubsetSize(Live(full, now), tables[n].Keys);
      assert false;
    }
    key :| key in Live(full, now) && key !in tables[n].Keys;
  }

  // ---------------------------------------------------------------- when a request is refused

  ghost function EndOf(config: Config, req: Request): int {
    req.now + if req.ttl > 0 then req.ttl else config.defaultTTL
  }

  /** Request `j` was accepted with this key and lives on past the given time. */
  ghost predicate Alive(config: Config, reqs: seq<Request>, accepted: seq<bool>, j: nat, key: string, now: int) {
    j < |reqs| == |accepted| && accepted[j] && Trim(reqs[j].key) == key && now < EndOf(config, reqs[j])
  }

  /** Every entry is the end of an accepted request with its key. */
  ghost predicate EndsThere(config: Config, reqs: seq<Request>, accepted: seq<bool>, n: nat, key: string, end: int) {
    exists j :: 0 <= j < n && j < |reqs| == |accepted| && accepted[j] && Trim(reqs[j].key) == key
      && EndOf(config, reqs[j]) == end
  }

  lemma StepEntries(config: Config, before: Table, req: Request, after: Table, accepted: bool, key: string)
    requires ClaimStep(config, before, req, after, accepted) && key in after
    ensures (key in before && after[key] == before[key])
      || (accepted && Trim(req.key) == key && after[key] == EndOf(config, req))
  {
    hide Trim;
    var pruned := Pruned(before, req.now);
    assert key in pruned ==> key in before && pruned[key] == before[key];
    if accepted && key != Trim(req.key) {
      assert key in after - {Trim(req.key)};
    }
  }

  lemma {:induction false} EntriesEnd(
    config: Config, reqs: seq<Request>, tables: seq<Table>, accepted: seq<bool>, n: nat, key: string)
    requires IsRun(config, reqs, tables, accepted) && n <= |reqs| && key in tables[n]
    ensures EndsThere(config, reqs, accepted, n, key, tables[n][key])
  {
    hide ClaimStep, Trim, EndOf;
    assert n > 0;
    StepEntries(config, tables[n - 1], reqs[n - 1], tables[n], accepted[n - 1], key);
    if key in tables[n - 1] && tables[n][key] == tables[n - 1][key] {
      EntriesEnd(config, reqs, tables, accepted, n - 1, key);
    }
  }

  lemma StepAccepts(config: Config, before: Table, req: Request, after: Table, accepted: bool)
    requires ClaimStep(config, before, req, after, accepted)
    ensures accepted <==> Trim(req.key) != "" && (Trim(req.key) in before ==> before[Trim(req.key)] <= req.now)
  {
    hide Trim;
  }

  /** On every run, a request with a key is refused only while an earlier accepted one with its key lives. */
  lemma RefusedOnlyWhileAlive(
    config: Config, reqs: seq<Request>, tables: seq<Table>, accepted: seq<bool>, i: nat) returns (j: nat)
    requires IsRun(config, reqs, tables, accepted) && i < |reqs| && Trim(reqs[i].key) != "" && !accepted[i]
    ensures j < i && Alive(config, reqs, accepted, j, Trim(reqs[i].key), reqs[i].now)
  {
    hide ClaimStep, Trim, EndOf;
    var key := Trim(reqs[i].key);
    StepAccepts(config, tables[i], reqs[i], tables[i + 1], accepted[i]);
    EntriesEnd(config, reqs, tables, accepted, i, key);
    j :| 0 <= j < i && j < |reqs| == |accepted| && accepted[j] && Trim(reqs[j].key) == key
      && EndOf(config, reqs[j]) == tables[i][key];
  }

  /** What an accepted request leaves in the unbounded ledger stays, or gives way to a later end. */
  lemma {:induction false} UnboundedKeeps(
    config: Config, reqs: seq<Request>, tables: seq<Table>, accepted: seq<bool>, j: nat, n: nat)
    requires WellFormed(config) && Monotone(reqs) && IsRun(config, reqs, tables, accepted) && j < n <= |reqs|
    requires forall m :: 0 < m < n ==> Fits(config, reqs, m)
    requires accepted[j]
    ensures var key := Trim(reqs[j].key);
      key in Unbounded(config, reqs, n) && EndOf(config, reqs[j]) <= Unbounded(config, reqs, n)[key]
  {
    hide ClaimStep, Trim, Fits, IsRun;
    if n - 1 == j {
      BoundIsInvisible(config, reqs, tables, accepted, j);
    } else {
      UnboundedKeeps(config, reqs, tables, accepted, j, n - 1);
    }
  }

  /** Where the live keys fit, a request is refused exactly while an earlier accepted one with its key lives. */
  lemma RefusedExactlyWhileAlive(
    config: Config, reqs: seq<Request>, tables: seq<Table>, accepted: seq<bool>, i: nat)
    requires WellFormed(config) && Monotone(reqs) && IsRun(config, reqs, tables, accepted) && i < |reqs|
    requires forall m :: 0 < m <= i ==> Fits(config, reqs, m)
    ensures accepted[i] <==>
      Trim(reqs[i].key) != ""
      && forall j :: 0 <= j < i ==> !Alive(config, reqs, accepted, j, Trim(reqs[i].key), reqs[i].now)
  {
    BoundIsInvisible(config, reqs, tables, accepted, i);
    if Trim(reqs[i].key) != "" && !accepted[i] {
      var j := RefusedOnlyWhileAlive(config, reqs, tables, accepted, i);
    }
    hide ClaimStep, Trim, Fits, IsRun, Unbounded, EndOf;
    if accepted[i] {
      forall j | 0 <= j < i && accepted[j] && Trim(reqs[j].key) == Trim(reqs[i].key)
        ensures EndOf(config, reqs[j]) <= reqs[i].now
      {
        UnboundedKeeps(config, reqs, tables, accepted, j, i);
      }
    }
  }

  // ---------------------------------------------------------------- the ledger

  class MemoryReplayLedger {
    const config: Config
    var entries: Table

    ghost predicate Valid()
      reads this
    {
      WellFormed(config) && "" !in entries && |entries| <= config.maxEntries
    }

    constructor (defaultTTL: int, maxEntries: int)
      ensures Valid() && entries == map[]
      ensures config == Config(if defaultTTL > 0 then defaultTTL else 300_000_000_000,
                               if maxEntries > 0 then maxEntries else 8192)
    {
      config := Config(if defaultTTL <= 0 then 300_000_000_000 else defaultTTL,
                       if maxEntries <= 0 then 8192 else maxEntries);
      entries := map[];
    }

    method PruneExpired(now: int)
      modifies this`entries
      ensures entries == Pruned(old(entries), now)
    {
      var pending := entries.Keys;
      while pending != {}
        invariant pending <= entries.Keys <= old(entries).Keys
        invariant forall k :: k in entries ==> entries[k] == old(entries)[k] && (k in pending || now < entries[k])
        invariant forall k :: k in old(entries) && now < old(entries)[k] ==> k in entries
      {
        var key :| key in pending;
        pending := pending - {key};
        if now >= entries[key] {
          entries := entries - {key};
        }
      }
    }

    /** Removes one entry that no other expires before; the blank key serves the scan as "none yet". */
    method EvictOldest() returns (ghost evicted: string)
      requires entries != map[]
      modifies this`entries
      ensures evicted in old(entries) && entries == old(entries) - {evicted}
      ensures "" !in old(entries) ==> Earliest(old(entries), evicted)
    {
      var pending, oldestKey, oldestExpiry := entries.Keys, "", 0;
      while pending != {}
        invariant pending <= entries.Keys
        invariant oldestKey != "" ==> oldestKey in entries && oldestExpiry == entries[oldestKey]
        invariant "" !in entries ==>
          if oldestKey == "" then pending == entries.Keys
          else forall k :: k in entries && k !in pending ==> oldestExpiry <= entries[k]
      {
        var key :| key in pending;
        pending := pending - {key};
        if oldestKey == "" || entries[key] < oldestExpiry {
          oldestKey, oldestExpiry := key, entries[key];
        }
      }
      if oldestKey != "" {
        entries := entries - {oldestKey};
        return oldestKey;
      }
      var key :| key in entries;
      entries := entries - {key};
      return key;
    }

    method EnforceCapacity(incoming: int)
      requires "" !in entries && 0 <= incoming <= config.maxEntries
      modifies this`entries
      ensures Trimmed(old(entries), entries, config.maxEntries - incoming, Expiry) && "" !in entries
    {
      var target := if config.maxEntries - incoming > 0 then config.maxEntries - incoming else 0;
      while |entries| > target
        invariant "" !in entries && entries.Keys <= old(entries).Keys
        invariant |entries| >= target || entries == old(entries)
        invariant |entries| <= |old(entries)|
        invariant forall k :: k in entries ==> entries[k] == old(entries)[k]
        invariant forall g, k :: g in old(entries) && g !in entries && k in entries ==> old(entries)[g] <= entries[k]
        invariant |entries| == |old(entries)| ==> entries == old(entries)
      {
        ghost var before := entries;
        ghost var evicted := EvictOldest();
        assert entries.Keys == before.Keys - {evicted};
      }
    }

    method Claim(req: Request) returns (accepted: bool, ok: bool)
      requires Valid()
      modifies this`entries
      ensures Valid() && ok == Keyed(req)
      ensures ClaimStep(config, old(entries), req, entries, accepted)
    {
      AcceptsByLive(entries, req);
      PrunedSmaller(entries, req.now);
      hide Trim, Accepts, Pruned, Live, Trimmed;
      var key := Trim(req.key);
      if key == "" {
        return false, false;
      }
      var ttl := if req.ttl <= 0 then config.defaultTTL else req.ttl;
      PruneExpired(req.now);
      // Pruning left only unexpired keys, so being present is being refused.
      if key in entries {
        return false, true;
      }
      EnforceCapacity(1);
      ghost var room := entries;
      entries := entries[key := req.now + ttl];
      assert entries - {key} == room;
      return true, true;
    }
  }
}
