/**
 Burst control: a request is refused when its key was seen less than a window ago. The controller forgets
 old keys, in whatever order the map happens to be walked; its decisions must not depend on that.
 */
module BurstControl {
  import opened Text

  datatype Mode = NoControl | Coalesce | Debounce
  datatype Config = Config(mode: Mode, window: int, maxEntries: int)
  datatype Request = Request(key: Option<string>, now: int)

  /** What the constructor makes of its options. */
  predicate WellFormed(config: Config) { config.window > 0 && config.maxEntries > 0 }

  /** The request falls under burst control. */
  predicate Controlled(config: Config, req: Request) {
    !config.mode.NoControl? && req.key.Some? && Trim(req.key.value) != ""
  }

  function KeyOf(req: Request): string { if req.key.Some? then Trim(req.key.value) else "" }

  type Table = map<string, int>

  predicate Fresh(table: Table, config: Config, key: string, now: int) {
    key !in table || now - table[key] >= config.window
  }

  // ---------------------------------------------------------------- what cleanup may do

  function Older(table: Table, now: int, age: int): set<string> {
    set k | k in table && now - table[k] > age
  }

  /**
   A small table loses exactly what is older than four windows. An overfull one loses keys older than one
   window, in map order, until it fits or none is left.
   */
  ghost predicate Cleaned(config: Config, before: Table, after: Table, now: int) {
    if |before| <= config.maxEntries then after == before - Older(before, now, 4 * config.window)
    else exists gone ::
      && gone <= Older(before, now, config.window) && after == before - gone
      && (|after| <= config.maxEntries || gone == Older(before, now, config.window))
  }

  ghost predicate AllowStep(config: Config, before: Table, req: Request, after: Table, allow: bool) {
    if !Controlled(config, req) then allow && after == before
    else
      && Cleaned(config, before[KeyOf(req) := req.now], after, req.now)
      && allow == Fresh(before, config, KeyOf(req), req.now)
  }

  // ---------------------------------------------------------------- refinement

  /** The table of a controller that never forgets, after the first `n` requests. */
  ghost function Remembered(config: Config, reqs: seq<Request>, n: nat): Table
    requires n <= |reqs|
  {
    if n == 0 then map[]
    else
      var before := Remembered(config, reqs, n - 1);
      if Controlled(config, reqs[n - 1]) then before[KeyOf(reqs[n - 1]) := reqs[n - 1].now] else before
  }

  /** Whatever was forgotten is too old to matter. */
  ghost predicate Agrees(config: Config, table: Table, full: Table, clock: int) {
    && (forall k :: k in table ==> k in full && table[k] == full[k])
    && (forall k :: k in full && k !in table ==> clock - full[k] > config.window)
  }

  lemma StepAgrees(config: Config, before: Table, full: Table, clock: int, req: Request, after: Table, allow: bool)
    requires WellFormed(config) && Agrees(config, before, full, clock) && clock <= req.now
    requires AllowStep(config, before, req, after, allow)
    ensures Controlled(config, req) ==> allow == Fresh(full, config, KeyOf(req), req.now)
    ensures Agrees(config, after, if Controlled(config, req) then full[KeyOf(req) := req.now] else full, req.now)
  {
  }

  ghost predicate Monotone(reqs: seq<Request>) {
    forall i, j :: 0 <= i < j < |reqs| ==> reqs[i].now <= reqs[j].now
  }

  /** A run of the controller: some table after every request, reached by a legal step. */
  ghost predicate IsRun(config: Config, reqs: seq<Request>, tables: seq<Table>, allowed: seq<bool>) {
    && |tables| == |reqs| + 1 && |allowed| == |reqs| && tables[0] == map[]
    && forall i :: 0 <= i < |reqs| ==> AllowStep(config, tables[i], reqs[i], tables[i + 1], allowed[i])
  }

  lemma {:induction false} RunAgrees(config: Config, reqs: seq<Request>, tables: seq<Table>, allowed: seq<bool>, n: nat)
    requires WellFormed(config) && Monotone(reqs) && IsRun(config, reqs, tables, allowed) && 0 < n <= |reqs|
    ensures Agrees(config, tables[n], Remembered(config, reqs, n), reqs[n - 1].now)
    ensures Controlled(config, reqs[n - 1]) ==>
      allowed[n - 1] == Fresh(Remembered(config, reqs, n - 1), config, KeyOf(reqs[n - 1]), reqs[n - 1].now)
  {
    hide AllowStep, Agrees, Fresh, Trim;
    var clock := if n == 1 then reqs[0].now else reqs[n - 2].now;
    if n == 1 {
      AgreesEmpty(config, clock);
    } else {
      RunAgrees(config, reqs, tables, allowed, n - 1);
    }
    StepAgrees(config, tables[n - 1], Remembered(config, reqs, n - 1), clock, reqs[n - 1], tables[n], allowed[n - 1]);
  }

  lemma AgreesEmpty(config: Config, clock: int)
    ensures Agrees(config, map[], map[], clock)
  {
  }

  /** The last time a key was seen, in a table that never forgets. */
  lemma {:induction false} RememberedIsLatest(config: Config, reqs: seq<Request>, n: nat, key: string)
    requires Monotone(reqs) && n <= |reqs|
    ensures key in Remembered(config, reqs, n) ==>
      exists j :: 0 <= j < n && Controlled(config, reqs[j]) && KeyOf(reqs[j]) == key
                  && reqs[j].now == Remembered(config, reqs, n)[key]
    ensures forall j :: 0 <= j < n && Controlled(config, reqs[j]) && KeyOf(reqs[j]) == key ==>
      key in Remembered(config, reqs, n) && reqs[j].now <= Remembered(config, reqs, n)[key]
  {
    hide KeyOf, Controlled;
    if n > 0 { RememberedIsLatest(config, reqs, n - 1, key); }
  }

  /** Under control, and with an earlier request of the same key less than a window ago. */
  ghost predicate TooSoon(config: Config, reqs: seq<Request>, i: nat)
    requires i < |reqs|
  {
    && config.mode != NoControl && reqs[i].key.Some? && Trim(reqs[i].key.value) != ""
    && exists j :: 0 <= j < i && reqs[j].key.Some? && Trim(reqs[j].key.value) == Trim(reqs[i].key.value)
                   && reqs[i].now < reqs[j].now + config.window
  }

  /**
   Forgetting is safe: in every run, whichever stale entries the cleanups removed, each decision is that of a
   controller that never deletes: refuse exactly the requests that come too soon.
   */
  lemma ForgettingIsSafe(config: Config, reqs: seq<Request>, tables: seq<Table>, allowed: seq<bool>, i: nat)
    requires WellFormed(config) && Monotone(reqs) && IsRun(config, reqs, tables, allowed) && i < |reqs|
    ensures allowed[i] <==> !TooSoon(config, reqs, i)
  {
    hide Trim, Remembered;
    assert AllowStep(config, tables[i], reqs[i], tables[i + 1], allowed[i]);
    RunAgrees(config, reqs, tables, allowed, i + 1);
    RememberedIsLatest(config, reqs, i, KeyOf(reqs[i]));
  }

  // ---------------------------------------------------------------- the controller

  class BurstController {
    const config: Config
    var entries: Table

    constructor (mode: Mode, window: int, maxEntries: int)
      ensures WellFormed(config) && config.mode == mode && entries == map[]
      ensures config.window == if window > 0 then window else 2_000_000_000
      ensures config.maxEntries == if maxEntries > 0 then maxEntries else 4096
    {
      config := Config(mode, if window <= 0 then 2_000_000_000 else window,
                       if maxEntries <= 0 then 4096 else maxEntries);
      entries := map[];
    }

    method DropOlder(now: int, age: int)
      modifies this`entries
      ensures entries == old(entries) - Older(old(entries), now, age)
    {
      var pending := entries.Keys;
      ghost var gone: set<string> := {};
      while pending != {}
        invariant pending !! gone && pending <= old(entries).Keys && entries == old(entries) - gone
        invariant gone <= Older(old(entries), now, age) <= gone + pending
      {
        var key :| key in pending;
        pending := pending - {key};
        if now - entries[key] > age {
          entries := entries - {key};
          gone := gone + {key};
        }
      }
      assert gone == Older(old(entries), now, age);
    }

    method DropUntilFits(now: int, age: int) returns (ghost gone: set<string>)
      modifies this`entries
      ensures gone <= Older(old(entries), now, age) && entries == old(entries) - gone
      ensures |entries| <= config.maxEntries || gone == Older(old(entries), now, age)
    {
      var pending := entries.Keys;
      gone := {};
      while pending != {}
        invariant pending !! gone && pending <= old(entries).Keys && entries == old(entries) - gone
        invariant gone <= Older(old(entries), now, age) <= gone + pending
      {
        var key :| key in pending;
        pending := pending - {key};
        if now - entries[key] > age {
          entries := entries - {key};
          gone := gone + {key};
        }
        if |entries| <= config.maxEntries {
          break;
        }
      }
    }

    method Cleanup(now: int)
      modifies this`entries
      ensures Cleaned(config, old(entries), entries, now)
    {
      if |entries| <= config.maxEntries {
        DropOlder(now, 4 * config.window);
      } else {
        ghost var gone := DropUntilFits(now, config.window);
      }
    }

    method Allow(req: Request) returns (allow: bool)
      modifies this`entries
      ensures AllowStep(config, old(entries), req, entries, allow)
    {
      if config.mode.NoControl? || req.key.None? {
        return true;
      }
      var key := Trim(req.key.value);
      if key == "" {
        return true;
      }
      var seen := key in entries;
      var lastSeen := if seen then entries[key] else 0;
      entries := entries[key := req.now];
      Cleanup(req.now);
      return !seen || req.now - lastSeen >= config.window;
    }
  }
}
