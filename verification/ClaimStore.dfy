/**
 The in-memory idempotency claim store and the dispatcher in front of it. A key is claimed under a lease,
 then completed or failed by claim id; a second map leads from claim ids back to keys.
 */
module ClaimStore {
  import opened Text

  datatype Status = Processing | RetryReady | Complete

  /** `None` stands for Go's zero time. */
  datatype ClaimEntry = ClaimEntry(
    status: Status, claimID: string, attempts: nat, keyTTL: int, leaseExpiresAt: Option<int>, retryAt: Option<int>)

  datatype Store = Store(entries: map<string, ClaimEntry>, claims: map<string, string>, nextID: nat)

  const EMPTY := Store(map[], map[], 0)
  const DEFAULT_TTL := 600_000_000_000  // ten minutes in nanoseconds

  function ClaimName(n: nat): string { "claim_" + Itoa(n) }

  lemma ClaimNameInjective(m: nat, n: nat)
    requires ClaimName(m) == ClaimName(n)
    ensures m == n
  {
    assert ClaimName(m)[6..] == Itoa(m) && ClaimName(n)[6..] == Itoa(n);
    ItoaInjective(m, n);
  }

  // ---------------------------------------------------------------- steps

  datatype Op =
    | ClaimOp(key: string, lease: int, now: int)
    | CompleteOp(id: string, now: int)
    | FailOp(id: string, retry: Option<int>, now: int)

  function Lease(lease: int): (r: int)
    ensures r > 0
  {
    if lease <= 0 then DEFAULT_TTL else lease
  }

  predicate Expired(entry: ClaimEntry, now: int) {
    entry.status.Complete? && (entry.leaseExpiresAt.None? || now >= entry.leaseExpiresAt.value)
  }

  function ExpiredKeys(entries: map<string, ClaimEntry>, now: int): set<string> {
    set k | k in entries && Expired(entries[k], now)
  }

  function IdsOf(entries: map<string, ClaimEntry>, keys: set<string>): set<string> {
    set k | k in keys && k in entries && entries[k].claimID != "" :: entries[k].claimID
  }

  /** Completed entries whose time is over are dropped, together with their claim ids. */
  function Evicted(s: Store, now: int): Store {
    var dead := ExpiredKeys(s.entries, now);
    s.(entries := s.entries - dead, claims := s.claims - IdsOf(s.entries, dead))
  }

  /** Whether the entry, if there is one, still keeps its key from being claimed. */
  predicate Held(s: Store, key: string, now: int) {
    key in s.entries
    && var entry := s.entries[key];
       match entry.status
       case Complete => entry.leaseExpiresAt.Some? && now < entry.leaseExpiresAt.value
       case Processing => entry.leaseExpiresAt.Some? && now < entry.leaseExpiresAt.value
       case RetryReady => entry.retryAt.Some? && now < entry.retryAt.value
  }

  predicate Accepts(s: Store, key: string, now: int) {
    Trim(key) != "" && !Held(Evicted(s, now), Trim(key), now)
  }

  function Claimed(s: Store, key: string, lease: int, now: int): Store {
    var k := Trim(key);
    if k == "" then s
    else
      var t := Evicted(s, now);
      if Held(t, k, now) then t
      else
        var id := ClaimName(t.nextID + 1);
        var attempts := if k in t.entries then t.entries[k].attempts + 1 else 1;
        var claims := if k in t.entries && t.entries[k].claimID != "" then t.claims - {t.entries[k].claimID}
                      else t.claims;
        Store(t.entries[k := ClaimEntry(Processing, id, attempts, Lease(lease), Some(now + Lease(lease)), None)],
              claims[id := k], t.nextID + 1)
  }

  /** The claim id names the entry that is being processed under it. */
  predicate Current(s: Store, id: string) {
    id in s.claims && s.claims[id] in s.entries
    && var entry := s.entries[s.claims[id]]; entry.claimID == id && entry.status.Processing?
  }

  function Completed(s: Store, id: string, now: int): Store {
    var c := Trim(id);
    if c == "" then s
    else if !Current(s, c) then s.(claims := s.claims - {c})
    else
      var entry := s.entries[s.claims[c]];
      s.(entries := s.entries[s.claims[c] := entry.(
           status := Complete, leaseExpiresAt := Some(now + Lease(entry.keyTTL)), retryAt := None)],
         claims := s.claims - {c})
  }

  function FailedAt(retry: Option<int>, now: int): int {
    if retry.Some? then retry.value else now
  }

  function Failed(s: Store, id: string, retry: Option<int>, now: int): Store {
    var c := Trim(id);
    if c == "" then s
    else if !Current(s, c) then s.(claims := s.claims - {c})
    else
      var entry := s.entries[s.claims[c]];
      s.(entries := s.entries[s.claims[c] := entry.(
           status := RetryReady, leaseExpiresAt := None, retryAt := Some(FailedAt(retry, now)))],
         claims := s.claims - {c})
  }

  function Step(s: Store, op: Op): Store {
    match op
    case ClaimOp(key, lease, now) => Claimed(s, key, lease, now)
    case CompleteOp(id, now) => Completed(s, id, now)
    case FailOp(id, retry, now) => Failed(s, id, retry, now)
  }

  function Steps(s: Store, ops: seq<Op>): Store
    decreases |ops|
  {
    if ops == [] then s else Steps(Step(s, ops[0]), ops[1..])
  }

  /** The state after any interleaving of calls: the mutex makes each of them one step. */
  function Run(ops: seq<Op>): Store {
    if ops == [] then EMPTY else Step(Run(ops[..|ops| - 1]), ops[|ops| - 1])
  }

  lemma RunNext(ops: seq<Op>, i: nat)
    requires i < |ops|
    ensures Run(ops[..i + 1]) == Step(Run(ops[..i]), ops[i])
  {
    assert ops[..i + 1][..i] == ops[..i];
  }

  // ---------------------------------------------------------------- the claim index is exact

  /** The claim-id map is precisely the inverse of the processing entries. */
  ghost predicate Exact(s: Store) {
    (forall id :: id in s.claims ==> Current(s, id)) && (forall k :: k in s.entries ==> EntryExact(s, k))
  }

  ghost predicate EntryExact(s: Store, k: string)
    requires k in s.entries
  {
    var entry := s.entries[k];
    && (entry.status.Processing? <==> entry.claimID in s.claims)
    && (entry.claimID in s.claims ==> s.claims[entry.claimID] == k)
    && (exists n: nat :: 1 <= n <= s.nextID && entry.claimID == ClaimName(n))
    && entry.claimID != "" && k != "" && entry.keyTTL > 0
    && (if entry.status.RetryReady? then entry.retryAt.Some? else entry.leaseExpiresAt.Some?)
  }

  lemma EvictedExact(s: Store, now: int)
    requires Exact(s)
    ensures Exact(Evicted(s, now)) && Evicted(s, now).claims == s.claims && Evicted(s, now).nextID == s.nextID
  {
    hide ClaimName;
    var dead := ExpiredKeys(s.entries, now);
    forall k | k in dead ensures s.entries[k].claimID !in s.claims { assert EntryExact(s, k); }
    assert IdsOf(s.entries, dead) !! s.claims.Keys;
    assert Evicted(s, now).claims == s.claims;
    forall id | id in s.claims ensures Current(Evicted(s, now), id) { assert Current(s, id); }
    forall k | k in Evicted(s, now).entries ensures EntryExact(Evicted(s, now), k) { assert EntryExact(s, k); }
  }

  lemma FreshName(s: Store, id: string)
    requires Exact(s) && id == ClaimName(s.nextID + 1)
    ensures id != "" && id !in s.claims && forall k :: k in s.entries ==> s.entries[k].claimID != id
  {
    assert id != "";
    hide ClaimName;
    forall k | k in s.entries ensures s.entries[k].claimID != id {
      assert EntryExact(s, k);
      var n: nat :| 1 <= n <= s.nextID && s.entries[k].claimID == ClaimName(n);
      if ClaimName(n) == id { ClaimNameInjective(n, s.nextID + 1); }
    }
    assert id in s.claims ==> Current(s, id);
  }

  lemma ClaimedExact(s: Store, key: string, lease: int, now: int)
    requires Exact(s)
    ensures Exact(Claimed(s, key, lease, now))
  {
    hide Trim, Evicted, Held, ClaimName;
    EvictedExact(s, now);
    var t, k := Evicted(s, now), Trim(key);
    var r := Claimed(s, key, lease, now);
    if k != "" && !Held(t, k, now) {
      var id := ClaimName(t.nextID + 1);
      FreshName(t, id);
      forall j | j in r.entries ensures EntryExact(r, j) {
        if j == k {
          assert r.entries[k].claimID == ClaimName(r.nextID);
        } else {
          assert EntryExact(t, j);
          if k in t.entries { assert EntryExact(t, k); }
        }
      }
      forall c | c in r.claims ensures Current(r, c) {
        if c != id {
          assert Current(t, c);
          assert EntryExact(t, t.claims[c]);
        }
      }
    }
  }

  lemma SettledExact(s: Store, id: string, entry: ClaimEntry, r: Store)
    requires Exact(s)
    requires Current(s, id) ==>
      && entry.claimID == id && !entry.status.Processing? && entry.keyTTL == s.entries[s.claims[id]].keyTTL
      && (entry.status.RetryReady? ==> entry.retryAt.Some?) && (entry.status.Complete? ==> entry.leaseExpiresAt.Some?)
    requires r == s.(claims := s.claims - {id},
                     entries := if Current(s, id) then s.entries[s.claims[id] := entry] else s.entries)
    ensures Exact(r)
  {
    hide ClaimName;
    assert id in s.claims ==> Current(s, id);
    forall k | k in r.entries ensures EntryExact(r, k) {
      assert EntryExact(s, k);
    }
    forall c | c in r.claims ensures Current(r, c) {
      assert Current(s, c);
    }
  }

  lemma StepExact(s: Store, op: Op)
    requires Exact(s)
    ensures Exact(Step(s, op))
  {
    hide Trim, ClaimName, Claimed, Exact;
    match op
    case ClaimOp(key, lease, now) => ClaimedExact(s, key, lease, now);
    case CompleteOp(id, now) =>
      var c := Trim(id);
      if c == "" { return; }
      var entry := if Current(s, c) then s.entries[s.claims[c]] else ClaimEntry(Complete, "", 0, 0, None, None);
      SettledExact(s, c, entry.(status := Complete, leaseExpiresAt := Some(now + Lease(entry.keyTTL)), retryAt := None),
                   Completed(s, id, now));
    case FailOp(id, retry, now) =>
      var c := Trim(id);
      if c == "" { return; }
      var entry := if Current(s, c) then s.entries[s.claims[c]] else ClaimEntry(Complete, "", 0, 0, None, None);
      SettledExact(s, c, entry.(status := RetryReady, leaseExpiresAt := None, retryAt := Some(FailedAt(retry, now))),
                   Failed(s, id, retry, now));
  }

  lemma StepKeepsExact(s: Store, op: Op)
    ensures Exact(s) ==> Exact(Step(s, op))
  {
    hide Exact, Step;
    if Exact(s) { StepExact(s, op); }
  }

  lemma {:induction false} RunExact(ops: seq<Op>)
    ensures Exact(Run(ops))
  {
    hide Step;
    if ops != [] {
      RunExact(ops[..|ops| - 1]);
      StepExact(Run(ops[..|ops| - 1]), ops[|ops| - 1]);
    }
  }

  // ---------------------------------------------------------------- superseded claims are inert

  ghost predicate AcceptedAt(ops: seq<Op>, i: nat, key: string) {
    i < |ops| && ops[i].ClaimOp? && Trim(ops[i].key) == key && Accepts(Run(ops[..i]), ops[i].key, ops[i].now)
  }

  ghost function IdAt(ops: seq<Op>, i: nat): string
    requires i < |ops|
  {
    ClaimName(Run(ops[..i]).nextID + 1)
  }

  /** An id was issued under a key and a TTL; nothing later can attach it to another. */
  ghost predicate Bound(s: Store, n: nat, key: string, ttl: int) {
    && n <= s.nextID
    && (ClaimName(n) in s.claims ==> s.claims[ClaimName(n)] == key)
    && (forall k :: k in s.entries && s.entries[k].claimID == ClaimName(n) ==> s.entries[k].keyTTL == ttl)
  }

  ghost predicate Retired(s: Store, n: nat) { n <= s.nextID && ClaimName(n) !in s.claims }

  lemma BoundStep(s: Store, op: Op, n: nat, key: string, ttl: int)
    requires Exact(s) && n <= s.nextID
    ensures Bound(s, n, key, ttl) ==> Bound(Step(s, op), n, key, ttl)
    ensures Retired(s, n) ==> Retired(Step(s, op), n)
  {
    hide Trim, ClaimName, Held;
    if op.ClaimOp? {
      EvictedExact(s, op.now);
      if ClaimName(n) == ClaimName(s.nextID + 1) { ClaimNameInjective(n, s.nextID + 1); }
    }
  }

  lemma {:induction false} BoundRun(ops: seq<Op>, i: nat, m: nat, n: nat, key: string, ttl: int)
    requires i <= m <= |ops| && n <= Run(ops[..i]).nextID
    ensures n <= Run(ops[..m]).nextID
    ensures Bound(Run(ops[..i]), n, key, ttl) ==> Bound(Run(ops[..m]), n, key, ttl)
    ensures Retired(Run(ops[..i]), n) ==> Retired(Run(ops[..m]), n)
  {
    hide Step, Run, ClaimName, Exact, Bound;
    if i < m {
      BoundRun(ops, i, m - 1, n, key, ttl);
      RunExact(ops[..m - 1]);
      BoundStep(Run(ops[..m - 1]), ops[m - 1], n, key, ttl);
      RunNext(ops, m - 1);
      NextIDGrows(Run(ops[..m - 1]), ops[m - 1]);
    }
  }

  lemma NextIDGrows(s: Store, op: Op)
    ensures s.nextID <= Step(s, op).nextID
  {
  }

  lemma ClaimBinds(ops: seq<Op>, i: nat, key: string)
    requires AcceptedAt(ops, i, key)
    ensures var r := Run(ops[..i + 1]);
      && r.nextID == Run(ops[..i]).nextID + 1
      && key in r.entries && r.entries[key].claimID == IdAt(ops, i)
      && r.entries[key] == ClaimEntry(Processing, IdAt(ops, i), r.entries[key].attempts, Lease(ops[i].lease),
                                      Some(ops[i].now + Lease(ops[i].lease)), None)
      && Bound(r, r.nextID, key, Lease(ops[i].lease))
  {
    hide Run, ClaimName, Held, Trim;
    RunNext(ops, i);
    var s := Run(ops[..i]);
    RunExact(ops[..i]);
    EvictedExact(s, ops[i].now);
    FreshName(Evicted(s, ops[i].now), IdAt(ops, i));
  }

  lemma SupersededRetires(ops: seq<Op>, i: nat, j: nat, key: string)
    requires i < j < |ops| && AcceptedAt(ops, i, key) && AcceptedAt(ops, j, key)
    ensures IdAt(ops, i) != IdAt(ops, j)
    ensures Retired(Run(ops[..j + 1]), Run(ops[..i]).nextID + 1)
  {
    hide Run, ClaimName, Accepts;
    var n := Run(ops[..i]).nextID + 1;
    ClaimBinds(ops, i, key);
    BoundRun(ops, i + 1, j, n, key, Lease(ops[i].lease));
    BoundRun(ops, i + 1, j + 1, n, key, Lease(ops[i].lease));
    ClaimBinds(ops, j, key);
    var r := Run(ops[..j + 1]);
    RunExact(ops[..j + 1]);
    if ClaimName(n) == IdAt(ops, j) { ClaimNameInjective(n, Run(ops[..j]).nextID + 1); }
    assert ClaimName(n) in r.claims ==> Current(r, ClaimName(n));
  }

  lemma RetiredIsInert(s: Store, op: Op, n: nat)
    requires Retired(s, n) && !op.ClaimOp? && op.id == ClaimName(n)
    ensures Step(s, op) == s
  {
    NameIsTrimmed(n);
    assert s.claims - {ClaimName(n)} == s.claims;
  }

  /** Ids never repeat: once its key is claimed again, an earlier id neither completes nor fails anything. */
  lemma SupersededIsInert(ops: seq<Op>, i: nat, j: nat, m: nat, key: string)
    requires i < j < m < |ops| && AcceptedAt(ops, i, key) && AcceptedAt(ops, j, key)
    requires !ops[m].ClaimOp? && ops[m].id == IdAt(ops, i)
    ensures IdAt(ops, i) != IdAt(ops, j) && Run(ops[..m + 1]) == Run(ops[..m])
  {
    hide Run, Step, ClaimName, AcceptedAt;
    SupersededRetires(ops, i, j, key);
    BoundRun(ops, j + 1, m, Run(ops[..i]).nextID + 1, key, 0);
    RetiredIsInert(Run(ops[..m]), ops[m], Run(ops[..i]).nextID + 1);
    RunNext(ops, m);
  }

  lemma NameIsTrimmed(n: nat)
    ensures Trim(ClaimName(n)) == ClaimName(n)
  {
    var name := ClaimName(n);
    assert name[|name| - 1] == Itoa(n)[|Itoa(n)| - 1];
  }

  // ---------------------------------------------------------------- when a key can be claimed again

  ghost predicate SettledAt(ops: seq<Op>, i: nat, key: string) {
    i < |ops| && !ops[i].ClaimOp? && Trim(ops[i].id) != ""
    && var s := Run(ops[..i]); Current(s, Trim(ops[i].id)) && s.claims[Trim(ops[i].id)] == key
  }

  /** The operation took effect on the key. */
  ghost predicate Touches(ops: seq<Op>, i: nat, key: string) {
    AcceptedAt(ops, i, key) || SettledAt(ops, i, key)
  }

  ghost predicate CompletesAt(ops: seq<Op>, i: nat, key: string) {
    SettledAt(ops, i, key) && ops[i].CompleteOp?
  }

  ghost predicate Monotone(ops: seq<Op>) {
    forall i, j :: 0 <= i < j < |ops| ==> ops[i].now <= ops[j].now
  }

  /** Until when an operation that took effect keeps its key: lease end, retry time, or end of the TTL. */
  ghost function Gate(ops: seq<Op>, i: nat, key: string): int
    requires Touches(ops, i, key)
  {
    match ops[i]
    case ClaimOp(_, lease, now) => now + if lease > 0 then lease else 600_000_000_000
    case CompleteOp(_, now) => now + Run(ops[..i]).entries[key].keyTTL
    case FailOp(_, retry, now) => if retry.Some? then retry.value else now
  }

  function GateOf(entry: ClaimEntry): int {
    if entry.status.RetryReady? then (if entry.retryAt.Some? then entry.retryAt.value else 0)
    else if entry.leaseExpiresAt.Some? then entry.leaseExpiresAt.value else 0
  }

  /** Untouched, the entry stays as it was until eviction, which waits for its gate. */
  ghost predicate Frozen(s: Store, key: string, entry: ClaimEntry, clock: int) {
    if key in s.entries then s.entries[key] == entry else entry.status.Complete? && GateOf(entry) <= clock
  }

  lemma TouchFreezes(ops: seq<Op>, i: nat, key: string)
    requires Touches(ops, i, key)
    ensures var r := Run(ops[..i + 1]);
      key in r.entries && GateOf(r.entries[key]) == Gate(ops, i, key)
      && (r.entries[key].status.Processing? <==> ops[i].ClaimOp?)
      && (r.entries[key].status.Complete? <==> ops[i].CompleteOp?)
  {
    hide Run, ClaimName, Held, Trim;
    RunNext(ops, i);
    if AcceptedAt(ops, i, key) {
      ClaimBinds(ops, i, key);
    } else {
      RunExact(ops[..i]);
      assert EntryExact(Run(ops[..i]), key);
    }
  }

  lemma FrozenStep(s: Store, op: Op, key: string, entry: ClaimEntry, clock: int)
    requires Exact(s) && Frozen(s, key, entry, clock) && clock <= op.now
    requires op.ClaimOp? ==> !(Trim(op.key) == key && Accepts(s, op.key, op.now))
    requires !op.ClaimOp? ==> !(Trim(op.id) != "" && Current(s, Trim(op.id)) && s.claims[Trim(op.id)] == key)
    ensures Frozen(Step(s, op), key, entry, op.now)
  {
    hide Trim, ClaimName;
    if op.ClaimOp? {
      EvictedExact(s, op.now);
      if key in s.entries { assert EntryExact(s, key); }
    }
  }

  lemma {:induction false} FrozenRun(ops: seq<Op>, m: nat, j: nat, key: string)
    requires Monotone(ops) && m < j <= |ops| && Touches(ops, m, key)
    requires forall t :: m < t < j ==> !Touches(ops, t, key)
    ensures key in Run(ops[..m + 1]).entries
    ensures Frozen(Run(ops[..j]), key, Run(ops[..m + 1]).entries[key], ops[j - 1].now)
  {
    hide Run, Step, Exact, Frozen, Current, Trim;
    TouchFreezes(ops, m, key);
    if m + 1 == j {
      FrozenNow(Run(ops[..j]), key, ops[m].now);
    } else {
      FrozenRun(ops, m, j - 1, key);
      RunExact(ops[..j - 1]);
      RunNext(ops, j - 1);
      assert !Touches(ops, j - 1, key);
      FrozenStep(Run(ops[..j - 1]), ops[j - 1], key, Run(ops[..m + 1]).entries[key], ops[j - 2].now);
    }
  }

  lemma FrozenNow(s: Store, key: string, clock: int)
    requires key in s.entries
    ensures Frozen(s, key, s.entries[key], clock)
  {
  }

  /**
   Exactly when a key is re-accepted: a claim succeeds if and only if the gate set by the latest operation
   that took effect on its key has passed.
   */
  lemma ReacceptedExactlyAfterGate(ops: seq<Op>, m: nat, j: nat, key: string)
    requires Monotone(ops) && m < j < |ops| && Touches(ops, m, key)
    requires forall t :: m < t < j ==> !Touches(ops, t, key)
    requires ops[j].ClaimOp? && Trim(ops[j].key) == key
    ensures AcceptedAt(ops, j, key) <==> Gate(ops, m, key) <= ops[j].now
  {
    hide Run, Step, Trim;
    TouchFreezes(ops, m, key);
    FrozenRun(ops, m, j, key);
    var s := Run(ops[..j]);
    RunExact(ops[..m + 1]);
    assert EntryExact(Run(ops[..m + 1]), key);
    assert Accepts(s, ops[j].key, ops[j].now) <==> Gate(ops, m, key) <= ops[j].now;
  }

  /** A key on which nothing took effect yet is accepted. */
  lemma {:induction false} UntouchedIsAbsent(ops: seq<Op>, n: nat, key: string)
    requires n <= |ops| && forall t :: 0 <= t < n ==> !Touches(ops, t, key)
    ensures key !in Run(ops[..n]).entries
  {
    hide Step, Trim, Accepts, Current;
    if n > 0 {
      UntouchedIsAbsent(ops, n - 1, key);
      RunNext(ops, n - 1);
      assert !Touches(ops, n - 1, key);
      AbsentStays(Run(ops[..n - 1]), ops[n - 1], key);
    }
  }

  lemma AbsentStays(s: Store, op: Op, key: string)
    requires key !in s.entries
    ensures key in Step(s, op).entries ==> op.ClaimOp? && Trim(op.key) == key && Accepts(s, op.key, op.now)
  {
    hide Trim, ClaimName;
  }

  lemma FirstClaimAccepted(ops: seq<Op>, j: nat)
    requires j < |ops| && ops[j].ClaimOp? && Trim(ops[j].key) != ""
    requires forall t :: 0 <= t < j ==> !Touches(ops, t, Trim(ops[j].key))
    ensures AcceptedAt(ops, j, Trim(ops[j].key))
  {
    UntouchedIsAbsent(ops, j, Trim(ops[j].key));
    hide Run, Trim;
  }

  /** The id that a claim handed out settles its key exactly as long as nothing else took effect on it. */
  lemma SettledExactly(ops: seq<Op>, i: nat, m: nat, key: string)
    requires Monotone(ops) && i < m < |ops| && AcceptedAt(ops, i, key)
    requires !ops[m].ClaimOp? && ops[m].id == IdAt(ops, i)
    ensures SettledAt(ops, m, key) <==> forall t :: i < t < m ==> !Touches(ops, t, key)
  {
    hide Run, Step, Trim, ClaimName, Touches, Frozen, Exact, Accepts;
    var n := Run(ops[..i]).nextID + 1;
    NameIsTrimmed(n);
    ClaimBinds(ops, i, key);
    var t := FirstTouch(ops, i, m, key);
    assert Touches(ops, i, key) by { TouchedByClaim(ops, i, key); }
    FrozenRun(ops, i, t, key);
    RunExact(ops[..t]);
    FrozenProcessing(Run(ops[..t]), key, Run(ops[..i + 1]).entries[key], ops[t - 1].now);
    if t < m {
      TouchRetires(ops, i, t, key);
      BoundRun(ops, t + 1, m, n, key, 0);
    }
  }

  lemma TouchedByClaim(ops: seq<Op>, i: nat, key: string)
    ensures AcceptedAt(ops, i, key) ==> Touches(ops, i, key)
    ensures SettledAt(ops, i, key) ==> Touches(ops, i, key)
    ensures Touches(ops, i, key) ==> AcceptedAt(ops, i, key) || SettledAt(ops, i, key)
  {
  }

  lemma FrozenProcessing(s: Store, key: string, entry: ClaimEntry, clock: int)
    requires Exact(s) && Frozen(s, key, entry, clock) && entry.status.Processing?
    ensures key in s.entries && s.entries[key] == entry
    ensures entry.claimID != "" && Current(s, entry.claimID) && s.claims[entry.claimID] == key
  {
    assert EntryExact(s, key);
  }

  lemma TouchRetires(ops: seq<Op>, i: nat, t: nat, key: string)
    requires i < t < |ops| && AcceptedAt(ops, i, key) && Touches(ops, t, key)
    requires Current(Run(ops[..t]), IdAt(ops, i)) && Run(ops[..t]).claims[IdAt(ops, i)] == key
    ensures Retired(Run(ops[..t + 1]), Run(ops[..i]).nextID + 1)
  {
    hide Run, ClaimName, Accepts, Trim;
    ClaimBinds(ops, i, key);
    BoundRun(ops, i + 1, t, Run(ops[..i]).nextID + 1, key, 0);
    if AcceptedAt(ops, t, key) {
      SupersededRetires(ops, i, t, key);
    } else {
      RunNext(ops, t);
    }
  }

  lemma {:induction false} FirstTouch(ops: seq<Op>, m: nat, j: nat, key: string) returns (t: nat)
    requires m < j <= |ops|
    ensures m < t <= j
    ensures t < j ==> Touches(ops, t, key)
    ensures forall u :: m < u < t ==> !Touches(ops, u, key)
    decreases j - m
  {
    hide Touches;
    t := m + 1;
    while t < j && !Touches(ops, t, key)
      invariant m < t <= j
      invariant forall u :: m < u < t ==> !Touches(ops, u, key)
    {
      t := t + 1;
    }
  }

  /** An id in the claim map was handed out by an accepted claim on the key it maps to. */
  lemma {:induction false} IssuedBy(ops: seq<Op>, n: nat, id: string) returns (claim: nat)
    requires n <= |ops| && id in Run(ops[..n]).claims
    ensures claim < n && AcceptedAt(ops, claim, Run(ops[..n]).claims[id]) && IdAt(ops, claim) == id
  {
    hide Run, Step, Trim, Accepts, ClaimName;
    RunStart(ops);
    var s, op := Run(ops[..n - 1]), ops[n - 1];
    RunNext(ops, n - 1);
    ClaimsComeFrom(s, op, id);
    if op.ClaimOp? && Accepts(s, op.key, op.now) && id == ClaimName(s.nextID + 1) {
      claim := n - 1;
    } else {
      claim := IssuedBy(ops, n - 1, id);
    }
  }

  lemma RunStart(ops: seq<Op>)
    ensures Run(ops[..0]) == EMPTY
  {
  }

  /** An id is in the claim map after a step because it was before, or because the step handed it out. */
  lemma ClaimsComeFrom(s: Store, op: Op, id: string)
    requires id in Step(s, op).claims
    ensures if op.ClaimOp? && Accepts(s, op.key, op.now) && id == ClaimName(s.nextID + 1)
      then Step(s, op).claims[id] == Trim(op.key)
      else id in s.claims && Step(s, op).claims[id] == s.claims[id]
  {
    hide Trim, ClaimName;
  }

  /**
   Spacing of successes: in every interleaving of claims, completions, failures and stale workers, two
   completions that take effect on one key are at least the TTL apart of the claim that the earlier one settles.
   */
  lemma CompletionsAreSpaced(ops: seq<Op>, i: nat, j: nat, key: string) returns (claim: nat)
    requires Monotone(ops) && i < j < |ops| && CompletesAt(ops, i, key) && CompletesAt(ops, j, key)
    ensures claim < i && AcceptedAt(ops, claim, key) && Trim(ops[i].id) == IdAt(ops, claim)
    ensures ops[i].now + (if ops[claim].lease > 0 then ops[claim].lease else 600_000_000_000) <= ops[j].now
  {
    hide Run, Step, Trim, ClaimName, AcceptedAt, IdAt;
    claim := IssuedBy(ops, i, Trim(ops[i].id));
    SpacedAfterClaim(ops, claim, i, j, key);
  }

  lemma SpacedAfterClaim(ops: seq<Op>, claim: nat, i: nat, j: nat, key: string)
    requires Monotone(ops) && claim < i < j < |ops|
    requires CompletesAt(ops, i, key) && CompletesAt(ops, j, key)
    requires AcceptedAt(ops, claim, key) && Trim(ops[i].id) == IdAt(ops, claim)
    ensures ops[i].now + Lease(ops[claim].lease) <= ops[j].now
  {
    hide Run, Step, Trim, ClaimName, Frozen;
    ClaimBinds(ops, claim, key);
    BoundRun(ops, claim + 1, i, Run(ops[..claim]).nextID + 1, key, Lease(ops[claim].lease));
    assert Gate(ops, i, key) == ops[i].now + Lease(ops[claim].lease);
    var t := FirstTouch(ops, i, j, key);
    TouchFreezes(ops, i, key);
    FrozenRun(ops, i, t, key);
    CompleteStaysUntilClaimed(ops, i, t, key);
    ReacceptedExactlyAfterGate(ops, i, t, key);
  }

  lemma CompleteStaysUntilClaimed(ops: seq<Op>, i: nat, t: nat, key: string)
    requires i < t < |ops| && CompletesAt(ops, i, key) && Touches(ops, t, key)
    requires key in Run(ops[..i + 1]).entries && Run(ops[..i + 1]).entries[key].status.Complete?
    requires Frozen(Run(ops[..t]), key, Run(ops[..i + 1]).entries[key], ops[t - 1].now)
    ensures AcceptedAt(ops, t, key)
  {
    hide Run, Trim;
  }

  // ---------------------------------------------------------------- the store

  class InMemoryClaimStore {
    var entries: map<string, ClaimEntry>
    var claims: map<string, string>
    var nextID: nat

    ghost function View(): Store
      reads this
    {
      Store(entries, claims, nextID)
    }

    ghost predicate Valid()
      reads this
    {
      Exact(View())
    }

    constructor ()
      ensures Valid() && View() == EMPTY
    {
      entries, claims, nextID := map[], map[], 0;
    }

    method EvictExpired(now: int)
      modifies this`entries, this`claims
      ensures View() == Evicted(old(View()), now)
    {
      var pending := entries.Keys;
      ghost var dead: set<string> := {};
      while pending != {}
        invariant pending <= old(entries).Keys && dead <= ExpiredKeys(old(entries), now) <= dead + pending
        invariant dead !! pending
        invariant entries == old(entries) - dead && claims == old(claims) - IdsOf(old(entries), dead)
      {
        var key :| key in pending;
        pending := pending - {key};
        var entry := entries[key];
        if entry.status.Complete? && (entry.leaseExpiresAt.None? || now >= entry.leaseExpiresAt.value) {
          DeadIds(old(entries), dead, key);
          if entry.claimID != "" {
            claims := claims - {entry.claimID};
          }
          entries := entries - {key};
          dead := dead + {key};
        }
      }
      assert dead == ExpiredKeys(old(entries), now);
    }

    method NextClaimID() returns (id: string)
      modifies this`nextID
      ensures nextID == old(nextID) + 1 && id == ClaimName(nextID)
    {
      nextID := nextID + 1;
      id := "claim_" + Itoa(nextID);
    }

    method Claim(key: string, lease: int, now: int) returns (id: string, accepted: bool, ok: bool)
      modifies this
      ensures View() == Step(old(View()), ClaimOp(key, lease, now)) && (old(Valid()) ==> Valid())
      ensures ok <==> Trim(key) != ""
      ensures accepted <==> Accepts(old(View()), key, now)
      ensures accepted ==> id == ClaimName(nextID)
    {
      StepKeepsExact(View(), ClaimOp(key, lease, now));
      hide Exact, Trim, ClaimName, Evicted, Completed, Failed;
      var k := Trim(key);
      if k == "" {
        return "", false, false;
      }
      var ttl := if lease <= 0 then DEFAULT_TTL else lease;
      EvictExpired(now);
      if k !in entries {
        id := NextClaimID();
        entries := entries[k := ClaimEntry(Processing, id, 1, ttl, Some(now + ttl), None)];
        claims := claims[id := k];
        return id, true, true;
      }
      var entry := entries[k];
      match entry.status {
        case Complete =>
          if entry.leaseExpiresAt.Some? && now < entry.leaseExpiresAt.value { return "", false, true; }
        case Processing =>
          if entry.leaseExpiresAt.Some? && now < entry.leaseExpiresAt.value { return "", false, true; }
        case RetryReady =>
          if entry.retryAt.Some? && now < entry.retryAt.value { return "", false, true; }
      }
      if entry.claimID != "" {
        claims := claims - {entry.claimID};
      }
      id := NextClaimID();
      entries := entries[k := entry.(status := Processing, claimID := id, attempts := entry.attempts + 1, keyTTL := ttl,
                                     leaseExpiresAt := Some(now + ttl), retryAt := None)];
      claims := claims[id := k];
      return id, true, true;
    }

    method CompleteClaim(id: string, now: int) returns (ok: bool)
      modifies this`entries, this`claims
      ensures View() == Step(old(View()), CompleteOp(id, now)) && (old(Valid()) ==> Valid())
      ensures ok <==> Trim(id) != ""
    {
      StepKeepsExact(View(), CompleteOp(id, now));
      hide Exact, Trim, Claimed, Failed;
      var c := Trim(id);
      if c == "" {
        return false;
      }
      if c !in claims {
        assert claims - {c} == claims;
        return true;
      }
      var key := claims[c];
      if key !in entries || entries[key].claimID != c || !entries[key].status.Processing? {
        claims := claims - {c};
        return true;
      }
      var entry := entries[key];
      var ttl := if entry.keyTTL <= 0 then DEFAULT_TTL else entry.keyTTL;
      entries := entries[key := entry.(status := Complete, leaseExpiresAt := Some(now + ttl), retryAt := None)];
      claims := claims - {c};
      return true;
    }

    method FailClaim(id: string, retry: Option<int>, now: int) returns (ok: bool)
      modifies this`entries, this`claims
      ensures View() == Step(old(View()), FailOp(id, retry, now)) && (old(Valid()) ==> Valid())
      ensures ok <==> Trim(id) != ""
    {
      StepKeepsExact(View(), FailOp(id, retry, now));
      hide Exact, Trim, Claimed, Completed;
      var c := Trim(id);
      if c == "" {
        return false;
      }
      if c !in claims {
        assert claims - {c} == claims;
        return true;
      }
      var key := claims[c];
      if key !in entries || entries[key].claimID != c || !entries[key].status.Processing? {
        claims := claims - {c};
        return true;
      }
      var entry := entries[key];
      var retryAt := if retry.None? then now else retry.value;
      entries := entries[key := entry.(status := RetryReady, retryAt := Some(retryAt), leaseExpiresAt := None)];
      claims := claims - {c};
      return true;
    }

    /** Whatever other workers do to the store in the meantime. */
    method Interleave(ops: seq<Op>)
      requires Valid()
      modifies this
      ensures Valid() && View() == Steps(old(View()), ops)
    {
      hide Step, Exact;
      for i := 0 to |ops|
        invariant Valid() && Steps(old(View()), ops) == Steps(View(), ops[i..])
      {
        ghost var before := View();
        match ops[i] {
          case ClaimOp(key, lease, now) =>
            var _, _, _ := Claim(key, lease, now);
          case CompleteOp(id, now) =>
            var _ := CompleteClaim(id, now);
          case FailOp(id, retry, now) =>
            var _ := FailClaim(id, retry, now);
        }
        assert View() == Step(before, ops[i]);
        assert ops[i..][1..] == ops[i + 1..];
      }
    }
  }

  lemma DeadIds(entries: map<string, ClaimEntry>, dead: set<string>, key: string)
    requires key in entries
    ensures IdsOf(entries, dead + {key}) ==
      if entries[key].claimID != "" then IdsOf(entries, dead) + {entries[key].claimID} else IdsOf(entries, dead)
  {
  }

  // ---------------------------------------------------------------- the dispatcher

  /** The key has an entry that is not a completed one whose time is over. */
  ghost predicate Outlasts(s: Store, key: string, now: int) {
    key in s.entries
    && (s.entries[key].status == Complete ==>
          s.entries[key].leaseExpiresAt.Some? && now < s.entries[key].leaseExpiresAt.value)
  }

  lemma OutlastsEviction(s: Store, key: string, now: int)
    ensures Outlasts(s, key, now) <==> key in Evicted(s, now).entries
    ensures key in Evicted(s, now).entries ==> Evicted(s, now).entries[key] == s.entries[key]
  {
  }

  /** What an accepted claim leaves: the key is being processed and closed until its lease ends. */
  lemma AcceptedClaim(s: Store, key: string, lease: int, now: int)
    requires Exact(s) && Accepts(s, key, now)
    ensures var r, id := Claimed(s, key, lease, now), ClaimName(s.nextID + 1);
      && Current(r, id) && r.claims[id] == Trim(key) && r.nextID == s.nextID + 1
      && r.entries[Trim(key)].keyTTL == (if lease > 0 then lease else 600_000_000_000)
      && r.entries[Trim(key)].attempts == 1 + (if Outlasts(s, Trim(key), now) then s.entries[Trim(key)].attempts else 0)
      && forall later :: later < now + (if lease > 0 then lease else 600_000_000_000) ==> !Accepts(r, key, later)
  {
    hide Trim, ClaimName, Evicted;
    EvictedExact(s, now);
    OutlastsEviction(s, Trim(key), now);
    ClaimedExact(s, key, lease, now);
    var r := Claimed(s, key, lease, now);
    forall later | later < now + Lease(lease) ensures !Accepts(r, key, later) {
      assert Held(r, Trim(key), later);
      ProcessingNotEvicted(r, Trim(key), later);
    }
  }

  /** A claim touches its own key only, apart from what eviction drops. */
  lemma ClaimLeavesOthers(s: Store, key: string, lease: int, now: int)
    requires Trim(key) != ""
    ensures Claimed(s, key, lease, now).entries - {Trim(key)} == Evicted(s, now).entries - {Trim(key)}
  {
    hide Trim, ClaimName, Evicted;
  }

  lemma RefusedClaim(s: Store, key: string, lease: int, now: int)
    requires Trim(key) != ""
    ensures !Accepts(s, key, now) ==> Claimed(s, key, lease, now) == Evicted(s, now)
  {
    hide Trim, ClaimName, Evicted;
  }

  lemma {:induction false} StartsVisibly(s: string)
    requires s != "" && !IsSpace(s[0])
    ensures Trim(s) != "" && TrimRight(s) != ""
  {
    if |s| > 1 { StartsVisibly(s[..|s| - 1]); }
  }

  lemma ProcessingNotEvicted(s: Store, key: string, now: int)
    requires key in s.entries && !s.entries[key].status.Complete?
    ensures key in Evicted(s, now).entries && Evicted(s, now).entries[key] == s.entries[key]
  {
  }

  /** What settling that claim leaves. */
  lemma SettledClaim(r: Store, key: string, n: nat, at: int)
    requires Exact(r) && Current(r, ClaimName(n)) && r.claims[ClaimName(n)] == key == Trim(key)
    ensures var done := Completed(r, ClaimName(n), at);
      && key in done.entries && done.entries[key].status.Complete?
      && done.entries[key].leaseExpiresAt == Some(at + r.entries[key].keyTTL)
      && done.entries - {key} == r.entries - {key}
    ensures var failed := Failed(r, ClaimName(n), None, at);
      && key in failed.entries && failed.entries[key].status.RetryReady? && Accepts(failed, key, at)
      && failed.entries - {key} == r.entries - {key}
  {
    NameIsTrimmed(n);
    assert EntryExact(r, key);
    hide Trim;
    ProcessingNotEvicted(Failed(r, ClaimName(n), None, at), key, at);
  }

  /**
   Settling the n-th claim in whatever state the store has come to. If it is still current its key is completed for
   its TTL, or open again; a worker that has lost its claim changes no entry.
   */
  ghost predicate Settles(mid: Store, key: string, ttl: int, n: nat, done: bool, at: int, final: Store) {
    if Current(mid, ClaimName(n)) then
      && final.entries - {key} == mid.entries - {key} && key in final.entries
      && (if done then final.entries[key].status.Complete? && final.entries[key].leaseExpiresAt == Some(at + ttl)
          else Accepts(final, key, at))
    else final.entries == mid.entries
  }

  lemma SettleMeans(mid: Store, key: string, ttl: int, n: nat, at: int)
    requires Exact(mid) && Bound(mid, n, key, ttl) && Trim(key) == key
    ensures Settles(mid, key, ttl, n, true, at, Completed(mid, ClaimName(n), at))
    ensures Settles(mid, key, ttl, n, false, at, Failed(mid, ClaimName(n), None, at))
  {
    NameIsTrimmed(n);
    if Current(mid, ClaimName(n)) {
      SettledClaim(mid, key, n, at);
    }
  }

  lemma {:induction false} BoundSteps(s: Store, ops: seq<Op>, n: nat, key: string, ttl: int)
    requires Exact(s) && Bound(s, n, key, ttl)
    ensures Exact(Steps(s, ops)) && Bound(Steps(s, ops), n, key, ttl)
    decreases |ops|
  {
    if ops != [] {
      assert n <= s.nextID;
      hide Step, Exact, Bound;
      StepExact(s, ops[0]);
      BoundStep(s, ops[0], n, key, ttl);
      BoundSteps(Step(s, ops[0]), ops[1..], n, key, ttl);
    }
  }

  lemma AcceptedBinds(s: Store, key: string, lease: int, now: int)
    requires Exact(s) && Accepts(s, key, now)
    ensures var r := Claimed(s, key, lease, now);
      Exact(r) && r.nextID == s.nextID + 1 && Bound(r, r.nextID, Trim(key), Lease(lease))
  {
    hide Trim, ClaimName, Held;
    EvictedExact(s, now);
    ClaimedExact(s, key, lease, now);
    FreshName(Evicted(s, now), ClaimName(s.nextID + 1));
  }

  // ---------------------------------------------------------------- other keys

  /** From some time on, every other key is accepted by the one store exactly when the other accepts it. */
  ghost predicate SameForOthers(s: Store, t: Store, key: string, from: int) {
    forall other, now :: from <= now && Trim(other) != key ==> (Accepts(t, other, now) <==> Accepts(s, other, now))
  }

  lemma AcceptsByEntry(s: Store, t: Store, other: string, now: int)
    requires Trim(other) in s.entries <==> Trim(other) in t.entries
    requires Trim(other) in s.entries ==> s.entries[Trim(other)] == t.entries[Trim(other)]
    ensures Accepts(s, other, now) <==> Accepts(t, other, now)
  {
    hide Trim;
  }

  lemma EvictedAccepts(s: Store, at: int, other: string, now: int)
    requires at <= now
    ensures Accepts(Evicted(s, at), other, now) <==> Accepts(s, other, now)
  {
    hide Trim;
  }

  lemma OthersStay(s: Store, t: Store, key: string, from: int)
    requires s.entries - {key} == t.entries - {key}
    ensures SameForOthers(s, t, key, from)
  {
    hide Accepts, Trim;
    forall other, now | from <= now && Trim(other) != key ensures Accepts(t, other, now) <==> Accepts(s, other, now) {
      var k := Trim(other);
      assert k in s.entries <==> k in s.entries - {key};
      assert k in t.entries <==> k in t.entries - {key};
      assert k in s.entries ==> s.entries[k] == (s.entries - {key})[k];
      assert k in t.entries ==> t.entries[k] == (t.entries - {key})[k];
      AcceptsByEntry(s, t, other, now);
    }
  }

  lemma OthersOutlastEviction(s: Store, t: Store, key: string, at: int)
    requires t.entries - {key} == Evicted(s, at).entries - {key}
    ensures SameForOthers(s, t, key, at)
  {
    hide Accepts, Trim, Evicted;
    OthersStay(Evicted(s, at), t, key, at);
    forall other, now | at <= now && Trim(other) != key ensures Accepts(t, other, now) <==> Accepts(s, other, now) {
      EvictedAccepts(s, at, other, now);
    }
  }

  lemma SettledLeavesOthers(mid: Store, key: string, ttl: int, n: nat, done: bool, at: int, final: Store, from: int)
    requires Settles(mid, key, ttl, n, done, at, final)
    ensures SameForOthers(mid, final, key, from)
  {
    hide Current, Accepts, SameForOthers;
    OthersStay(mid, final, key, from);
  }

  lemma StillOpen(s: Store, claimed: Store, final: Store, key: string, other: string, from: int, now: int)
    requires SameForOthers(s, claimed, key, from) && SameForOthers(Steps(claimed, []), final, key, from)
    requires from <= now && Trim(other) != key && Accepts(s, other, now)
    ensures Accepts(final, other, now)
  {
    hide Accepts, Trim;
  }

  datatype Request = Request(providerID: string, surface: string)
  datatype Handling = HandlerError | Handled(accepted: bool, statusCode: int)
  datatype DispatchResult =
    | BadInput | Unverified | NoKey | Deduped | NoHandler | HandlerFailed | RetryableStatus(statusCode: int)
    | Done(statusCode: int)

  const SURFACES := {"webhook", "command", "interaction", "event_callback"}

  lemma EmptyAccepts(key: string, now: int)
    requires Trim(key) != ""
    ensures Accepts(EMPTY, key, now)
  {
  }

  lemma SurfaceHasNoColon(s: string)
    requires s in SURFACES
    ensures ':' !in s
  {
  }

  /** The second provider begins with the first one's provider and surface, and the first key goes on to match. */
  ghost predicate Nests(p: string, s: string, k: string, q: string, t: string, l: string) {
    || (q == p + ":" + s && k == t + ":" + l)
    || exists y: string :: q == p + ":" + s + ":" + y && k == y + ":" + t + ":" + l
  }

  lemma NestsMeans(p: string, s: string, k: string, q: string, t: string, l: string)
    ensures Nests(p, s, k, q, t, l) ==> ':' in q && p != q
  {
    if Nests(p, s, k, q, t, l) { assert q[|p|] == ':'; }
  }

  lemma {:induction false} LastPart(x: string, sep: char) returns (front: string, last: string)
    requires sep in x
    ensures x == front + [sep] + last && sep !in last
  {
    if sep !in x[1..] {
      front, last := "", x[1..];
    } else {
      front, last := LastPart(x[1..], sep);
      front := [x[0]] + front;
    }
    assert x == [x[0]] + x[1..];
  }

  lemma NestedIsLater(p: string, s: string, k: string, q: string, t: string, l: string)
    requires ':' !in s && ':' !in t
    ensures CutsLater(p + ":" + s, k, q + ":" + t, l, ':') <==> Nests(p, s, k, q, t, l)
  {
    var a, b := p + ":" + s, q + ":" + t;
    if x: string :| b == a + [':'] + x && k == x + [':'] + l {
      LaterNests(p, s, k, q, t, l, x);
    }
    if Nests(p, s, k, q, t, l) {
      if q == a && k == t + ":" + l {
        assert CutsLater(a, k, b, l, ':');
      } else {
        var y: string :| q == a + ":" + y && k == y + ":" + t + ":" + l;
        Reassociate(a, y, t, ':');
        assert b == a + [':'] + (y + ":" + t) && k == (y + ":" + t) + [':'] + l;
        assert CutsLater(a, k, b, l, ':');
      }
    }
  }

  lemma LaterNests(p: string, s: string, k: string, q: string, t: string, l: string, x: string)
    requires ':' !in t && q + ":" + t == (p + ":" + s) + [':'] + x && k == x + [':'] + l
    ensures Nests(p, s, k, q, t, l)
  {
    var a := p + ":" + s;
    if ':' in x {
      var y, w := LastPart(x, ':');
      Reassociate(a, y, w, ':');
      PairsUnlike(q, t, a + [':'] + y, w, ':');
      assert q == a + ":" + y && k == y + ":" + t + ":" + l;
    } else {
      PairsUnlike(q, t, a, x, ':');
    }
  }

  lemma ThreeAlikeExactly(p: string, s: string, k: string, q: string, t: string, l: string)
    requires ':' !in s && ':' !in t
    ensures p + ":" + s + ":" + k == q + ":" + t + ":" + l <==>
      (p == q && s == t && k == l) || Nests(p, s, k, q, t, l) || Nests(q, t, l, p, s, k)
  {
    hide Nests, CutsLater;
    PairsAlikeExactly(p + ":" + s, k, q + ":" + t, l, ':');
    NestedIsLater(p, s, k, q, t, l);
    NestedIsLater(q, t, l, p, s, k);
    PairsUnlike(p, s, q, t, ':');
  }

  class Dispatcher {
    const lower: string -> string
    const store: InMemoryClaimStore
    const keyTTL: int
    var handlers: set<string>

    constructor (lower: string -> string, store: InMemoryClaimStore, keyTTL: int)
      ensures this.lower == lower && this.store == store && this.keyTTL == keyTTL && handlers == {}
    {
      this.lower, this.store, this.keyTTL, handlers := lower, store, keyTTL, {};
    }

    function FullKey(req: Request, key: string): string {
      Trim(req.providerID) + ":" + Trim(lower(req.surface)) + ":" + key
    }

    /** Two requests whose keys are kept under one claim, spelled out. */
    ghost predicate ShareClaim(a: Request, keyA: string, b: Request, keyB: string) {
      var (p, s, k) := (Trim(a.providerID), Trim(lower(a.surface)), TrimRight(keyA));
      var (q, t, l) := (Trim(b.providerID), Trim(lower(b.surface)), TrimRight(keyB));
      (p == q && s == t && k == l) || Nests(p, s, k, q, t, l) || Nests(q, t, l, p, s, k)
    }

    ghost predicate Keyed(req: Request) { Trim(req.providerID) != "" && Trim(lower(req.surface)) in SURFACES }

    /**
     Under one provider and surface two requests share a claim exactly if their keys agree after trimming on the
     right. Across providers or surfaces it takes a provider with colons that goes on like the other's name.
     */
    lemma SharedExactly(a: Request, keyA: string, b: Request, keyB: string)
      requires Keyed(a) && Keyed(b)
      ensures Trim(FullKey(a, keyA)) == Trim(FullKey(b, keyB)) <==> ShareClaim(a, keyA, b, keyB)
      ensures Trim(a.providerID) == Trim(b.providerID) && Trim(lower(a.surface)) == Trim(lower(b.surface)) ==>
        (ShareClaim(a, keyA, b, keyB) <==> TrimRight(keyA) == TrimRight(keyB))
      ensures ':' !in Trim(a.providerID) && ':' !in Trim(b.providerID) && ShareClaim(a, keyA, b, keyB) ==>
        Trim(a.providerID) == Trim(b.providerID) && Trim(lower(a.surface)) == Trim(lower(b.surface))
    {
      var (p, s, k) := (Trim(a.providerID), Trim(lower(a.surface)), TrimRight(keyA));
      var (q, t, l) := (Trim(b.providerID), Trim(lower(b.surface)), TrimRight(keyB));
      FullKeyTrimmed(a, keyA);
      FullKeyTrimmed(b, keyB);
      SurfaceHasNoColon(s);
      SurfaceHasNoColon(t);
      hide *;
      ThreeAlikeExactly(p, s, k, q, t, l);
      NestsMeans(p, s, k, q, t, l);
      NestsMeans(q, t, l, p, s, k);
    }

    lemma FullKeyTrimmed(req: Request, key: string)
      requires Trim(req.providerID) != ""
      ensures Trim(FullKey(req, key)) == Trim(req.providerID) + ":" + Trim(lower(req.surface)) + ":" + TrimRight(key)
    {
      var full, front := FullKey(req, key), Trim(req.providerID) + ":" + Trim(lower(req.surface)) + ":";
      assert full[0] == Trim(req.providerID)[0];
      assert full == front + key;
      TrimRightBehind(front, key);
    }

    lemma FullKeyVisible(req: Request, key: string)
      requires Trim(req.providerID) != ""
      ensures Trim(FullKey(req, key)) != ""
    {
      var full := FullKey(req, key);
      assert full[0] == Trim(req.providerID)[0];
      StartsVisibly(full);
    }

    /** The request gets as far as asking for a claim. */
    predicate Reaches(req: Request, verified: bool, key: Option<string>) {
      && Trim(req.providerID) != "" && verified && key.Some?
      && Trim(lower(req.surface)) in {"webhook", "command", "interaction", "event_callback"}
    }

    /** Runs the handler while others use the store, then settles the claim. */
    method Handle(id: string, handling: Handling, between: seq<Op>, settleAt: int, ghost n: nat, ghost key: string)
      returns (result: DispatchResult)
      requires store.Valid() && id == ClaimName(n) && Trim(key) == key && Bound(store.View(), n, key, Lease(keyTTL))
      modifies store
      ensures store.Valid()
      ensures result.Done? <==> handling.Handled? && handling.accepted && handling.statusCode < 500
      ensures result.Done? || result.HandlerFailed? || result.RetryableStatus?
      ensures Settles(Steps(old(store.View()), between), key, Lease(keyTTL), n, result.Done?, settleAt, store.View())
    {
      hide Exact, ClaimName, Trim, Bound, Completed, Failed, Settles, Claimed;
      BoundSteps(store.View(), between, n, key, Lease(keyTTL));
      SettleMeans(Steps(store.View(), between), key, Lease(keyTTL), n, settleAt);
      store.Interleave(between);
      if handling.HandlerError? {
        var _ := store.FailClaim(id, None, settleAt);
        return HandlerFailed;
      }
      if !handling.accepted || handling.statusCode >= 500 {
        var _ := store.FailClaim(id, None, settleAt);
        return RetryableStatus(handling.statusCode);
      }
      var _ := store.CompleteClaim(id, settleAt);
      return Done(handling.statusCode);
    }

    /**
     One request: claim, handle, settle, with anything that other workers do to the store in between. The handler runs
     exactly when the claim was accepted and a handler is registered; if the claim is still current then, its key ends
     up completed or ready to retry. Without a handler the accepted claim is left processing, so the key stays closed
     until its lease ends.
     */
    method Dispatch(
      req: Request, verified: bool, key: Option<string>, handling: Handling, between: seq<Op>, claimAt: int,
      settleAt: int)
      returns (result: DispatchResult, handled: bool)
      requires store.Valid()
      modifies store
      ensures store.Valid()
      ensures !Reaches(req, verified, key) ==>
        store.View() == old(store.View()) && !handled && (result.BadInput? || result.Unverified? || result.NoKey?)
      ensures Reaches(req, verified, key) ==>
        var full := FullKey(req, key.value);
        var accepted := Accepts(old(store.View()), full, claimAt);
        var claimed := Claimed(old(store.View()), full, Lease(keyTTL), claimAt);
        var open := Trim(lower(req.surface)) in handlers;
        && claimed.entries - {Trim(full)} == Evicted(old(store.View()), claimAt).entries - {Trim(full)}
        && (result.Deduped? <==> !accepted) && (result.NoHandler? <==> accepted && !open)
        && (handled <==> accepted && open)
        && (result.Done? <==> handled && handling.Handled? && handling.accepted && handling.statusCode < 500)
        && (!accepted ==> store.View() == Evicted(old(store.View()), claimAt))
        && (accepted ==> Current(claimed, ClaimName(claimed.nextID)))
        && (result.NoHandler? ==>
              store.View() == claimed && forall now :: now < claimAt + Lease(keyTTL) ==> !Accepts(claimed, full, now))
        && (handled ==>
              Settles(Steps(claimed, between), Trim(full), Lease(keyTTL), claimed.nextID, result.Done?, settleAt,
                      store.View()))
        // Whether another key is deduplicated is not changed by this request.
        && SameForOthers(old(store.View()), claimed, Trim(full), claimAt)
        && (handled ==> SameForOthers(Steps(claimed, between), store.View(), Trim(full), claimAt))
    {
      hide SameForOthers, Exact, ClaimName, Trim, Claimed, Completed, Failed, Accepts, Evicted, Settles, Bound;
      var providerID := Trim(req.providerID);
      var surface := Trim(lower(req.surface));
      if providerID == "" || surface !in SURFACES {
        return BadInput, false;
      }
      if !verified {
        return Unverified, false;
      }
      if key.None? {
        return NoKey, false;
      }
      var ttl := if keyTTL > 0 then keyTTL else DEFAULT_TTL;
      var full := FullKey(req, key.value);
      ghost var before := store.View();
      FullKeyVisible(req, key.value);
      hide FullKey;
      ClaimLeavesOthers(before, full, ttl, claimAt);
      OthersOutlastEviction(before, Claimed(before, full, ttl, claimAt), Trim(full), claimAt);
      RefusedClaim(before, full, ttl, claimAt);
      var id, accepted, ok := store.Claim(full, ttl, claimAt);
      if !accepted {
        return Deduped, false;
      }
      AcceptedClaim(before, full, ttl, claimAt);
      AcceptedBinds(before, full, ttl, claimAt);
      TrimIdempotent(full);
      if surface !in handlers {
        return NoHandler, false;
      }
      ghost var mid, n := Steps(store.View(), between), store.nextID;
      result := Handle(id, handling, between, settleAt, store.nextID, Trim(full));
      SettledLeavesOthers(mid, Trim(full), Lease(keyTTL), n, result.Done?, settleAt, store.View(), claimAt);
      return result, true;
    }

    lemma BothReach(a: Request, keyA: string, atA: int, b: Request, keyB: string, atB: int)
      requires Keyed(a) && Keyed(b) && !ShareClaim(a, keyA, b, keyB)
      ensures Reaches(a, true, Some(keyA)) && Accepts(EMPTY, FullKey(a, keyA), atA)
      ensures Reaches(b, true, Some(keyB)) && Accepts(EMPTY, FullKey(b, keyB), atB)
      ensures Trim(FullKey(a, keyA)) != Trim(FullKey(b, keyB))
    {
      hide FullKey, Trim, ShareClaim, Accepts;
      FullKeyVisible(a, keyA);
      FullKeyVisible(b, keyB);
      EmptyAccepts(FullKey(a, keyA), atA);
      EmptyAccepts(FullKey(b, keyB), atB);
      SharedExactly(a, keyA, b, keyB);
    }

    /** Two requests that do not share a claim are both handled, one after the other, on an empty store. */
    method DispatchBoth(
      a: Request, keyA: string, handlingA: Handling, atA: int, doneA: int,
      b: Request, keyB: string, handlingB: Handling, atB: int, doneB: int)
      returns (resultA: DispatchResult, resultB: DispatchResult, handledA: bool, handledB: bool)
      requires store.Valid() && store.View() == EMPTY && atA <= atB
      requires Keyed(a) && Keyed(b) && !ShareClaim(a, keyA, b, keyB)
      requires Trim(lower(a.surface)) in handlers && Trim(lower(b.surface)) in handlers
      modifies store
      ensures store.Valid() && handledA && handledB && !resultA.Deduped? && !resultB.Deduped?
    {
      hide *;
      BothReach(a, keyA, atA, b, keyB, atB);
      ghost var claimed := Claimed(store.View(), FullKey(a, keyA), Lease(keyTTL), atA);
      resultA, handledA := Dispatch(a, true, Some(keyA), handlingA, [], atA, doneA);
      StillOpen(EMPTY, claimed, store.View(), Trim(FullKey(a, keyA)), FullKey(b, keyB), atA, atB);
      resultB, handledB := Dispatch(b, true, Some(keyB), handlingB, [], atB, doneB);
    }
  }
}
