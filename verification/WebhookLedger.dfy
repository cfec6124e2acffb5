/**
 The webhook delivery ledger and the processor that drives it. A claim id is the delivery's key followed by
 the attempt number, so a late worker is recognised by its attempt.
 */
module WebhookLedger {
  import opened Text
  import Backoff

  datatype Status = Pending | Processing | Processed | RetryReady | Dead

  datatype Record = Record(
    providerID: string, deliveryID: string, status: Status, attempts: nat, claimID: string,
    nextAttemptAt: Option<int>)

  type Records = map<string, Record>

  const DEFAULT_LEASE := 30 * Backoff.SECOND
  const DEFAULT_MAX_ATTEMPTS := 8

  // ---------------------------------------------------------------- claim ids

  function LedgerKey(providerID: string, deliveryID: string): string {
    Trim(providerID) + ":" + Trim(deliveryID)
  }

  function ClaimID(key: string, attempt: nat): string { key + ":" + Itoa(attempt) }

  function ParseClaimID(claimID: string): Option<(string, int)> {
    var parts := Split(Trim(claimID), ':');
    if |parts| < 3 then None
    else match Atoi(parts[|parts| - 1])
      case None => None
      case Some(attempt) =>
        if attempt <= 0 then None else Some((Join(parts[..|parts| - 1], ':'), attempt))
  }

  /**
   Two deliveries share a record exactly if provider and id agree, or if one provider goes on past a colon like the
   other delivery's id.
   */
  lemma SameRecordExactly(providerA: string, deliveryA: string, providerB: string, deliveryB: string)
    ensures var (p, d, q, e) := (Trim(providerA), Trim(deliveryA), Trim(providerB), Trim(deliveryB));
      && (LedgerKey(providerA, deliveryA) == LedgerKey(providerB, deliveryB) <==>
            (p == q && d == e) || CutsLater(p, d, q, e, ':') || CutsLater(q, e, p, d, ':'))
      && (':' !in p && ':' !in q ==>
            (LedgerKey(providerA, deliveryA) == LedgerKey(providerB, deliveryB) <==> p == q && d == e))
  {
    var (p, d, q, e) := (Trim(providerA), Trim(deliveryA), Trim(providerB), Trim(deliveryB));
    hide Trim, CutsLater;
    PairsAlikeExactly(p, d, q, e, ':');
    if ':' !in p && ':' !in q { PairsUnlike(p, d, q, e, ':'); }
  }

  lemma ClaimIDIsTrimmed(providerID: string, deliveryID: string, attempt: nat)
    ensures var id := ClaimID(LedgerKey(providerID, deliveryID), attempt); Trim(id) == id
  {
    var id := ClaimID(LedgerKey(providerID, deliveryID), attempt);
    assert id[0] == if Trim(providerID) == "" then ':' else Trim(providerID)[0];
    assert id[|id| - 1] == Itoa(attempt)[|Itoa(attempt)| - 1];
  }

  /** A printed claim id reads back as its key and attempt, colons in the ids notwithstanding. */
  lemma ClaimIDRoundTrip(providerID: string, deliveryID: string, attempt: nat)
    ensures var key := LedgerKey(providerID, deliveryID);
      ParseClaimID(ClaimID(key, attempt)) == if 1 <= attempt <= MAX_INT then Some((key, attempt)) else None
  {
    var key := LedgerKey(providerID, deliveryID);
    ClaimIDIsTrimmed(providerID, deliveryID, attempt);
    assert key[|Trim(providerID)|] == ':';
    hide Trim, Split, Join, Itoa, Atoi;
    SplitSnoc(key, Itoa(attempt), ':');
    SplitSeparatorTwoParts(key, ':');
    JoinSplit(key, ':');
    AtoiItoaRange(attempt);
    assert (Split(key, ':') + [Itoa(attempt)])[..|Split(key, ':')|] == Split(key, ':');
  }

  lemma AtoiItoaRange(n: nat)
    ensures Atoi(Itoa(n)) == if n <= MAX_INT then Some(n) else None
  {
    ParseDigitsItoa(n);
    assert IsDigit(Itoa(n)[0]);
  }

  // ---------------------------------------------------------------- steps

  datatype Op =
    | ClaimOp(providerID: string, deliveryID: string, lease: int, now: int)
    | CompleteOp(id: string)
    | FailOp(id: string, nextAttemptAt: Option<int>, maxAttempts: int, now: int)

  function Lease(lease: int): int { if lease <= 0 then DEFAULT_LEASE else lease }
  function Limit(maxAttempts: int): (m: int)
    ensures m >= 1
  {
    if maxAttempts <= 0 then DEFAULT_MAX_ATTEMPTS else maxAttempts
  }

  function Found(s: Records, providerID: string, deliveryID: string): Record {
    var key := LedgerKey(providerID, deliveryID);
    if key in s then s[key] else Record(Trim(providerID), Trim(deliveryID), Pending, 0, "", None)
  }

  predicate Claimable(record: Record, now: int) {
    match record.status
    case Processed => false
    case Dead => false
    case RetryReady => record.nextAttemptAt.None? || now >= record.nextAttemptAt.value
    case Processing => record.nextAttemptAt.None? || now >= record.nextAttemptAt.value
    case Pending => true
  }

  function Claimed(s: Records, providerID: string, deliveryID: string, lease: int, now: int): Records {
    var key, record := LedgerKey(providerID, deliveryID), Found(s, providerID, deliveryID);
    if !Claimable(record, now) then s[key := record]
    else
      s[key := record.(status := Processing, attempts := record.attempts + 1,
                       claimID := ClaimID(key, record.attempts + 1), nextAttemptAt := Some(now + Lease(lease)))]
  }

  /** The claim id is that of the attempt now being processed. */
  predicate Current(s: Records, id: string) {
    ParseClaimID(id).Some?
    && var (key, attempt) := ParseClaimID(id).value;
       key in s && s[key].status.Processing? && s[key].attempts == attempt
  }

  function KeyNamed(id: string): string
    requires ParseClaimID(id).Some?
  {
    ParseClaimID(id).value.0
  }

  function AfterFailure(record: Record, nextAttemptAt: Option<int>, maxAttempts: int, now: int): Record {
    if record.attempts >= Limit(maxAttempts) then record.(status := Dead, nextAttemptAt := None)
    else record.(status := RetryReady,
                 nextAttemptAt := Some(if nextAttemptAt.None? then now else nextAttemptAt.value))
  }

  function Step(s: Records, op: Op): Records {
    match op
    case ClaimOp(providerID, deliveryID, lease, now) => Claimed(s, providerID, deliveryID, lease, now)
    case CompleteOp(id) =>
      if !Current(s, id) then s
      else s[KeyNamed(id) := s[KeyNamed(id)].(status := Processed, nextAttemptAt := None)]
    case FailOp(id, nextAttemptAt, maxAttempts, now) =>
      if !Current(s, id) then s
      else s[KeyNamed(id) := AfterFailure(s[KeyNamed(id)], nextAttemptAt, maxAttempts, now)]
  }

  function Steps(s: Records, ops: seq<Op>): Records
    decreases |ops|
  {
    if ops == [] then s else Steps(Step(s, ops[0]), ops[1..])
  }

  function Run(ops: seq<Op>): Records {
    if ops == [] then map[] else Step(Run(ops[..|ops| - 1]), ops[|ops| - 1])
  }

  lemma RunNext(ops: seq<Op>, i: nat)
    requires i < |ops|
    ensures Run(ops[..i + 1]) == Step(Run(ops[..i]), ops[i])
  {
    assert ops[..i + 1][..i] == ops[..i];
  }

  // ---------------------------------------------------------------- terminal states and stale claims

  predicate Terminal(record: Record) { record.status.Processed? || record.status.Dead? }

  lemma StepForward(s: Records, op: Op, key: string)
    requires key in s
    ensures var t := Step(s, op);
      key in t && s[key].attempts <= t[key].attempts && (Terminal(s[key]) ==> t[key] == s[key])
  {
    hide ParseClaimID, LedgerKey, ClaimID;
  }

  /** Processed and dead are absorbing, and attempt numbers only grow, whatever happens later. */
  lemma {:induction false} RunForward(ops: seq<Op>, i: nat, j: nat, key: string)
    requires i <= j <= |ops| && key in Run(ops[..i])
    ensures key in Run(ops[..j]) && Run(ops[..i])[key].attempts <= Run(ops[..j])[key].attempts
    ensures Terminal(Run(ops[..i])[key]) ==> Run(ops[..j])[key] == Run(ops[..i])[key]
  {
    hide Run, Step;
    if i < j {
      RunForward(ops, i, j - 1, key);
      RunNext(ops, j - 1);
      StepForward(Run(ops[..j - 1]), ops[j - 1], key);
    }
  }

  ghost predicate AcceptedAt(ops: seq<Op>, i: nat, key: string) {
    i < |ops| && ops[i].ClaimOp? && LedgerKey(ops[i].providerID, ops[i].deliveryID) == key
    && Claimable(Found(Run(ops[..i]), ops[i].providerID, ops[i].deliveryID), ops[i].now)
  }

  lemma AcceptedAdvances(ops: seq<Op>, i: nat, key: string)
    requires AcceptedAt(ops, i, key)
    ensures var r := Run(ops[..i + 1]);
      && key in r && r[key].status.Processing? && r[key].claimID == ClaimID(key, r[key].attempts)
      && r[key].attempts == 1 + Found(Run(ops[..i]), ops[i].providerID, ops[i].deliveryID).attempts
  {
    hide Run, LedgerKey, ClaimID;
    RunNext(ops, i);
  }

  /** A claim id handed out for an earlier attempt changes nothing once the delivery was claimed again. */
  lemma StaleClaimIsInert(ops: seq<Op>, i: nat, j: nat, m: nat, key: string)
    requires i < j < m < |ops| && AcceptedAt(ops, i, key) && AcceptedAt(ops, j, key)
    requires key in Run(ops[..i + 1]) && !ops[m].ClaimOp? && ops[m].id == Run(ops[..i + 1])[key].claimID
    ensures Run(ops[..m + 1]) == Run(ops[..m])
  {
    hide Run, ClaimID, ParseClaimID, Claimable, Trim;
    AcceptedAdvances(ops, i, key);
    AcceptedAdvances(ops, j, key);
    RunForward(ops, i + 1, j, key);
    RunForward(ops, j + 1, m, key);
    ClaimIDRoundTrip(ops[i].providerID, ops[i].deliveryID, Run(ops[..i + 1])[key].attempts);
    RunNext(ops, m);
  }

  // ---------------------------------------------------------------- how often a delivery can fail

  ghost predicate FailsAt(ops: seq<Op>, i: nat, key: string) {
    i < |ops| && ops[i].FailOp? && Current(Run(ops[..i]), ops[i].id) && KeyNamed(ops[i].id) == key
  }

  /** A worker that crashed: its claim was taken over while still processing. */
  ghost predicate AbandonedAt(ops: seq<Op>, i: nat, key: string) {
    AcceptedAt(ops, i, key) && key in Run(ops[..i]) && Run(ops[..i])[key].status.Processing?
  }

  ghost function Failures(ops: seq<Op>, n: nat, key: string): nat
    requires n <= |ops|
  {
    if n == 0 then 0 else Failures(ops, n - 1, key) + if FailsAt(ops, n - 1, key) then 1 else 0
  }

  ghost function Abandoned(ops: seq<Op>, n: nat, key: string): nat
    requires n <= |ops|
  {
    if n == 0 then 0 else Abandoned(ops, n - 1, key) + if AbandonedAt(ops, n - 1, key) then 1 else 0
  }

  ghost predicate Tally(s: Records, key: string, failures: nat, abandoned: nat, limit: int) {
    if key !in s then failures == 0 && abandoned == 0
    else
      var r := s[key];
      && r.attempts == failures + abandoned + (if r.status.Processing? || r.status.Processed? then 1 else 0)
      && failures <= (if r.status.Dead? then limit else limit - 1)
      && (r.status.Dead? ==> r.attempts >= limit)
      && (r.status.RetryReady? ==> r.attempts < limit) && !r.status.Pending?
  }

  lemma TallyStep(s: Records, op: Op, key: string, failures: nat, abandoned: nat, limit: int)
    requires limit >= 1 && Tally(s, key, failures, abandoned, limit)
    requires op.FailOp? ==> Limit(op.maxAttempts) == limit
    ensures var fails := op.FailOp? && Current(s, op.id) && KeyNamed(op.id) == key;
      var crashed := op.ClaimOp? && LedgerKey(op.providerID, op.deliveryID) == key
        && Claimable(Found(s, op.providerID, op.deliveryID), op.now) && key in s && s[key].status.Processing?;
      Tally(Step(s, op), key, failures + (if fails then 1 else 0), abandoned + (if crashed then 1 else 0), limit)
  {
    hide ParseClaimID, LedgerKey, ClaimID, Trim;
  }

  lemma {:induction false} RunTally(ops: seq<Op>, n: nat, key: string, limit: int)
    requires n <= |ops| && limit >= 1
    requires forall i :: 0 <= i < n && ops[i].FailOp? ==> Limit(ops[i].maxAttempts) == limit
    ensures Tally(Run(ops[..n]), key, Failures(ops, n, key), Abandoned(ops, n, key), limit)
  {
    hide Run, Step, Tally, Claimable, Current, ParseClaimID, Trim;
    if n == 0 {
      TallyEmpty(key, limit);
      assert ops[..0] == [];
    } else {
      RunTally(ops, n - 1, key, limit);
      RunNext(ops, n - 1);
      TallyStep(Run(ops[..n - 1]), ops[n - 1], key, Failures(ops, n - 1, key), Abandoned(ops, n - 1, key), limit);
    }
  }

  lemma TallyEmpty(key: string, limit: int)
    ensures Tally(Run([]), key, 0, 0, limit)
  {
  }

  /**
   At most maxAttempts failures ever take effect on one delivery. Its attempts are exactly these failures, the claims
   that crashed workers abandoned, and one while it is processing or processed; it is dead only after maxAttempts
   attempts and ready to retry only before.
   */
  lemma FailuresAreBounded(ops: seq<Op>, key: string, limit: int)
    requires limit >= 1
    requires forall i :: 0 <= i < |ops| && ops[i].FailOp? ==> Limit(ops[i].maxAttempts) == limit
    ensures Failures(ops, |ops|, key) <= limit
    ensures key in Run(ops) ==>
      var r := Run(ops)[key];
      && r.attempts == Failures(ops, |ops|, key) + Abandoned(ops, |ops|, key)
                       + (if r.status.Processing? || r.status.Processed? then 1 else 0)
      && (r.status.Dead? ==> r.attempts >= limit)
      && (r.status.RetryReady? ==> r.attempts < limit)
  {
    hide Run;
    RunTally(ops, |ops|, key, limit);
    assert ops[..|ops|] == ops;
  }

  /** The claim takes over from a crashed worker although the limit is already reached. */
  ghost predicate Overruns(ops: seq<Op>, i: nat, key: string, limit: int) {
    AbandonedAt(ops, i, key) && Run(ops[..i])[key].attempts >= limit
  }

  lemma ClaimOverruns(ops: seq<Op>, i: nat, key: string, limit: int)
    requires limit >= 1 && AcceptedAt(ops, i, key)
    requires forall m :: 0 <= m < i && ops[m].FailOp? ==> Limit(ops[m].maxAttempts) == limit
    ensures key in Run(ops[..i + 1]) && (Run(ops[..i + 1])[key].attempts > limit <==> Overruns(ops, i, key, limit))
  {
    hide Run, LedgerKey, ClaimID, ParseClaimID, Trim;
    AcceptedAdvances(ops, i, key);
    RunTally(ops, i, key, limit);
  }

  ghost function AttemptsOf(ops: seq<Op>, n: nat, key: string): nat
    requires n <= |ops|
  {
    if key in Run(ops[..n]) then Run(ops[..n])[key].attempts else 0
  }

  lemma OnlyClaimsCount(ops: seq<Op>, i: nat, key: string)
    requires i < |ops| && !AcceptedAt(ops, i, key)
    ensures AttemptsOf(ops, i + 1, key) == AttemptsOf(ops, i, key)
  {
    RunNext(ops, i);
    hide Run, LedgerKey, ClaimID, ParseClaimID, Trim;
  }

  lemma OverrunStep(ops: seq<Op>, i: nat, key: string, limit: int)
    requires i < |ops| && limit >= 1
    requires forall m :: 0 <= m < i && ops[m].FailOp? ==> Limit(ops[m].maxAttempts) == limit
    ensures AttemptsOf(ops, i + 1, key) <= limit <==> AttemptsOf(ops, i, key) <= limit && !Overruns(ops, i, key, limit)
  {
    hide Run, AcceptedAt;
    if AcceptedAt(ops, i, key) {
      ClaimOverruns(ops, i, key, limit);
      if key in Run(ops[..i]) { RunForward(ops, i, i + 1, key); }
    } else {
      OnlyClaimsCount(ops, i, key);
    }
  }

  ghost predicate NoOverrun(ops: seq<Op>, n: nat, key: string, limit: int) {
    forall i :: 0 <= i < n ==> !Overruns(ops, i, key, limit)
  }

  lemma NoOverrunStep(ops: seq<Op>, n: nat, key: string, limit: int)
    ensures NoOverrun(ops, n + 1, key, limit) <==> NoOverrun(ops, n, key, limit) && !Overruns(ops, n, key, limit)
    ensures NoOverrun(ops, 0, key, limit)
  {
    hide Overruns;
  }

  lemma NoAttemptsYet(ops: seq<Op>, key: string)
    ensures AttemptsOf(ops, 0, key) == 0
  {
    assert ops[..0] == [];
  }

  /**
   Attempts stay within the limit if and only if no claim takes over a crashed worker's delivery that has reached it.
   */
  lemma {:induction false} WithinLimitExactly(ops: seq<Op>, n: nat, key: string, limit: int)
    requires n <= |ops| && limit >= 1
    requires forall m :: 0 <= m < n && ops[m].FailOp? ==> Limit(ops[m].maxAttempts) == limit
    ensures AttemptsOf(ops, n, key) <= limit <==> NoOverrun(ops, n, key, limit)
  {
    hide *;
    if n == 0 {
      NoAttemptsYet(ops, key);
      NoOverrunStep(ops, 0, key, limit);
    } else {
      WithinLimitExactly(ops, n - 1, key, limit);
      OverrunStep(ops, n - 1, key, limit);
      NoOverrunStep(ops, n - 1, key, limit);
    }
  }

  function Crashes(n: nat): seq<Op> { seq(n, i => ClaimOp("p", "d", 1, i)) }

  /** Without the allowance for crashes the bound on attempts is false: n abandoned claims make n attempts. */
  lemma {:induction false} CrashesExceedAnyLimit(n: nat)
    requires n >= 1
    ensures "p:d" in Run(Crashes(n)) && Run(Crashes(n))["p:d"].attempts == n
    ensures Run(Crashes(n))["p:d"].status.Processing? && Run(Crashes(n))["p:d"].nextAttemptAt == Some(n)
    ensures Failures(Crashes(n), n, "p:d") == 0
  {
    var ops := Crashes(n);
    assert ops[..n - 1] == Crashes(n - 1);
    assert LedgerKey("p", "d") == "p:d";
    NoFailures(ops, n);
    hide ClaimID, LedgerKey;
    if n > 1 { CrashesExceedAnyLimit(n - 1); }
    assert Run(ops) == Step(Run(Crashes(n - 1)), ops[n - 1]);
  }

  lemma {:induction false} NoFailures(ops: seq<Op>, n: nat)
    requires n <= |ops| && forall i :: 0 <= i < |ops| ==> ops[i].ClaimOp?
    ensures Failures(ops, n, "p:d") == 0
  {
    if n > 0 { NoFailures(ops, n - 1); }
  }

  // ---------------------------------------------------------------- when a delivery can be claimed

  /** The operation changed the delivery's record. */
  ghost predicate Effective(ops: seq<Op>, i: nat, key: string) {
    i < |ops| && key in Run(ops[..i + 1])
    && (key in Run(ops[..i]) ==> Run(ops[..i + 1])[key] != Run(ops[..i])[key])
  }

  /** The last of the first `n` operations that did, if any. */
  ghost function LastEffective(ops: seq<Op>, n: nat, key: string): (last: Option<nat>)
    requires n <= |ops|
    ensures last.Some? ==> last.value < n
  {
    if n == 0 then None else if Effective(ops, n - 1, key) then Some(n - 1) else LastEffective(ops, n - 1, key)
  }

  lemma {:induction false} LastEffectiveMeans(ops: seq<Op>, n: nat, key: string)
    requires n <= |ops|
    ensures var last := LastEffective(ops, n, key);
      && (last.None? <==> forall i :: 0 <= i < n ==> !Effective(ops, i, key))
      && (last.Some? ==>
            Effective(ops, last.value, key) && forall i :: last.value < i < n ==> !Effective(ops, i, key))
  {
    hide Effective;
    if n > 0 { LastEffectiveMeans(ops, n - 1, key); }
  }

  /** How many claims on the delivery were granted. */
  ghost function Grants(ops: seq<Op>, n: nat, key: string): nat
    requires n <= |ops|
  {
    if n == 0 then 0 else Grants(ops, n - 1, key) + if ops[n - 1].ClaimOp? && Effective(ops, n - 1, key) then 1 else 0
  }

  /**
   When the delivery can be claimed after an effective operation, with the claims granted until then: at the end of
   the lease, at a failure's next attempt as long as attempts are left, never after a completion or the last failure.
   */
  ghost function Gate(op: Op, granted: nat): Option<int> {
    match op
    case ClaimOp(_, _, lease, now) => Some(now + if lease > 0 then lease else 30_000_000_000)
    case CompleteOp(_) => None
    case FailOp(_, nextAttemptAt, maxAttempts, now) =>
      if granted >= (if maxAttempts > 0 then maxAttempts else 8) then None
      else Some(if nextAttemptAt.Some? then nextAttemptAt.value else now)
  }

  /** The record is what the operation makes of a delivery with so many attempts. */
  ghost predicate Shapes(op: Op, attempts: nat, record: Record) {
    && record.nextAttemptAt == Gate(op, attempts)
    && record.attempts == (if op.ClaimOp? then attempts + 1 else attempts)
    && record.status ==
      (match op
       case ClaimOp(_, _, _, _) => Processing
       case CompleteOp(_) => Processed
       case FailOp(_, _, _, _) => if Gate(op, attempts).Some? then RetryReady else Dead)
  }

  ghost function AttemptsIn(s: Records, key: string): nat { if key in s then s[key].attempts else 0 }

  ghost predicate Changes(s: Records, t: Records, key: string) { key in t && (key in s ==> t[key] != s[key]) }

  lemma StepShapes(s: Records, op: Op, key: string)
    requires key in s ==> !s[key].status.Pending?
    ensures key in s ==> key in Step(s, op)
    ensures Changes(s, Step(s, op), key) ==> Shapes(op, AttemptsIn(s, key), Step(s, op)[key])
  {
    hide Trim, ParseClaimID, LedgerKey, ClaimID;
  }

  lemma ShapedNotPending(op: Op, attempts: nat, record: Record)
    requires Shapes(op, attempts, record)
    ensures !record.status.Pending? && record.attempts == (if op.ClaimOp? then attempts + 1 else attempts)
  {
  }

  /** The record is what its last effective operation made of it, and its attempts are the claims granted. */
  ghost predicate Shaped(ops: seq<Op>, n: nat, key: string)
    requires n <= |ops|
  {
    var (s, last) := (Run(ops[..n]), LastEffective(ops, n, key));
    && AttemptsIn(s, key) == Grants(ops, n, key) && (key in s <==> last.Some?)
    && (last.Some? ==> Shapes(ops[last.value], Grants(ops, last.value, key), s[key]))
  }

  lemma NothingShaped(ops: seq<Op>, key: string)
    ensures Shaped(ops, 0, key)
  {
    assert ops[..0] == [];
  }

  lemma ShapedMeans(ops: seq<Op>, n: nat, key: string)
    requires n <= |ops| && Shaped(ops, n, key)
    ensures var s := Run(ops[..n]);
      AttemptsIn(s, key) == Grants(ops, n, key) && (key in s ==> !s[key].status.Pending?)
  {
    hide Run;
  }

  lemma ShapedMore(ops: seq<Op>, n: nat, key: string)
    requires n < |ops| && Shaped(ops, n, key)
    requires key in Run(ops[..n]) ==> key in Run(ops[..n + 1])
    requires Changes(Run(ops[..n]), Run(ops[..n + 1]), key) ==>
      Shapes(ops[n], AttemptsIn(Run(ops[..n]), key), Run(ops[..n + 1])[key])
    ensures Shaped(ops, n + 1, key)
  {
    hide Run, Shapes;
    var s, t := Run(ops[..n]), Run(ops[..n + 1]);
    assert Effective(ops, n, key) <==> Changes(s, t, key);
    if Changes(s, t, key) { ShapedNotPending(ops[n], AttemptsIn(s, key), t[key]); }
  }

  lemma {:induction false} RunShapes(ops: seq<Op>, n: nat, key: string)
    requires n <= |ops|
    ensures Shaped(ops, n, key)
  {
    hide *;
    if n == 0 {
      NothingShaped(ops, key);
    } else {
      RunShapes(ops, n - 1, key);
      ShapedMeans(ops, n - 1, key);
      RunNext(ops, n - 1);
      StepShapes(Run(ops[..n - 1]), ops[n - 1], key);
      ShapedMore(ops, n - 1, key);
    }
  }

  ghost predicate Passed(gate: Option<int>, now: int) { gate.Some? && gate.value <= now }

  lemma ShapedClaimable(op: Op, attempts: nat, record: Record, now: int)
    requires Shapes(op, attempts, record)
    ensures Claimable(record, now) <==> Passed(Gate(op, attempts), now)
  {
  }

  /**
   In every run, a claim is granted if and only if nothing took effect on its delivery yet or the gate of the last
   operation that did has passed.
   */
  lemma GrantedExactlyAfterGate(ops: seq<Op>, n: nat, providerID: string, deliveryID: string, now: int)
    requires n <= |ops|
    ensures var key := LedgerKey(providerID, deliveryID);
      var last := LastEffective(ops, n, key);
      Claimable(Found(Run(ops[..n]), providerID, deliveryID), now) <==>
        last.None? || Passed(Gate(ops[last.value], Grants(ops, last.value, key)), now)
  {
    var key := LedgerKey(providerID, deliveryID);
    RunShapes(ops, n, key);
    hide Run, LedgerKey, Trim, Gate, Shapes, Grants, LastEffective, Passed;
    var last := LastEffective(ops, n, key);
    if last.Some? {
      ShapedClaimable(ops[last.value], Grants(ops, last.value, key), Run(ops[..n])[key], now);
      hide Claimable;
    }
  }

  /** A claim in a run takes effect exactly when it is granted. */
  lemma EffectiveClaim(ops: seq<Op>, i: nat)
    requires i < |ops| && ops[i].ClaimOp?
    ensures var key := LedgerKey(ops[i].providerID, ops[i].deliveryID);
      Effective(ops, i, key) <==> Claimable(Found(Run(ops[..i]), ops[i].providerID, ops[i].deliveryID), ops[i].now)
  {
    RunNext(ops, i);
    hide Run, LedgerKey, Trim, ClaimID;
  }

  lemma {:induction false} FirstEffective(ops: seq<Op>, i: nat, j: nat, key: string) returns (k: nat)
    requires i < j < |ops| && Effective(ops, i, key) && Effective(ops, j, key)
    ensures i < k <= j && Effective(ops, k, key) && forall m :: i < m < k ==> !Effective(ops, m, key)
  {
    hide Effective;
    k := i + 1;
    while !Effective(ops, k, key)
      invariant i < k <= j && forall m :: i < m < k ==> !Effective(ops, m, key)
      decreases j - k
    {
      k := k + 1;
    }
  }

  lemma ClaimsOwnOnly(ops: seq<Op>, i: nat, key: string)
    requires Effective(ops, i, key) && ops[i].ClaimOp?
    ensures LedgerKey(ops[i].providerID, ops[i].deliveryID) == key
  {
    RunNext(ops, i);
    hide Run, LedgerKey, Trim, ClaimID, Claimable;
  }

  /** Until a granted claim is settled, no other is granted before its lease ends. */
  lemma LeaseIsExclusive(ops: seq<Op>, i: nat, j: nat, key: string)
    requires i < j < |ops| && ops[i].ClaimOp? && Effective(ops, i, key) && ops[j].ClaimOp? && Effective(ops, j, key)
    requires forall m :: i < m < j && !ops[m].ClaimOp? ==> !Effective(ops, m, key)
    requires forall a, b :: 0 <= a <= b < |ops| && ops[a].ClaimOp? && ops[b].ClaimOp? ==> ops[a].now <= ops[b].now
    ensures ops[j].now >= ops[i].now + if ops[i].lease > 0 then ops[i].lease else 30_000_000_000
  {
    hide Effective, Run, LedgerKey, Claimable, Found, Grants;
    var k := FirstEffective(ops, i, j, key);
    ClaimsOwnOnly(ops, k, key);
    EffectiveClaim(ops, k);
    GrantedExactlyAfterGate(ops, k, ops[k].providerID, ops[k].deliveryID, ops[k].now);
    LastEffectiveMeans(ops, k, key);
    assert LastEffective(ops, k, key) == Some(i);
  }

  /** Settling takes effect exactly on the latest granted attempt while nothing has settled it. */
  lemma SettledExactly(ops: seq<Op>, i: nat, providerID: string, deliveryID: string, attempt: nat)
    requires i < |ops| && !ops[i].ClaimOp? && 1 <= attempt <= MAX_INT
    requires ops[i].id == LedgerKey(providerID, deliveryID) + ":" + Itoa(attempt)
    ensures var key := LedgerKey(providerID, deliveryID);
      var last := LastEffective(ops, i, key);
      Effective(ops, i, key) <==> last.Some? && ops[last.value].ClaimOp? && Grants(ops, i, key) == attempt
  {
    var key := LedgerKey(providerID, deliveryID);
    ClaimIDRoundTrip(providerID, deliveryID, attempt);
    RunNext(ops, i);
    RunShapes(ops, i, key);
    hide Run, LedgerKey, Trim, ParseClaimID, Itoa, Grants, LastEffective;
    var s := Run(ops[..i]);
    assert Current(s, ops[i].id) <==> key in s && s[key].status.Processing? && s[key].attempts == attempt;
  }

  /** What happens to a delivery does not touch another one; providers without colons keep deliveries apart. */
  lemma DeliveriesApart(s: Records, providerA: string, deliveryA: string, lease: int, at: int,
                        providerB: string, deliveryB: string, now: int)
    requires ':' !in Trim(providerA) && ':' !in Trim(providerB)
    requires Trim(providerA) != Trim(providerB) || Trim(deliveryA) != Trim(deliveryB)
    ensures var t := Step(s, ClaimOp(providerA, deliveryA, lease, at));
      Found(t, providerB, deliveryB) == Found(s, providerB, deliveryB)
  {
    SameRecordExactly(providerA, deliveryA, providerB, deliveryB);
    hide Trim, LedgerKey, ClaimID, CutsLater;
  }

  // ---------------------------------------------------------------- the ledger

  class WebhookDeliveryLedger {
    var records: Records

    constructor ()
      ensures records == map[]
    {
      records := map[];
    }

    method Claim(providerID: string, deliveryID: string, lease: int, now: int) returns (record: Record, claimed: bool)
      modifies this
      ensures records == Step(old(records), ClaimOp(providerID, deliveryID, lease, now))
      ensures claimed <==> Claimable(Found(old(records), providerID, deliveryID), now)
      ensures LedgerKey(providerID, deliveryID) in records && record == records[LedgerKey(providerID, deliveryID)]
    {
      hide Trim, ClaimID;
      var key := LedgerKey(providerID, deliveryID);
      if key in records {
        record := records[key];
      } else {
        record := Record(Trim(providerID), Trim(deliveryID), Pending, 0, "", None);
      }
      match record.status {
        case Processed | Dead =>
          records := records[key := record];
          return record, false;
        case RetryReady | Processing =>
          if record.nextAttemptAt.Some? && now < record.nextAttemptAt.value {
            records := records[key := record];
            return record, false;
          }
        case Pending =>
      }
      record := record.(
        status := Processing, attempts := record.attempts + 1, claimID := ClaimID(key, record.attempts + 1),
        nextAttemptAt := Some(now + Lease(lease)));
      records := records[key := record];
      return record, true;
    }

    method Complete(id: string) returns (ok: bool)
      modifies this
      ensures records == Step(old(records), CompleteOp(id))
      ensures ok <==> ParseClaimID(id).Some? && KeyNamed(id) in old(records)
    {
      hide ParseClaimID;
      var parsed := ParseClaimID(id);
      if parsed.None? {
        return false;
      }
      var (key, attempt) := parsed.value;
      if key !in records {
        return false;
      }
      var record := records[key];
      if !record.status.Processing? || record.attempts != attempt {
        return true;
      }
      records := records[key := record.(status := Processed, nextAttemptAt := None)];
      return true;
    }

    method Fail(id: string, nextAttemptAt: Option<int>, maxAttempts: int, now: int) returns (ok: bool)
      modifies this
      ensures records == Step(old(records), FailOp(id, nextAttemptAt, maxAttempts, now))
      ensures ok <==> ParseClaimID(id).Some? && KeyNamed(id) in old(records)
    {
      hide ParseClaimID;
      var parsed := ParseClaimID(id);
      if parsed.None? {
        return false;
      }
      var (key, attempt) := parsed.value;
      if key !in records {
        return false;
      }
      var record := records[key];
      if !record.status.Processing? || record.attempts != attempt {
        return true;
      }
      var limit := if maxAttempts <= 0 then DEFAULT_MAX_ATTEMPTS else maxAttempts;
      if record.attempts >= limit {
        record := record.(status := Dead, nextAttemptAt := None);
      } else {
        var next := if nextAttemptAt.None? then now else nextAttemptAt.value;
        record := record.(status := RetryReady, nextAttemptAt := Some(next));
      }
      records := records[key := record];
      return true;
    }

    /** Whatever other workers do to the ledger in the meantime. */
    method Interleave(ops: seq<Op>)
      modifies this
      ensures records == Steps(old(records), ops)
    {
      hide Step;
      for i := 0 to |ops|
        invariant Steps(old(records), ops) == Steps(records, ops[i..])
      {
        ghost var before := records;
        match ops[i] {
          case ClaimOp(providerID, deliveryID, lease, now) =>
            var _, _ := Claim(providerID, deliveryID, lease, now);
          case CompleteOp(id) =>
            var _ := Complete(id);
          case FailOp(id, nextAttemptAt, maxAttempts, now) =>
            var _ := Fail(id, nextAttemptAt, maxAttempts, now);
        }
        assert records == Step(before, ops[i]);
        assert ops[i..][1..] == ops[i + 1..];
      }
    }
  }

  // ---------------------------------------------------------------- the processor

  /** The claim id that a claim hands out can settle that record and no other. */
  lemma ClaimNamesOwnRecord(s: Records, providerID: string, deliveryID: string, lease: int, now: int)
    ensures var key, before := LedgerKey(providerID, deliveryID), Found(s, providerID, deliveryID);
      var t := Step(s, ClaimOp(providerID, deliveryID, lease, now));
      && key in t && t - {key} == s - {key}
      && (if Claimable(before, now) then
            && t[key].attempts == before.attempts + 1 && t[key].status.Processing?
            && Names(t[key].claimID, key, t[key].attempts)
            && (before.attempts < MAX_INT ==> Current(t, t[key].claimID))
          else t[key] == before)
  {
    ClaimIDRoundTrip(providerID, deliveryID, Found(s, providerID, deliveryID).attempts + 1);
    hide Trim, ParseClaimID, ClaimID, LedgerKey;
  }

  /** The id is that of this attempt at this delivery; one past the largest attempt number cannot be read back. */
  predicate Names(id: string, key: string, attempt: nat) {
    ParseClaimID(id) == if attempt <= MAX_INT then Some((key, attempt)) else None
  }

  lemma TrimmedProvider(s: Records, providerID: string, deliveryID: string)
    ensures LedgerKey(Trim(providerID), deliveryID) == LedgerKey(providerID, deliveryID)
    ensures Found(s, Trim(providerID), deliveryID) == Found(s, providerID, deliveryID)
  {
    TrimIdempotent(providerID);
    hide Trim;
  }

  datatype Handling = HandlerError | Handled(accepted: bool, statusCode: int)
  datatype Outcome = BadRequest | Unverified | NoDeliveryID | Deduped | BurstFailed | Suppressed | Retrying | Finished
  datatype BurstVerdict = NoBurstControl | BurstError | Allowed | Refused

  /** The exponential policy, with zero for its defaults, or one of the caller's. */
  datatype RetryPolicy = Exponential(initial: int, maximum: int) | Custom(next: nat -> int)

  function NextDelay(policy: RetryPolicy, attempt: nat): int
    requires attempt >= 1
  {
    match policy
    case Exponential(initial, maximum) =>
      Backoff.Delay(if initial > 0 then initial else 1_000_000_000, if maximum > 0 then maximum else 30_000_000_000,
                    attempt)
    case Custom(next) => next(attempt)
  }

  class Processor {
    const ledger: WebhookDeliveryLedger
    const retryPolicy: RetryPolicy
    const allowAcceptedServerErrors: bool
    const claimLease: int
    const maxAttempts: int

    constructor (ledger: WebhookDeliveryLedger, retryPolicy: RetryPolicy, allowAcceptedServerErrors: bool,
                 claimLease: int, maxAttempts: int)
      ensures this.ledger == ledger && this.retryPolicy == retryPolicy
      ensures this.allowAcceptedServerErrors == allowAcceptedServerErrors
      ensures this.claimLease == claimLease && this.maxAttempts == maxAttempts
    {
      this.ledger, this.retryPolicy := ledger, retryPolicy;
      this.allowAcceptedServerErrors := allowAcceptedServerErrors;
      this.claimLease, this.maxAttempts := claimLease, maxAttempts;
    }

    predicate Reaches(providerID: string, verified: bool, deliveryID: Option<string>) {
      Trim(providerID) != "" && verified && deliveryID.Some?
    }

    /** How a claimed record ends up: the handler's answer and the attempt number alone decide. */
    predicate Ends(before: Record, after: Record, handled: bool, handling: Handling, settleAt: int)
      requires before.attempts >= 1
    {
      && after.attempts == before.attempts
      && after.status ==
        (if !handled
           || (handling.Handled? && handling.accepted && (handling.statusCode < 500 || allowAcceptedServerErrors))
         then Processed
         else if after.attempts >= (if maxAttempts > 0 then maxAttempts else 8) then Dead
         else RetryReady)
      && (after.status.RetryReady? ==>
            after.nextAttemptAt == Some(settleAt + NextDelay(retryPolicy, after.attempts)))
    }

    /**
     Settling an attempt at a delivery in whatever state the ledger has come to: a worker whose attempt is no longer
     the current one changes nothing, and nor does one stopped by an error of burst control.
     */
    predicate Settles(
      mid: Records, final: Records, id: string, key: string, burst: BurstVerdict, handled: bool, handling: Handling,
      settleAt: int)
    {
      if burst.BurstError? || !Current(mid, id) then final == mid
      else
        && key in mid && mid[key].attempts >= 1 && final.Keys == mid.Keys && final - {key} == mid - {key}
        && Ends(mid[key], final[key], handled, handling, settleAt)
    }

    method RetryDelay(attempt: nat) returns (delay: int)
      ensures attempt >= 1 ==> delay == NextDelay(retryPolicy, attempt)
    {
      match retryPolicy
      case Exponential(initial, maximum) => delay := Backoff.WebhookDelay(initial, maximum, attempt);
      case Custom(next) => return next(attempt);
    }

    /** What follows an accepted claim: burst control, the handler, what others do meanwhile, and settling the claim. */
    method HandleClaimed(
      delivery: Record, ghost key: string, burst: BurstVerdict, handling: Handling, between: seq<Op>, settleAt: int)
      returns (outcome: Outcome, handled: bool)
      requires delivery.attempts >= 1 && Names(delivery.claimID, key, delivery.attempts)
      modifies ledger
      ensures handled <==> burst.NoBurstControl? || burst.Allowed?
      ensures !outcome.Deduped?
      ensures Settles(Steps(old(ledger.records), between), ledger.records, delivery.claimID, key, burst, handled,
                      handling, settleAt)
    {
      hide ParseClaimID, Claimed, NextDelay, Steps;
      ledger.Interleave(between);
      if burst.BurstError? {
        return BurstFailed, false;
      }
      if burst.Refused? {
        var _ := ledger.Complete(delivery.claimID);
        return Suppressed, false;
      }
      var succeeded :=
        handling.Handled? && handling.accepted && (handling.statusCode < 500 || allowAcceptedServerErrors);
      if !succeeded {
        var delay := RetryDelay(delivery.attempts);
        var _ := ledger.Fail(
          delivery.claimID, Some(settleAt + delay), if maxAttempts > 0 then maxAttempts else DEFAULT_MAX_ATTEMPTS,
          settleAt);
        return Retrying, true;
      }
      var _ := ledger.Complete(delivery.claimID);
      return Finished, true;
    }

    /**
     One delivery, with anything that other workers do to the ledger in between: the handler runs exactly on a fresh
     claim that burst control lets through, and the record it leaves is decided by the handler's answer and the
     attempt number alone.
     */
    method Process(
      providerID: string, verified: bool, deliveryID: Option<string>, burst: BurstVerdict, handling: Handling,
      between: seq<Op>, claimAt: int, settleAt: int)
      returns (outcome: Outcome, handled: bool)
      modifies ledger
      ensures !Reaches(providerID, verified, deliveryID) ==> ledger.records == old(ledger.records) && !handled
      ensures Reaches(providerID, verified, deliveryID) ==>
        var key := LedgerKey(providerID, deliveryID.value);
        var before := Found(old(ledger.records), providerID, deliveryID.value);
        var claimed := Claimable(before, claimAt);
        var taken := Step(old(ledger.records), ClaimOp(Trim(providerID), deliveryID.value, Lease(claimLease), claimAt));
        && key in taken && taken - {key} == old(ledger.records) - {key}
        && (outcome.Deduped? <==> !claimed)
        && (handled <==> claimed && (burst.NoBurstControl? || burst.Allowed?))
        && (!claimed ==> ledger.records == taken && taken[key] == before)
        && (claimed ==>
              && taken[key].status.Processing? && taken[key].attempts == before.attempts + 1
              && (before.attempts < MAX_INT ==> Current(taken, taken[key].claimID))
              && Settles(Steps(taken, between), ledger.records, taken[key].claimID, key, burst, handled, handling,
                         settleAt))
    {
      var provider := Trim(providerID);
      if provider == "" {
        return BadRequest, false;
      }
      if !verified {
        return Unverified, false;
      }
      if deliveryID.None? {
        return NoDeliveryID, false;
      }
      hide Trim, ParseClaimID, Found, LedgerKey, Step, Current, Claimable, NextDelay, Settles, Names;
      ghost var key := LedgerKey(providerID, deliveryID.value);
      var lease := if claimLease > 0 then claimLease else DEFAULT_LEASE;
      TrimmedProvider(ledger.records, providerID, deliveryID.value);
      ClaimNamesOwnRecord(ledger.records, provider, deliveryID.value, lease, claimAt);
      var delivery, claimed := ledger.Claim(provider, deliveryID.value, lease, claimAt);
      if !claimed {
        return Deduped, false;
      }
      outcome, handled := HandleClaimed(delivery, key, burst, handling, between, settleAt);
    }
  }
}
