/**
 Executing a provider operation: a retry loop with many exits, each attempt gated by the adaptive rate limiter of
 its bucket. What the world does to an attempt (clocks, store and transport failures, the caller's own retry
 verdict) is an `Environment`; every theorem is for all of them.
 */
module ProviderRuntime {
  import opened Text
  import Backoff
  import RateLimit

  // ---------------------------------------------------------------- policy

  /** `custom` says that the caller supplies its own retry verdict. */
  datatype RetryPolicy = RetryPolicy(
    maxAttempts: int, initialBackoff: int, maxBackoff: int, retryable: seq<int>, custom: bool)

  const DEFAULT_RETRYABLE := [429, 500, 502, 503, 504]

  predicate Normal(p: RetryPolicy) {
    p.maxAttempts >= 1 && 0 < p.initialBackoff <= p.maxBackoff && p.retryable != []
  }

  function NormalPolicy(p: RetryPolicy): (r: RetryPolicy)
    ensures Normal(r) && r.custom == p.custom
    ensures Normal(p) ==> r == p
  {
    var initial := Backoff.OrDefault(p.initialBackoff, 200 * Backoff.MILLISECOND);
    RetryPolicy(
      if p.maxAttempts <= 0 then 1 else p.maxAttempts,
      initial,
      Backoff.Max(Backoff.OrDefault(p.maxBackoff, 5 * Backoff.SECOND), initial),
      if p.retryable == [] then DEFAULT_RETRYABLE else p.retryable,
      p.custom)
  }

  // ---------------------------------------------------------------- one attempt

  /** What the transport answers: an error, a response the normaliser rejects, or normalised metadata. */
  datatype Reply = CallError(cancelled: bool) | Garbled(status: int) | Reply(meta: RateLimit.Response)

  /** What happens to one attempt; `verdict` is the answer of the caller's own retry function, if it has one. */
  datatype Environment = Environment(
    beforeAt: int, getFails: bool, getCancelled: bool,
    signFails: bool,
    callAt: int, reply: Reply,
    afterAt: int, store: Fault, storeCancelled: bool,
    verdict: (bool, int), sleepFails: bool)

  /** `bucket` is the rate-limit key, absent when rate limiting does not apply to the request. */
  datatype Request = Request(
    explicitKey: string, transportKey: string, generatedKey: string, signs: bool, bucket: Option<RateLimit.Key>,
    retry: RetryPolicy)

  /** The caller's key, else the transport request's, else the generated one. */
  function IdempotencyKey(req: Request): string {
    if Trim(req.explicitKey) != "" then Trim(req.explicitKey)
    else if Trim(req.transportKey) != "" then Trim(req.transportKey)
    else req.generatedKey
  }

  datatype Outcome =
    | Refused(cancelled: bool)
    | SignFailed
    | CallFailed(cancelled: bool)
    | Unreadable(status: int)
    | Unrecorded(meta: RateLimit.Response, cancelled: bool)
    | Answered(meta: RateLimit.Response)

  datatype Sent = Sent(at: int, idempotencyKey: string)

  /** One turn of the loop: the bucket it found, what became of it, what it sent and how long it then slept. */
  datatype Turn = Turn(
    bucket: Option<RateLimit.State>, outcome: Outcome, sent: Option<Sent>, slept: Option<int>)

  predicate Closed(bucket: Option<RateLimit.State>, at: int) { bucket.Some? && RateLimit.Refuses(bucket.value, at) }

  /** How the outcome of a turn follows from what the world did. */
  predicate Explains(req: Request, e: Environment, bucket: Option<RateLimit.State>, outcome: Outcome) {
    var limited := req.bucket.Some?;
    var refused := limited && (e.getFails || Closed(bucket, e.beforeAt));
    var unsigned := req.signs && e.signFails;
    match outcome
    case Refused(c) => refused && c == (e.getFails && e.getCancelled)
    case SignFailed => !refused && unsigned
    case CallFailed(c) => !refused && !unsigned && e.reply == CallError(c)
    case Unreadable(s) => !refused && !unsigned && e.reply == Garbled(s)
    case Unrecorded(meta, c) =>
      !refused && !unsigned && e.reply == Reply(meta) && limited && !e.store.Fine? && c == e.storeCancelled
    case Answered(meta) => !refused && !unsigned && e.reply == Reply(meta) && (limited ==> e.store.Fine?)
  }

  /** A request leaves exactly when the attempt was neither refused nor unsigned. */
  function SentBy(req: Request, e: Environment, outcome: Outcome): Option<Sent> {
    if outcome.Refused? || outcome.SignFailed? then None else Some(Sent(e.callAt, IdempotencyKey(req)))
  }

  /** The limiter recorded a response, whether or not it could say so. */
  predicate Records(req: Request, e: Environment, outcome: Outcome) {
    req.bucket.Some? && (outcome.Answered? || (outcome.Unrecorded? && e.store.FailsWritten?))
  }

  /** The bucket after a turn: a recorded response changes it, and nothing else does. */
  function BucketAfter(limits: RateLimit.Policy, req: Request, e: Environment, bucket: Option<RateLimit.State>,
                       outcome: Outcome): Option<RateLimit.State> {
    if Records(req, e, outcome)
    then Some(RateLimit.Observed(limits, RateLimit.OrFresh(bucket), outcome.meta, e.afterAt))
    else bucket
  }

  // ---------------------------------------------------------------- retrying

  function Hint(outcome: Outcome): Option<int> {
    if outcome.Unrecorded? || outcome.Answered? then outcome.meta.hint else None
  }

  /** Whether the loop goes round again after the given attempt. */
  predicate Retries(p: RetryPolicy, attempt: nat, outcome: Outcome, verdict: (bool, int)) {
    && attempt < p.maxAttempts
    && !outcome.SignFailed? && !outcome.Unreadable?
    && if p.custom then verdict.0
       else if outcome.Answered? then outcome.meta.status in p.retryable
       else !outcome.cancelled
  }

  /** A custom verdict's positive delay comes first, then the response's hint, then the capped doubling. */
  function Wait(p: RetryPolicy, attempt: nat, outcome: Outcome, verdict: (bool, int)): (delay: int)
    requires Normal(p) && attempt >= 1
    ensures delay > 0
  {
    if p.custom && verdict.1 > 0 then verdict.1
    else if Hint(outcome).Some? && Hint(outcome).value > 0 then Hint(outcome).value
    else
      Backoff.DelayMonotone(p.initialBackoff, p.maxBackoff, attempt, attempt);
      Backoff.Delay(p.initialBackoff, p.maxBackoff, attempt)
  }

  method ShouldRetry(p: RetryPolicy, attempt: nat, outcome: Outcome, verdict: (bool, int))
    returns (retry: bool, delay: int)
    requires Normal(p) && attempt >= 1 && !outcome.SignFailed? && !outcome.Unreadable?
    ensures retry <==> Retries(p, attempt, outcome, verdict)
    ensures delay == if retry then Wait(p, attempt, outcome, verdict) else 0
  {
    if attempt >= p.maxAttempts {
      return false, 0;
    }
    if p.custom {
      retry, delay := verdict.0, verdict.1;
      if !retry {
        return false, 0;
      }
      if delay <= 0 {
        delay := Backoff.OperationDelay(p.initialBackoff, p.maxBackoff, attempt, Hint(outcome));
      }
      return true, delay;
    }
    if !outcome.Answered? {
      if outcome.cancelled {
        return false, 0;
      }
      delay := Backoff.OperationDelay(p.initialBackoff, p.maxBackoff, attempt, Hint(outcome));
      return true, delay;
    }
    if outcome.meta.status in p.retryable {
      delay := Backoff.OperationDelay(p.initialBackoff, p.maxBackoff, attempt, Hint(outcome));
      return true, delay;
    }
    return false, 0;
  }

  // ---------------------------------------------------------------- whole runs

  datatype Error =
    | NoError
    | SleepFailed
    | OperationError(attempt: nat, maxAttempts: nat, status: int, retryable: bool)

  /** The error that ends the loop at this outcome. */
  function Ending(p: RetryPolicy, attempt: nat, outcome: Outcome): (err: Error)
    requires Normal(p)
    ensures err.NoError? <==> outcome.Answered? && outcome.meta.status < 400
  {
    match outcome
    case Refused(_) => OperationError(attempt, p.maxAttempts, 0, true)
    case SignFailed => OperationError(attempt, p.maxAttempts, 0, false)
    case CallFailed(_) => OperationError(attempt, p.maxAttempts, 0, true)
    case Unreadable(status) => OperationError(attempt, p.maxAttempts, status, false)
    case Unrecorded(meta, _) => OperationError(attempt, p.maxAttempts, meta.status, true)
    case Answered(meta) =>
      if meta.status >= 400 then OperationError(attempt, p.maxAttempts, meta.status, false) else NoError
  }

  function LastMeta(turns: seq<Turn>): Option<RateLimit.Response> {
    if turns == [] then None
    else
      var outcome := turns[|turns| - 1].outcome;
      if outcome.Unrecorded? || outcome.Answered? then Some(outcome.meta) else LastMeta(turns[..|turns| - 1])
  }

  datatype Result = Result(idempotencyKey: string, attempts: nat, retried: bool, meta: Option<RateLimit.Response>)

  type World = nat -> Environment

  /** Turn i is explained by its environment and hands its bucket to the next turn, the last one to `final`. */
  predicate TurnFits(limits: RateLimit.Policy, req: Request, world: World, turns: seq<Turn>,
                     final: Option<RateLimit.State>, i: nat)
    requires i < |turns|
  {
    && Explains(req, world(i + 1), turns[i].bucket, turns[i].outcome)
    && turns[i].sent == SentBy(req, world(i + 1), turns[i].outcome)
    && BucketAfter(limits, req, world(i + 1), turns[i].bucket, turns[i].outcome)
         == (if i + 1 < |turns| then turns[i + 1].bucket else final)
  }

  /** Turn i was followed by a retry: the rules asked for one and its sleep succeeded. */
  predicate Retried(p: RetryPolicy, world: World, turns: seq<Turn>, i: nat)
    requires i < |turns| && Normal(p)
  {
    var e := world(i + 1);
    && Retries(p, i + 1, turns[i].outcome, e.verdict)
    && turns[i].slept == Some(Wait(p, i + 1, turns[i].outcome, e.verdict))
    && !e.sleepFails
  }

  /** The last turn ended the loop, and `err` says why. */
  predicate Ended(p: RetryPolicy, world: World, turns: seq<Turn>, err: Error)
    requires turns != [] && Normal(p)
  {
    var n := |turns|;
    var (e, last) := (world(n), turns[n - 1]);
    if Retries(p, n, last.outcome, e.verdict)
    then e.sleepFails && err == SleepFailed && last.slept == Some(Wait(p, n, last.outcome, e.verdict))
    else err == Ending(p, n, last.outcome) && last.slept == None
  }

  /** The clock does not run backwards between the gate and the call it lets through. */
  ghost predicate ClockForward(world: World) { forall n: nat :: world(n).beforeAt <= world(n).callAt }

  ghost predicate AllFit(limits: RateLimit.Policy, req: Request, world: World, turns: seq<Turn>,
                         final: Option<RateLimit.State>) {
    forall i :: 0 <= i < |turns| ==> TurnFits(limits, req, world, turns, final, i)
  }

  ghost predicate AllRetried(p: RetryPolicy, world: World, turns: seq<Turn>, n: nat)
    requires Normal(p) && n <= |turns|
  {
    forall i :: 0 <= i < n ==> Retried(p, world, turns, i)
  }

  lemma NothingYet(limits: RateLimit.Policy, req: Request, world: World, p: RetryPolicy, final: Option<RateLimit.State>)
    requires Normal(p)
    ensures AllFit(limits, req, world, [], final) && AllRetried(p, world, [], 0) && LastMeta([]) == None
  {
  }

  /** Another turn that starts from the bucket the others left extends the run. */
  lemma FitsExtend(limits: RateLimit.Policy, req: Request, world: World, turns: seq<Turn>, turn: Turn,
                   final: Option<RateLimit.State>)
    requires AllFit(limits, req, world, turns, turn.bucket)
    requires var e := world(|turns| + 1);
      && Explains(req, e, turn.bucket, turn.outcome)
      && turn.sent == SentBy(req, e, turn.outcome)
      && BucketAfter(limits, req, e, turn.bucket, turn.outcome) == final
    ensures AllFit(limits, req, world, turns + [turn], final)
  {
    hide Explains, SentBy, BucketAfter;
    forall i | 0 <= i < |turns| ensures TurnFits(limits, req, world, turns + [turn], final, i) {
      assert TurnFits(limits, req, world, turns, turn.bucket, i);
    }
  }

  lemma RetriedExtend(p: RetryPolicy, world: World, turns: seq<Turn>, turn: Turn)
    requires Normal(p) && AllRetried(p, world, turns, |turns|)
    ensures AllRetried(p, world, turns + [turn], |turns|)
    ensures Retried(p, world, turns + [turn], |turns|) ==> AllRetried(p, world, turns + [turn], |turns| + 1)
    ensures LastMeta(turns + [turn]) ==
      if turn.outcome.Unrecorded? || turn.outcome.Answered? then Some(turn.outcome.meta) else LastMeta(turns)
  {
    hide Retries, Wait;
    assert (turns + [turn])[..|turns|] == turns;
    forall i | 0 <= i < |turns| ensures Retried(p, world, turns + [turn], i) {
      assert Retried(p, world, turns, i);
    }
  }

  /** No call starts while its bucket is throttled. */
  lemma GateHolds(limits: RateLimit.Policy, req: Request, world: World, turns: seq<Turn>,
                  final: Option<RateLimit.State>)
    requires AllFit(limits, req, world, turns, final) && ClockForward(world) && req.bucket.Some?
    ensures forall i :: 0 <= i < |turns| && turns[i].sent.Some? ==> !Closed(turns[i].bucket, turns[i].sent.value.at)
  {
    forall i | 0 <= i < |turns| && turns[i].sent.Some? ensures !Closed(turns[i].bucket, turns[i].sent.value.at) {
      assert TurnFits(limits, req, world, turns, final, i);
      assert world(i + 1).beforeAt <= world(i + 1).callAt;
    }
  }

  /** Every call of a run carries the one key, and none follows a refusal of its own turn. */
  lemma OneKeyPerRun(limits: RateLimit.Policy, req: Request, world: World, turns: seq<Turn>,
                     final: Option<RateLimit.State>)
    requires AllFit(limits, req, world, turns, final)
    ensures forall i :: 0 <= i < |turns| && turns[i].sent.Some? ==>
      && turns[i].sent.value.idempotencyKey ==
        (if Trim(req.explicitKey) != "" then Trim(req.explicitKey)
         else if Trim(req.transportKey) != "" then Trim(req.transportKey) else req.generatedKey)
      && (req.bucket.Some? ==> !world(i + 1).getFails && !Closed(turns[i].bucket, world(i + 1).beforeAt))
  {
    hide Trim, RateLimit.Refuses, RateLimit.Observed;
    forall i | 0 <= i < |turns| && turns[i].sent.Some?
      ensures turns[i].sent.value.idempotencyKey == IdempotencyKey(req)
      ensures req.bucket.Some? ==> !world(i + 1).getFails && !Closed(turns[i].bucket, world(i + 1).beforeAt)
    {
      assert TurnFits(limits, req, world, turns, final, i);
    }
  }

  /**
   A run ends without an error exactly when its last reply has a status below 400, reached the caller through an
   open gate, was recorded by the limiter, and asks for no retry.
   */
  lemma SuccessMeans(limits: RateLimit.Policy, req: Request, world: World, turns: seq<Turn>,
                     final: Option<RateLimit.State>, p: RetryPolicy, err: Error)
    requires Normal(p) && turns != [] && AllFit(limits, req, world, turns, final) && Ended(p, world, turns, err)
    ensures var (e, last) := (world(|turns|), turns[|turns| - 1]);
      err.NoError? <==>
        && e.reply.Reply? && e.reply.meta.status < 400
        && (req.signs ==> !e.signFails)
        && (req.bucket.Some? ==> !e.getFails && !Closed(last.bucket, e.beforeAt) && e.store.Fine?)
        && !(|turns| < p.maxAttempts && if p.custom then e.verdict.0 else e.reply.meta.status in p.retryable)
    ensures err.NoError? && req.bucket.Some? ==>
      var (e, last) := (world(|turns|), turns[|turns| - 1]);
      final == Some(RateLimit.Observed(limits, RateLimit.OrFresh(last.bucket), e.reply.meta, e.afterAt))
  {
    hide RateLimit.Refuses, RateLimit.Observed, Wait, IdempotencyKey;
    assert TurnFits(limits, req, world, turns, final, |turns| - 1);
  }

  /** What the retry rules say, on the policy as the caller gave it, the attempt's number and what the world did. */
  ghost predicate GoesRound(retry: RetryPolicy, attempt: nat, outcome: Outcome, e: Environment) {
    && attempt < (if retry.maxAttempts > 0 then retry.maxAttempts else 1)
    && match outcome
       case SignFailed => false
       case Unreadable(_) => false
       case Refused(cancelled) => if retry.custom then e.verdict.0 else !cancelled
       case CallFailed(cancelled) => if retry.custom then e.verdict.0 else !cancelled
       case Unrecorded(_, cancelled) => if retry.custom then e.verdict.0 else !cancelled
       case Answered(meta) =>
         if retry.custom then e.verdict.0
         else meta.status in (if retry.retryable == [] then [429, 500, 502, 503, 504] else retry.retryable)
  }

  /** How long the loop then sleeps: the caller's delay, the response's hint, or the doubling delay. */
  ghost function Sleep(retry: RetryPolicy, attempt: nat, outcome: Outcome, e: Environment): int
    requires attempt >= 1
  {
    var initial := if retry.initialBackoff > 0 then retry.initialBackoff else 200_000_000;
    var maximum := if retry.maxBackoff > 0 then retry.maxBackoff else 5_000_000_000;
    if retry.custom && e.verdict.1 > 0 then e.verdict.1
    else if (outcome.Unrecorded? || outcome.Answered?) && outcome.meta.hint.Some? && outcome.meta.hint.value > 0
    then outcome.meta.hint.value
    else Backoff.Delay(initial, if maximum < initial then initial else maximum, attempt)
  }

  lemma RetryRules(retry: RetryPolicy, attempt: nat, outcome: Outcome, e: Environment)
    requires attempt >= 1
    ensures Retries(NormalPolicy(retry), attempt, outcome, e.verdict) <==> GoesRound(retry, attempt, outcome, e)
    ensures Wait(NormalPolicy(retry), attempt, outcome, e.verdict) == Sleep(retry, attempt, outcome, e)
    ensures NormalPolicy(retry).maxAttempts == if retry.maxAttempts > 0 then retry.maxAttempts else 1
  {
    hide Backoff.Delay;
  }

  /** What a failed operation tells its caller. */
  ghost predicate Tells(retry: RetryPolicy, turns: seq<Turn>, err: Error)
    requires turns != []
  {
    var outcome := turns[|turns| - 1].outcome;
    && err.OperationError? && err.attempt == |turns|
    && err.maxAttempts == (if retry.maxAttempts > 0 then retry.maxAttempts else 1)
    && err.status ==
      (match outcome
       case Unreadable(status) => status
       case Unrecorded(meta, _) => meta.status
       case Answered(meta) => meta.status
       case _ => 0)
    && (err.retryable <==> outcome.Refused? || outcome.CallFailed? || outcome.Unrecorded?)
  }

  /**
   A whole run on the caller's own policy: every turn but the last asked for another and slept as long as the rules
   say; the last asked for none, or its sleep failed. Its error names the attempt, the status and whether to retry.
   */
  lemma RunFollowsRules(retry: RetryPolicy, world: World, turns: seq<Turn>, err: Error)
    requires var p := NormalPolicy(retry);
      turns != [] && AllRetried(p, world, turns, |turns| - 1) && Ended(p, world, turns, err)
    ensures forall i :: 0 <= i < |turns| - 1 ==>
      && GoesRound(retry, i + 1, turns[i].outcome, world(i + 1)) && !world(i + 1).sleepFails
      && turns[i].slept == Some(Sleep(retry, i + 1, turns[i].outcome, world(i + 1)))
    ensures var (n, e, last) := (|turns|, world(|turns|), turns[|turns| - 1]);
      if GoesRound(retry, n, last.outcome, e)
      then e.sleepFails && err == SleepFailed && last.slept == Some(Sleep(retry, n, last.outcome, e))
      else if last.outcome.Answered? && last.outcome.meta.status < 400
      then last.slept == None && err == NoError
      else last.slept == None && Tells(retry, turns, err)
  {
    hide Retries, Wait, NormalPolicy, GoesRound, Sleep;
    forall i | 0 <= i < |turns| - 1
      ensures GoesRound(retry, i + 1, turns[i].outcome, world(i + 1)) && !world(i + 1).sleepFails
        && turns[i].slept == Some(Sleep(retry, i + 1, turns[i].outcome, world(i + 1)))
    {
      assert Retried(NormalPolicy(retry), world, turns, i);
      RetryRules(retry, i + 1, turns[i].outcome, world(i + 1));
    }
    RetryRules(retry, |turns|, turns[|turns| - 1].outcome, world(|turns|));
  }

  ghost predicate NoneRecordedBetween(req: Request, world: World, turns: seq<Turn>, i: nat, j: nat) {
    forall k :: i < k < j < |turns| ==> !Records(req, world(k + 1), turns[k].outcome)
  }

  lemma {:induction false} BucketCarries(limits: RateLimit.Policy, req: Request, world: World, turns: seq<Turn>,
                                         final: Option<RateLimit.State>, i: nat, j: nat)
    requires i < j < |turns| && AllFit(limits, req, world, turns, final) && NoneRecordedBetween(req, world, turns, i, j)
    ensures turns[j].bucket == BucketAfter(limits, req, world(i + 1), turns[i].bucket, turns[i].outcome)
  {
    hide RateLimit.Observed, Explains, SentBy;
    assert TurnFits(limits, req, world, turns, final, j - 1);
    if i < j - 1 {
      BucketCarries(limits, req, world, turns, final, i, j - 1);
    }
  }

  /** Within a run, the next call after a recorded response starts only once that response's throttling is over. */
  lemma CallsWaitOutThrottling(limits: RateLimit.Policy, req: Request, world: World, turns: seq<Turn>,
                               final: Option<RateLimit.State>, i: nat, j: nat)
    requires i < j < |turns| && AllFit(limits, req, world, turns, final) && NoneRecordedBetween(req, world, turns, i, j)
    requires ClockForward(world) && Records(req, world(i + 1), turns[i].outcome) && turns[j].sent.Some?
    ensures var (e, meta, found) := (world(i + 1), turns[i].outcome.meta, turns[i].bucket);
      var left := if meta.remaining.Some? then meta.remaining.value
                  else if found.Some? then found.value.remaining else 0;
      var n := if found.Some? then found.value.attempts + 1 else 1;
      && (RateLimit.Closes(meta, left, e.afterAt) ==>
            turns[j].sent.value.at >= e.afterAt + RateLimit.Closure(limits, meta, e.afterAt, n))
      && (left == 0 && meta.resetAt.Some? ==> turns[j].sent.value.at >= meta.resetAt.value)
  {
    BucketCarries(limits, req, world, turns, final, i, j);
    GateHolds(limits, req, world, turns, final);
    RateLimit.ThrottledExactly(limits, RateLimit.OrFresh(turns[i].bucket), turns[i].outcome.meta, world(i + 1).afterAt);
    hide RateLimit.Observed, RateLimit.Closure, RateLimit.Closes;
  }

  class Runtime {
    const limiter: RateLimit.AdaptivePolicy

    constructor (limiter: RateLimit.AdaptivePolicy)
      ensures this.limiter == limiter
    {
      this.limiter := limiter;
    }

    /** The bucket of a request; a request without rate limiting has none. */
    function Bucket(req: Request): Option<RateLimit.State>
      reads limiter`items
    {
      if req.bucket.Some? then limiter.Bucket(req.bucket.value) else None
    }

    /** The buckets of other requests. */
    function Others(req: Request): map<string, RateLimit.State>
      reads limiter`items
    {
      if req.bucket.Some? then limiter.items - {limiter.Slot(req.bucket.value)} else limiter.items
    }

    method Attempt(req: Request, e: Environment) returns (outcome: Outcome, sent: Option<Sent>)
      requires limiter.Valid()
      modifies limiter
      ensures limiter.Valid() && Others(req) == old(Others(req))
      ensures Explains(req, e, old(Bucket(req)), outcome) && sent == SentBy(req, e, outcome)
      ensures Bucket(req) == BucketAfter(limiter.policy, req, e, old(Bucket(req)), outcome)
    {
      hide RateLimit.Observed, RateLimit.Refuses, IdempotencyKey, limiter.Slot, limiter.Valid;
      if req.bucket.Some? {
        var verdict := limiter.BeforeCall(req.bucket.value, e.beforeAt, e.getFails);
        if !verdict.Allowed? {
          return Refused(e.getFails && e.getCancelled), None;
        }
      }
      if req.signs && e.signFails {
        return SignFailed, None;
      }
      sent := Some(Sent(e.callAt, IdempotencyKey(req)));
      match e.reply
      case CallError(cancelled) =>
        outcome := CallFailed(cancelled);
      case Garbled(status) =>
        outcome := Unreadable(status);
      case Reply(meta) =>
        outcome := Answered(meta);
        if req.bucket.Some? {
          var ok := limiter.AfterCall(req.bucket.value, meta, e.afterAt, e.store);
          if !ok {
            outcome := Unrecorded(meta, e.storeCancelled);
          }
        }
    }

    /**
     Every run makes between one and MaxAttempts attempts, each sending at most once and always under the same
     idempotency key, never past a gate that refused; it goes round exactly when the rules ask for it, and returns
     no error exactly when the last status is below 400, was recorded and asks for no retry.
     */
    method Execute(req: Request, world: World) returns (result: Result, err: Error, turns: seq<Turn>)
      requires limiter.Valid()
      modifies limiter
      ensures limiter.Valid() && Others(req) == old(Others(req))
      ensures 1 <= result.attempts == |turns| <= NormalPolicy(req.retry).maxAttempts
      ensures result.idempotencyKey == IdempotencyKey(req) && result.meta == LastMeta(turns)
      ensures result.retried <==> |turns| > 1 || err.SleepFailed?
      ensures turns[0].bucket == old(Bucket(req))
      ensures AllFit(limiter.policy, req, world, turns, Bucket(req))
      ensures AllRetried(NormalPolicy(req.retry), world, turns, |turns| - 1)
      ensures Ended(NormalPolicy(req.retry), world, turns, err)
    {
      hide Explains, SentBy, BucketAfter, IdempotencyKey, Wait, AllFit, AllRetried, LastMeta, limiter.Valid;
      var p := NormalPolicy(req.retry);
      result := Result(IdempotencyKey(req), 0, false, None);
      turns := [];
      NothingYet(limiter.policy, req, world, p, Bucket(req));
      var attempt := 1;
      while attempt <= p.maxAttempts
        invariant limiter.Valid() && Others(req) == old(Others(req))
        invariant 1 <= attempt <= p.maxAttempts && |turns| == attempt - 1
        invariant result == Result(IdempotencyKey(req), |turns|, |turns| > 0, LastMeta(turns))
        invariant (if turns == [] then Bucket(req) else turns[0].bucket) == old(Bucket(req))
        invariant AllFit(limiter.policy, req, world, turns, Bucket(req)) && AllRetried(p, world, turns, |turns|)
      {
        var e, found := world(attempt), Bucket(req);
        var outcome, sent := Attempt(req, e);
        result := result.(attempts := attempt);
        if outcome.Unrecorded? || outcome.Answered? {
          result := result.(meta := Some(outcome.meta));
        }
        var retry, delay := false, 0;
        if !outcome.SignFailed? && !outcome.Unreadable? {
          retry, delay := ShouldRetry(p, attempt, outcome, e.verdict);
        }
        var turn := Turn(found, outcome, sent, if retry then Some(delay) else None);
        FitsExtend(limiter.policy, req, world, turns, turn, Bucket(req));
        RetriedExtend(p, world, turns, turn);
        turns := turns + [turn];
        if !retry {
          err := Ending(p, attempt, outcome);
          return;
        }
        result := result.(retried := true);
        if e.sleepFails {
          err := SleepFailed;
          return;
        }
        attempt := attempt + 1;
      }
      // The guard cannot fail: the last attempt is never retried.
      assert false;
    }
  }
}
