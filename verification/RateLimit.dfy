/**
 Adaptive rate limiting: every response updates the state of its bucket, and a call is refused while the bucket
 is throttled. Retry-After is section 10.2.3 of RFC 9110; status 429 is section 4 of RFC 6585.
 */
module RateLimit {
  import opened Text
  import opened SegmentKeys
  import Backoff

  datatype Key = Key(providerID: string, scopeType: string, scopeID: string, bucketKey: string)

  /** `canon` trims and lower-cases. Both the policy and its store apply this, which changes nothing more. */
  function NormalKey(canon: Normalizer, key: Key): Key
  {
    Key(canon(key.providerID), canon(key.scopeType), Trim(key.scopeID), canon(key.bucketKey))
  }

  lemma NormalKeyIdempotent(canon: Normalizer, key: Key)
    ensures NormalKey(canon, NormalKey(canon, key)) == NormalKey(canon, key)
  {
    TrimIdempotent(key.scopeID);
  }

  function StateKey(key: Key): string {
    Joined(Segments(key.providerID, key.scopeType, key.scopeID, key.bucketKey))
  }

  datatype State = State(
    limit: int, remaining: int, resetAt: Option<int>, retryAfter: Option<int>, throttledUntil: Option<int>,
    lastStatus: int, attempts: nat, updatedAt: int)

  const FRESH := State(0, 0, None, None, None, 0, 0, 0)

  /** The Retry-After header, parsed. */
  datatype RetryHeader = NoRetryHeader | Seconds(seconds: int) | Date(at: int)

  /** A response with its rate-limit headers parsed; `hint` is a delay the transport already extracted. */
  datatype Response = Response(
    status: int, limit: Option<int>, remaining: Option<int>, resetAt: Option<int>, hint: Option<int>,
    retryHeader: RetryHeader)

  function RetryAfter(res: Response, now: int): (r: Option<int>)
    ensures r.Some? ==> r.value > 0
  {
    if res.hint.Some? && res.hint.value > 0 then res.hint
    else match res.retryHeader
      case NoRetryHeader => None
      case Seconds(n) => if n <= 0 then None else Some(n * Backoff.SECOND)
      case Date(at) => if at > now then Some(at - now) else None
  }

  /** Whether a response throttles its bucket, given what the bucket now knows to remain. */
  predicate Throttles(res: Response, remaining: int, now: int) {
    if res.status == 429 then true
    else if res.status >= 500 then false
    else
      remaining == 0
      && (res.remaining.Some? || res.resetAt.Some? || res.limit.Some? || RetryAfter(res, now).Some?)
  }

  function Known(now: Option<int>, before: int): int { if now.Some? then now.value else before }

  datatype Policy = Policy(initialBackoff: int, maxBackoff: int)

  function Unhinted(policy: Policy, n: nat): int
    requires n >= 1
  {
    Backoff.Delay(Backoff.OrDefault(policy.initialBackoff, Backoff.SECOND),
                  Backoff.OrDefault(policy.maxBackoff, 60 * Backoff.SECOND), n)
  }

  /** The state of a bucket after a response. */
  function Observed(policy: Policy, before: State, res: Response, now: int): State {
    var remaining := Known(res.remaining, before.remaining);
    var hint := RetryAfter(res, now);
    var noted := before.(
      lastStatus := res.status, updatedAt := now, limit := Known(res.limit, before.limit), remaining := remaining,
      resetAt := if res.resetAt.Some? then res.resetAt else before.resetAt, retryAfter := hint);
    if Throttles(res, remaining, now) then
      var n := before.attempts + 1;
      noted.(attempts := n, throttledUntil := Some(now + if hint.Some? then hint.value else Unhinted(policy, n)))
    else noted.(attempts := 0, throttledUntil := None)
  }

  predicate Refuses(state: State, now: int) {
    || (state.throttledUntil.Some? && now < state.throttledUntil.value)
    || (state.remaining == 0 && state.resetAt.Some? && now < state.resetAt.value)
  }

  function OrFresh(bucket: Option<State>): State { if bucket.Some? then bucket.value else FRESH }

  // ---------------------------------------------------------------- what a response does to its bucket

  /** The response asks for a delay of its own. */
  ghost predicate AsksDelay(res: Response, now: int) {
    || (res.hint.Some? && res.hint.value > 0)
    || (res.retryHeader.Seconds? && res.retryHeader.seconds > 0)
    || (res.retryHeader.Date? && res.retryHeader.at > now)
  }

  /** How long the n-th throttled response in a row closes its bucket: as it asks, or by doubling from the start. */
  ghost function Closure(policy: Policy, res: Response, now: int, n: nat): int
    requires n >= 1
  {
    if res.hint.Some? && res.hint.value > 0 then res.hint.value
    else if res.retryHeader.Seconds? && res.retryHeader.seconds > 0 then res.retryHeader.seconds * 1_000_000_000
    else if res.retryHeader.Date? && res.retryHeader.at > now then res.retryHeader.at - now
    else Backoff.Delay(if policy.initialBackoff > 0 then policy.initialBackoff else 1_000_000_000,
                       if policy.maxBackoff > 0 then policy.maxBackoff else 60_000_000_000, n)
  }

  /** Status 429, or a status below 500 that speaks of limits while nothing is known to remain. */
  ghost predicate Closes(res: Response, remaining: int, now: int) {
    || res.status == 429
    || (res.status < 500 && remaining == 0
        && (res.remaining.Some? || res.resetAt.Some? || res.limit.Some? || AsksDelay(res, now)))
  }

  lemma ThrottledExactly(policy: Policy, before: State, res: Response, now: int)
    ensures var (s, left) := (Observed(policy, before, res, now),
                              if res.remaining.Some? then res.remaining.value else before.remaining);
      && s.remaining == left && s.lastStatus == res.status && s.updatedAt == now
      && s.limit == (if res.limit.Some? then res.limit.value else before.limit)
      && (s.retryAfter.Some? <==> AsksDelay(res, now))
      && (AsksDelay(res, now) ==> s.retryAfter.value == Closure(policy, res, now, 1))
      && s.resetAt == (if res.resetAt.Some? then res.resetAt else before.resetAt)
      && s.attempts == (if Closes(res, left, now) then before.attempts + 1 else 0)
      && s.throttledUntil ==
        if Closes(res, left, now) then Some(now + Closure(policy, res, now, before.attempts + 1)) else None
  {
    hide Backoff.Delay;
  }

  /** A bucket is closed from a 429, or from a status below 500 that reports nothing left, until its delay is over. */
  lemma ClosedUntil(policy: Policy, before: State, res: Response, now: int)
    ensures res.status == 429 || (res.status < 500 && res.remaining == Some(0)) ==>
      forall at :: at < now + Closure(policy, res, now, before.attempts + 1) ==>
        Refuses(Observed(policy, before, res, now), at)
  {
    ThrottledExactly(policy, before, res, now);
    hide Observed, Closure;
  }

  /**
   A server error lifts the throttling, so that only an exhausted window keeps the bucket closed; a status below 500
   other than 429 that reports some quota opens it for good.
   */
  lemma OpenAfter(policy: Policy, before: State, res: Response, now: int, at: int)
    requires res.status != 429
    ensures var s := Observed(policy, before, res, now);
      && (res.status >= 500 ==>
            s.throttledUntil == None
            && (Refuses(s, at) <==> s.remaining == 0 && s.resetAt.Some? && at < s.resetAt.value))
      && (res.status < 500 && res.remaining.Some? && res.remaining.value != 0 ==>
            s.throttledUntil == None && !Refuses(s, at))
  {
    ThrottledExactly(policy, before, res, now);
    hide Observed, Closure, AsksDelay;
  }

  // ---------------------------------------------------------------- over a history of responses

  type History = seq<(Response, int)>

  function After(policy: Policy, history: History): State {
    if history == [] then FRESH
    else
      var (res, now) := history[|history| - 1];
      Observed(policy, After(policy, history[..|history| - 1]), res, now)
  }

  /** What the latest response that said so left remaining; nothing, before any did. */
  ghost function Remaining(history: History): int {
    if history == [] then 0
    else if history[|history| - 1].0.remaining.Some? then history[|history| - 1].0.remaining.value
    else Remaining(history[..|history| - 1])
  }

  /** When the window ends, as the latest response that said so put it. */
  ghost function ResetAt(history: History): Option<int> {
    if history == [] then None
    else if history[|history| - 1].0.resetAt.Some? then history[|history| - 1].0.resetAt
    else ResetAt(history[..|history| - 1])
  }

  ghost predicate ClosesAt(history: History, i: nat)
    requires i < |history|
  {
    Closes(history[i].0, Remaining(history[..i + 1]), history[i].1)
  }

  /** The length of the run of throttled responses at the end. */
  ghost function TrailingRun(history: History, n: nat): (run: nat)
    requires n <= |history|
    ensures run <= n
    ensures forall i :: n - run <= i < n ==> ClosesAt(history, i)
    ensures run < n ==> !ClosesAt(history, n - run - 1)
  {
    if n == 0 || !ClosesAt(history, n - 1) then 0 else 1 + TrailingRun(history, n - 1)
  }

  ghost predicate Follows(policy: Policy, history: History, n: nat)
    requires n <= |history|
  {
    var (s, run) := (After(policy, history[..n]), TrailingRun(history, n));
    && s.attempts == run && s.remaining == Remaining(history[..n]) && s.resetAt == ResetAt(history[..n])
    && s.throttledUntil ==
      if run == 0 then None
      else Some(history[n - 1].1 + Closure(policy, history[n - 1].0, history[n - 1].1, run))
  }

  lemma AfterSnoc(policy: Policy, history: History, n: nat)
    requires 0 < n <= |history|
    ensures var (res, now) := history[n - 1];
      && After(policy, history[..n]) == Observed(policy, After(policy, history[..n - 1]), res, now)
      && Remaining(history[..n]) == (if res.remaining.Some? then res.remaining.value else Remaining(history[..n - 1]))
      && ResetAt(history[..n]) == (if res.resetAt.Some? then res.resetAt else ResetAt(history[..n - 1]))
  {
    hide Observed;
    assert history[..n][..n - 1] == history[..n - 1];
  }

  lemma {:induction false} HistoryUpTo(policy: Policy, history: History, n: nat)
    requires n <= |history|
    ensures Follows(policy, history, n)
  {
    if n > 0 {
      HistoryUpTo(policy, history, n - 1);
      AfterSnoc(policy, history, n);
      ThrottledExactly(policy, After(policy, history[..n - 1]), history[n - 1].0, history[n - 1].1);
      hide Observed, After, Remaining, ResetAt, Closes, Closure;
    }
  }

  /**
   Over any history of a bucket, its attempts are the length of the trailing run of throttled responses, it is
   throttled exactly when that run is not empty, and the n-th unhinted delay is min(max, initial * 2^(n-1)).
   */
  lemma ThrottleHistory(policy: Policy, history: History)
    ensures Follows(policy, history, |history|) && history[..|history|] == history
  {
    HistoryUpTo(policy, history, |history|);
  }

  /** The last response no longer closes the bucket, and no window is exhausted. */
  ghost predicate WaitedOut(policy: Policy, history: History, at: int) {
    var run := TrailingRun(history, |history|);
    && (run > 0 ==>
          var (res, now) := history[|history| - 1];
          at >= now + Closure(policy, res, now, run))
    && (Remaining(history) == 0 && ResetAt(history).Some? ==> at >= ResetAt(history).value)
  }

  /** A bucket refuses exactly until it has waited out its last throttled response and its exhausted window. */
  lemma AllowedHasWaited(policy: Policy, history: History, at: int)
    ensures !Refuses(After(policy, history), at) <==> WaitedOut(policy, history, at)
  {
    ThrottleHistory(policy, history);
    hide After, Remaining, ResetAt, TrailingRun, Closure;
  }

  lemma NeverClosed(policy: Policy, at: int)
    ensures WaitedOut(policy, [], at)
  {
  }

  // ---------------------------------------------------------------- keys

  /** The name under which the store keeps a bucket. */
  function SlotOf(canon: Normalizer, key: Key): string { StateKey(NormalKey(canon, key)) }

  /** What tells buckets apart: three segments trimmed and lower-cased, the scope's id trimmed. */
  ghost function Canonical(canon: Normalizer, key: Key): Segments {
    Segments(canon(key.providerID), canon(key.scopeType), Trim(key.scopeID), canon(key.bucketKey))
  }

  ghost predicate Normal(canon: Normalizer, s: Segments) {
    canon(s.first) == s.first && canon(s.second) == s.second && Trim(s.third) == s.third && canon(s.fourth) == s.fourth
  }

  lemma SlotJoins(canon: Normalizer, key: Key)
    ensures SlotOf(canon, key) == Joined(Canonical(canon, key)) && Normal(canon, Canonical(canon, key))
  {
    TrimIdempotent(key.scopeID);
  }

  lemma NormalIsCanonical(canon: Normalizer, s: Segments)
    ensures Normal(canon, s) <==> Canonical(canon, Key(s.first, s.second, s.third, s.fourth)) == s
  {
  }

  /** The bucket shares its state with no other. */
  ghost predicate Alone(canon: Normalizer, a: Key) {
    forall b :: SlotOf(canon, b) == SlotOf(canon, a) ==> Canonical(canon, b) == Canonical(canon, a)
  }

  /** Of all ways to cut the pieces of a state key into four segments, this is the only normalised one. */
  ghost predicate OneGrouping(canon: Normalizer, s: Segments) {
    forall i: nat, j: nat, k: nat :: 0 < i < j < k < |Pieces(s)| && Normal(canon, Grouped(Pieces(s), i, j, k)) ==>
      Grouped(Pieces(s), i, j, k) == s
  }

  /** A bucket has a state of its own if and only if its segments are the only normalised grouping of their pieces. */
  lemma SlotIsOwnExactly(canon: Normalizer, a: Key)
    ensures Alone(canon, a) <==> OneGrouping(canon, Canonical(canon, a))
  {
    var own := Canonical(canon, a);
    hide SlotOf, Canonical, Normal, Grouped, Pieces, Joined;
    SlotJoins(canon, a);
    if OneGrouping(canon, own) {
      forall b | SlotOf(canon, b) == SlotOf(canon, a) ensures Canonical(canon, b) == own {
        SlotJoins(canon, b);
        AlikeExactly(own, Canonical(canon, b));
      }
    }
    if Alone(canon, a) {
      forall i: nat, j: nat, k: nat | 0 < i < j < k < |Pieces(own)| && Normal(canon, Grouped(Pieces(own), i, j, k))
        ensures Grouped(Pieces(own), i, j, k) == own
      {
        var s := Grouped(Pieces(own), i, j, k);
        var b := Key(s.first, s.second, s.third, s.fourth);
        GroupingKeepsJoined(own, i, j, k);
        NormalIsCanonical(canon, s);
        SlotJoins(canon, b);
        assert SlotOf(canon, b) == SlotOf(canon, a);
      }
    }
  }

  /** Without separators in its normalised segments a bucket is alone, whatever the others hold. */
  lemma BarFreeIsAlone(canon: Normalizer, a: Key)
    requires BarFree(Canonical(canon, a))
    ensures Alone(canon, a)
  {
    hide SlotOf, Canonical, Joined, BarFree;
    SlotJoins(canon, a);
    forall b | SlotOf(canon, b) == SlotOf(canon, a) ensures Canonical(canon, b) == Canonical(canon, a) {
      SlotJoins(canon, b);
      BarFreeIsUnlike(Canonical(canon, a), Canonical(canon, b));
    }
  }

  /** Two buckets that the store does not tell apart. */
  lemma SlotsCollide(canon: Normalizer)
    requires canon("p") == "p" && canon("s") == "s" && canon("b") == "b" && canon("y|b") == "y|b"
    ensures var (a, b) := (Key("p", "s", "x|y", "b"), Key("p", "s", "x", "y|b"));
      Canonical(canon, a) != Canonical(canon, b) && SlotOf(canon, a) == SlotOf(canon, b)
  {
    var (a, b) := (Key("p", "s", "x|y", "b"), Key("p", "s", "x", "y|b"));
    BareText("x|y");
    BareText("x");
    hide Trim, SlotOf, Joined;
    SlotJoins(canon, a);
    SlotJoins(canon, b);
    JoinedNested(Canonical(canon, a));
    JoinedNested(Canonical(canon, b));
    assert "x|y" + ['|'] + "b" == "x" + ['|'] + "y|b";
  }

  /** Joining what is normalised with a separator leaves it normalised: trimming and lower-casing do that. */
  ghost predicate KeepsJoins(canon: Normalizer) {
    forall x, y :: canon(x) == x && canon(y) == y ==> canon(x + ['|'] + y) == x + ['|'] + y
  }

  ghost predicate PieceNormal(canon: Normalizer, piece: string) { canon(piece) == piece && Trim(piece) == piece }

  lemma {:induction false} JoinNormal(canon: Normalizer, pieces: seq<string>)
    requires KeepsJoins(canon) && pieces != [] && forall p :: p in pieces ==> PieceNormal(canon, p)
    ensures PieceNormal(canon, Join(pieces, '|'))
  {
    assert PieceNormal(canon, pieces[0]);
    if |pieces| > 1 {
      JoinNormal(canon, pieces[1..]);
      hide Trim;
      TrimJoins(pieces[0], Join(pieces[1..], '|'));
    }
  }

  lemma TrimJoins(x: string, y: string)
    requires Trim(x) == x && Trim(y) == y
    ensures Trim(x + ['|'] + y) == x + ['|'] + y
  {
    var s := x + ['|'] + y;
    assert s[0] == if x == "" then '|' else x[0];
    assert s[|s| - 1] == if y == "" then '|' else y[|y| - 1];
  }

  lemma GroupingNormal(canon: Normalizer, pieces: seq<string>, i: nat, j: nat, k: nat)
    requires KeepsJoins(canon) && forall p :: p in pieces ==> PieceNormal(canon, p)
    requires 0 < i < j < k < |pieces|
    ensures Normal(canon, Grouped(pieces, i, j, k))
  {
    hide KeepsJoins, Trim, Join;
    JoinNormal(canon, pieces[..i]);
    JoinNormal(canon, pieces[i..j]);
    JoinNormal(canon, pieces[j..k]);
    JoinNormal(canon, pieces[k..]);
  }

  /** When all pieces are normalised, a bucket is alone if and only if its segments are free of separators. */
  lemma AloneIffBarFree(canon: Normalizer, a: Key)
    requires KeepsJoins(canon) && forall p :: p in Pieces(Canonical(canon, a)) ==> PieceNormal(canon, p)
    ensures Alone(canon, a) <==> BarFree(Canonical(canon, a))
  {
    var own := Canonical(canon, a);
    if BarFree(own) {
      BarFreeIsAlone(canon, a);
    } else {
      hide Alone, Canonical, BarFree, KeepsJoins, PieceNormal, Pieces, Normal;
      BarFreeHasFourPieces(own);
      GroupingNormal(canon, Pieces(own), 1, 2, 3);
      GroupingNormal(canon, Pieces(own), 1, 2, 4);
      SlotIsOwnExactly(canon, a);
      TwoGroupings(Pieces(own));
      hide Grouped;
    }
  }

  /** Lower-casing rune by rune, then trimming. */
  function TrimLower(lower: char -> char, s: string): string { Trim(seq(|s|, i requires 0 <= i < |s| => lower(s[i]))) }

  /**
   The normal form that the policy uses is one of those, if case mapping is idempotent and leaves the separator alone.
   */
  lemma TrimLowerKeepsJoins(lower: char -> char, x: string, y: string)
    requires (forall c :: lower(lower(c)) == lower(c)) && lower('|') == '|'
    ensures TrimLower(lower, TrimLower(lower, x)) == TrimLower(lower, x)
    ensures TrimLower(lower, x) == x && TrimLower(lower, y) == y ==>
      TrimLower(lower, x + ['|'] + y) == x + ['|'] + y
  {
    hide TrimLower, Trim;
    TrimLowerTwice(lower, x);
    TrimLowerFixes(lower, x);
    TrimLowerFixes(lower, y);
    TrimLowerFixes(lower, x + ['|'] + y);
    if Trim(x) == x && Trim(y) == y { TrimJoins(x, y); }
  }

  lemma TrimLowerTwice(lower: char -> char, x: string)
    requires forall c :: lower(lower(c)) == lower(c)
    ensures TrimLower(lower, TrimLower(lower, x)) == TrimLower(lower, x)
  {
    var low := seq(|x|, i requires 0 <= i < |x| => lower(x[i]));
    TrimIdempotent(low);
    TrimTakes(low);
    TrimLowerFixes(lower, Trim(low));
    hide Trim;
    assert forall c :: c in low ==> lower(c) == c;
  }

  /** Trimming keeps only characters that were there, and shortens what it changes. */
  lemma TrimTakes(s: string)
    ensures (forall c :: c in Trim(s) ==> c in s) && |Trim(s)| <= |s| && (|Trim(s)| == |s| ==> Trim(s) == s)
  {
    TrimLeftTakes(s);
    assert forall c :: c in TrimRight(TrimLeft(s)) ==> c in TrimLeft(s);
  }

  lemma {:induction false} TrimLeftTakes(s: string)
    ensures (forall c :: c in TrimLeft(s) ==> c in s) && (|TrimLeft(s)| == |s| ==> TrimLeft(s) == s)
  {
    if s != "" && IsSpace(s[0]) { TrimLeftTakes(s[1..]); }
  }

  lemma TrimLowerFixes(lower: char -> char, s: string)
    ensures TrimLower(lower, s) == s <==> Trim(s) == s && forall c :: c in s ==> lower(c) == c
  {
    var low := seq(|s|, i requires 0 <= i < |s| => lower(s[i]));
    TrimTakes(low);
    hide Trim;
    if Trim(low) == s {
      assert low == s;
      forall c | c in s ensures lower(c) == c {
        var i :| 0 <= i < |s| && s[i] == c;
        assert low[i] == c;
      }
    } else if forall c :: c in s ==> lower(c) == c {
      assert forall i :: 0 <= i < |s| ==> s[i] in s;
      assert low == s;
    }
  }

  // ---------------------------------------------------------------- the policy

  datatype Verdict = Allowed | Throttled(retryAfter: int) | StoreFailed

  class AdaptivePolicy {
    const policy: Policy
    const canon: Normalizer
    var items: map<string, State>
    /** Every response recorded so far, by bucket. */
    ghost var responses: map<string, History>

    ghost predicate Valid()
      reads this
    {
      items == map slot | slot in responses :: After(policy, responses[slot])
    }

    constructor (policy: Policy, canon: Normalizer)
      ensures Valid() && this.policy == policy && this.canon == canon && items == map[] && responses == map[]
    {
      this.policy, this.canon, items, responses := policy, canon, map[], map[];
    }

    function Slot(key: Key): string { SlotOf(canon, key) }

    function Bucket(key: Key): Option<State>
      reads this`items
    {
      if Slot(key) in items then Some(items[Slot(key)]) else None
    }

    ghost function Responses(key: Key): History
      reads this`responses
    {
      if Slot(key) in responses then responses[Slot(key)] else []
    }

    method BeforeCall(key: Key, now: int, getFails: bool) returns (verdict: Verdict)
      ensures verdict.StoreFailed? <==> getFails
      ensures verdict.Allowed? <==> !getFails && !(Bucket(key).Some? && Refuses(Bucket(key).value, now))
      // By the recorded responses alone.
      ensures Valid() && !getFails ==> (verdict.Allowed? <==> WaitedOut(policy, Responses(key), now))
      ensures verdict.Throttled? ==>
        verdict.retryAfter > 0 && Bucket(key).Some?
        && Some(verdict.retryAfter + now) in {Bucket(key).value.throttledUntil, Bucket(key).value.resetAt}
    {
      hide WaitedOut, After;
      AllowedHasWaited(policy, Responses(key), now);

      if getFails {
        return StoreFailed;
      }
      if Slot(key) !in items {
        NeverClosed(policy, now);
        return Allowed;
      }
      var state := items[Slot(key)];
      if state.throttledUntil.Some? && now < state.throttledUntil.value {
        return Throttled(state.throttledUntil.value - now);
      }
      if state.remaining == 0 && state.resetAt.Some? && now < state.resetAt.value {
        return Throttled(state.resetAt.value - now);
      }
      return Allowed;
    }

    method Observe(before: State, res: Response, now: int) returns (state: State)
      ensures state == Observed(policy, before, res, now)
    {
      state := before.(lastStatus := res.status, updatedAt := now);
      if res.limit.Some? {
        state := state.(limit := res.limit.value);
      }
      if res.remaining.Some? {
        state := state.(remaining := res.remaining.value);
      }
      if res.resetAt.Some? {
        state := state.(resetAt := res.resetAt);
      }
      var hint := RetryAfter(res, now);
      state := state.(retryAfter := hint);
      if Throttles(res, state.remaining, now) {
        state := state.(attempts := state.attempts + 1);
        var delay := if hint.Some? then hint.value else 0;
        if hint.None? {
          delay := Backoff.RateLimitDelay(policy.initialBackoff, policy.maxBackoff, state.attempts);
        }
        state := state.(throttledUntil := Some(now + delay));
      } else {
        state := state.(attempts := 0, throttledUntil := None);
      }
    }

    /** A store that fails may have recorded the response or not. */
    method AfterCall(key: Key, res: Response, now: int, fault: Fault) returns (ok: bool)
      requires Valid()
      modifies this`items, this`responses
      ensures Valid() && ok == fault.Fine?
      ensures fault.FailsUnwritten? ==> items == old(items) && responses == old(responses)
      ensures !fault.FailsUnwritten? ==>
        && responses == old(responses)[Slot(key) := old(Responses(key)) + [(res, now)]]
        && items == old(items)[Slot(key) := Observed(policy, OrFresh(old(Bucket(key))), res, now)]
      // A 429, or a status below 500 that reports nothing left, closes its bucket for as long as it says.
      ensures !fault.FailsUnwritten? && (res.status == 429 || (res.status < 500 && res.remaining == Some(0))) ==>
        && Bucket(key).Some?
        && var n := if old(Bucket(key)).Some? then old(Bucket(key)).value.attempts + 1 else 1;
           forall at :: at < now + Closure(policy, res, now, n) ==> Refuses(Bucket(key).value, at)
    {
      hide Slot, Observed, Closure, Refuses;
      if fault.FailsUnwritten? {
        return false;
      }
      var before := if Slot(key) in items then items[Slot(key)] else FRESH;
      var state := Observe(before, res, now);
      ghost var history := Responses(key) + [(res, now)];
      assert history[..|history| - 1] == Responses(key);
      assert After(policy, history) == state;
      items := items[Slot(key) := state];
      responses := responses[Slot(key) := history];
      ClosedUntil(policy, before, res, now);
      return fault.Fine?;
    }
  }
}
