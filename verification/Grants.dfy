/**
 Grant snapshots as an event-sourced history: every reconciliation saves the next snapshot of what a provider has
 granted and an event with the difference from the one before.
 */
module Grants {
  import opened Text
  import opened Sorting

  // ---------------------------------------------------------------- sets of grants as sorted lists

  /** The grants a list stands for: `canon` trims and lower-cases, and blanks are dropped. */
  ghost function GrantSet(canon: Normalizer, values: seq<string>): set<string> {
    set v | v in values && canon(v) != "" :: canon(v)
  }

  /** The one way to write a set of grants: sorted and without repetition. */
  ghost predicate Lists(xs: seq<string>, s: set<string>) {
    Sorted(xs, AtMost) && Distinct(xs) && forall x :: x in xs <==> x in s
  }

  lemma ByteOrderIsTotal()
    ensures TotalOrder(AtMost)
  {
    forall a, b ensures AtMost(a, b) || AtMost(b, a) { AtMostTotal(a, b); }
    forall a, b, c | AtMost(a, b) && AtMost(b, c) ensures AtMost(a, c) { AtMostTransitive(a, b, c); }
  }

  lemma {:induction false} DistinctMultiset<T>(xs: seq<T>)
    requires Distinct(xs)
    ensures multiset(xs) == multiset(set x | x in xs)
  {
    if xs != [] {
      var front, last := xs[..|xs| - 1], xs[|xs| - 1];
      DistinctMultiset(front);
      assert xs == front + [last];
      assert (set x | x in xs) == (set x | x in front) + {last};
    }
  }

  /** Whatever order the set was walked in, sorting leaves one list. */
  lemma ListsUnique(xs: seq<string>, ys: seq<string>, s: set<string>)
    requires Lists(xs, s) && Lists(ys, s)
    ensures xs == ys
  {
    DistinctMultiset(xs);
    DistinctMultiset(ys);
    assert (set x | x in xs) == s == (set y | y in ys);
    forall x, y | x in xs && y in xs && AtMost(x, y) && AtMost(y, x) ensures x == y { AtMostAntisymmetric(x, y); }
    SortedUnique(xs, ys, AtMost);
  }

  method ToGrantSet(canon: Normalizer, values: seq<string>) returns (grants: set<string>)
    ensures grants == GrantSet(canon, values)
  {
    grants := {};
    for i := 0 to |values|
      invariant grants == GrantSet(canon, values[..i])
    {
      assert values[..i + 1] == values[..i] + [values[i]];
      var trimmed := canon(values[i]);
      if trimmed != "" {
        grants := grants + {trimmed};
      }
    }
    assert values[..|values|] == values;
  }

  /** Walks a set in any order and lists, sorted, what the other one lacks. */
  method Lacking(wanted: set<string>, present: set<string>) returns (missing: seq<string>)
    ensures Lists(missing, wanted - present)
  {
    var rest, found := wanted, [];
    while rest != {}
      invariant rest <= wanted && Distinct(found)
      invariant forall x :: x in found <==> x in wanted - rest - present
      decreases |rest|
    {
      var grant :| grant in rest;
      assert grant !in found;
      if grant !in present {
        found := found + [grant];
      }
      rest := rest - {grant};
    }
    missing := Sort(found, AtMost);
    ByteOrderIsTotal();
    SortSorts(found, AtMost);
    SortPermutes(found, AtMost);
    PermutationKeepsElements(found, missing);
    PermutationKeepsDistinct(found, missing);
  }

  /** A list in the form that every snapshot holds. */
  ghost predicate Canonical(canon: Normalizer, xs: seq<string>) {
    Lists(xs, GrantSet(canon, xs)) && forall x :: x in xs ==> x in GrantSet(canon, xs)
  }

  lemma GrantSetStable(canon: Normalizer, values: seq<string>, xs: seq<string>)
    requires Lists(xs, GrantSet(canon, values))
    ensures GrantSet(canon, xs) == GrantSet(canon, values) && Canonical(canon, xs)
  {
    hide Sorted, Distinct;
    assert forall x :: x in xs ==> canon(x) == x && x != "";
    assert forall x :: x in xs ==> x in GrantSet(canon, xs);
  }

  method NormalizeGrants(canon: Normalizer, values: seq<string>) returns (grants: seq<string>)
    ensures Lists(grants, GrantSet(canon, values))
    ensures GrantSet(canon, grants) == GrantSet(canon, values) && Canonical(canon, grants)
  {
    if |values| == 0 {
      grants := [];
    } else {
      var all := ToGrantSet(canon, values);
      grants := Lacking(all, {});
    }
    GrantSetStable(canon, values, grants);
  }

  // ---------------------------------------------------------------- deltas

  datatype Kind = NoEvent | Expanded | Downgraded | Revoked | ReconsentRequested | ReconsentCompleted

  datatype Delta = Delta(kind: Kind, added: seq<string>, removed: seq<string>)

  ghost predicate IsDelta(previous: set<string>, current: set<string>, delta: Delta) {
    && Lists(delta.added, current - previous)
    && Lists(delta.removed, previous - current)
    && (delta.kind.NoEvent? <==> current == previous)
    && (delta.kind.Expanded? <==> previous < current)
    && (delta.kind.Revoked? <==> current == {} < previous)
    && (delta.kind.Downgraded? <==> current != {} && !(previous <= current))
  }

  lemma NothingLacking(missing: seq<string>, wanted: set<string>, present: set<string>)
    requires Lists(missing, wanted - present)
    ensures missing == [] <==> wanted <= present
  {
    hide Sorted, Distinct;
    assert missing != [] ==> missing[0] in wanted - present;
    forall x | x in wanted && missing == [] ensures x in present {
      assert x in wanted - present <==> x in missing;
    }
  }

  method ComputeGrantDelta(canon: Normalizer, previous: seq<string>, current: seq<string>) returns (delta: Delta)
    ensures IsDelta(GrantSet(canon, previous), GrantSet(canon, current), delta)
  {
    var prevSet := ToGrantSet(canon, previous);
    var currSet := ToGrantSet(canon, current);
    var added := Lacking(currSet, prevSet);
    var removed := Lacking(prevSet, currSet);
    NothingLacking(added, currSet, prevSet);
    NothingLacking(removed, prevSet, currSet);
    hide Lists, GrantSet;
    var kind := if |removed| > 0 && |currSet| == 0 then Revoked
                else if |removed| > 0 then Downgraded
                else if |added| > 0 then Expanded
                else NoEvent;
    delta := Delta(kind, added, removed);
  }

  /** Playing a delta on the grants before it gives the grants after it. */
  lemma DeltaReplays(previous: set<string>, current: set<string>, delta: Delta)
    requires IsDelta(previous, current, delta)
    ensures (previous - (set g | g in delta.removed)) + (set g | g in delta.added) == current
  {
    hide Sorted, Distinct;
  }

  // ---------------------------------------------------------------- histories

  datatype Snapshot = Snapshot(version: int, requested: seq<string>, granted: seq<string>)

  /** What the store holds of one connection. */
  datatype Ledger = Ledger(snapshots: seq<Snapshot>, events: seq<Delta>)

  const EMPTY := Ledger([], [])

  function Latest(ledger: Ledger): Option<Snapshot> {
    if ledger.snapshots == [] then None else Some(ledger.snapshots[|ledger.snapshots| - 1])
  }

  function LatestGranted(ledger: Ledger): seq<string> {
    if Latest(ledger).Some? then Latest(ledger).value.granted else []
  }

  ghost function Granted(ledger: Ledger): set<string> { set g | g in LatestGranted(ledger) }

  predicate IsDeltaKind(kind: Kind) { kind.Expanded? || kind.Downgraded? || kind.Revoked? }

  /** The grants that the expanded, downgraded and revoked events add up to; the others are only notes. */
  ghost function Fold(events: seq<Delta>): set<string> {
    if events == [] then {}
    else
      var (front, last) := (Fold(events[..|events| - 1]), events[|events| - 1]);
      if IsDeltaKind(last.kind) then (front - (set g | g in last.removed)) + (set g | g in last.added) else front
  }

  ghost predicate Numbered(ledger: Ledger) {
    forall i :: 0 <= i < |ledger.snapshots| ==> ledger.snapshots[i].version == i + 1
  }

  ghost predicate Replays(ledger: Ledger) { Fold(ledger.events) == Granted(ledger) }

  /** What can happen to a connection's history; `logged` is false when only the event was lost. */
  datatype Step =
    | Nothing
    | Record(requested: seq<string>, granted: seq<string>, delta: Delta, logged: bool)
    | Note(event: Delta)

  ghost predicate Legal(canon: Normalizer, ledger: Ledger, step: Step) {
    match step
    case Nothing => true
    case Record(requested, granted, delta, _) =>
      && Canonical(canon, requested) && Canonical(canon, granted)
      && IsDelta(Granted(ledger), GrantSet(canon, granted), delta)
    case Note(event) => event.kind.ReconsentRequested? || event.kind.ReconsentCompleted?
  }

  function NextVersion(ledger: Ledger): int { if Latest(ledger).Some? then Latest(ledger).value.version + 1 else 1 }

  function Next(ledger: Ledger, step: Step): Ledger {
    match step
    case Nothing => ledger
    case Record(requested, granted, delta, logged) =>
      Ledger(ledger.snapshots + [Snapshot(NextVersion(ledger), requested, granted)],
             if logged && !delta.kind.NoEvent? then ledger.events + [delta] else ledger.events)
    case Note(event) => ledger.(events := ledger.events + [event])
  }

  /** The step lost an event that had something to say. */
  predicate LosesEvent(step: Step) { step.Record? && !step.logged && !step.delta.kind.NoEvent? }

  lemma FoldSnoc(events: seq<Delta>, event: Delta)
    ensures Fold(events + [event]) ==
      if IsDeltaKind(event.kind)
      then (Fold(events) - (set g | g in event.removed)) + (set g | g in event.added)
      else Fold(events)
  {
    assert (events + [event])[..|events|] == events;
  }

  lemma CanonicalSet(canon: Normalizer, xs: seq<string>)
    requires Canonical(canon, xs)
    ensures GrantSet(canon, xs) == set x | x in xs
  {
    hide Sorted, Distinct;
  }

  /** A step keeps the history replayable exactly when it does not lose an event. */
  lemma StepReplays(canon: Normalizer, ledger: Ledger, step: Step)
    requires Replays(ledger) && Legal(canon, ledger, step)
    ensures Replays(Next(ledger, step)) <==> !LosesEvent(step)
  {
    hide Canonical, Lists, GrantSet, Fold;
    var after := Next(ledger, step);
    match step
    case Nothing =>
    case Note(event) =>
      FoldSnoc(ledger.events, event);
    case Record(requested, granted, delta, logged) =>
      assert Granted(after) == GrantSet(canon, granted) by { CanonicalSet(canon, granted); }
      DeltaReplays(Granted(ledger), Granted(after), delta);
      FoldSnoc(ledger.events, delta);
  }

  lemma StepNumbers(ledger: Ledger, step: Step)
    requires Numbered(ledger)
    ensures Numbered(Next(ledger, step))
  {
  }

  function After(steps: seq<Step>): Ledger {
    if steps == [] then EMPTY else Next(After(steps[..|steps| - 1]), steps[|steps| - 1])
  }

  ghost predicate LegalRun(canon: Normalizer, steps: seq<Step>) {
    forall i :: 0 <= i < |steps| ==> Legal(canon, After(steps[..i]), steps[i])
  }

  /**
   Over every run the versions are 1, 2, 3, ... without a gap, and as long as no event is lost the events add up to
   the latest snapshot; the first lost event breaks that.
   */
  lemma {:induction false} HistoryReplays(canon: Normalizer, steps: seq<Step>)
    requires LegalRun(canon, steps)
    ensures Numbered(After(steps))
    ensures (forall i :: 0 <= i < |steps| ==> !LosesEvent(steps[i])) ==> Replays(After(steps))
    ensures (steps != [] && LosesEvent(steps[|steps| - 1])
             && forall i :: 0 <= i < |steps| - 1 ==> !LosesEvent(steps[i])) ==> !Replays(After(steps))
    decreases |steps|
  {
    if steps != [] {
      var front, last := steps[..|steps| - 1], steps[|steps| - 1];
      RunPrefix(canon, steps);
      HistoryReplays(canon, front);
      StepNumbers(After(front), last);
      hide Legal, Replays, Next;
      if Replays(After(front)) {
        StepReplays(canon, After(front), last);
      }
    }
  }

  ghost predicate ReplaysUpTo(steps: seq<Step>, n: nat)
    requires n <= |steps|
  {
    forall k :: 0 <= k <= n ==> Replays(After(steps[..k]))
  }

  ghost predicate KeepsEvents(steps: seq<Step>, n: nat)
    requires n <= |steps|
  {
    forall i :: 0 <= i < n ==> !LosesEvent(steps[i])
  }

  lemma ReplaysOneMore(steps: seq<Step>, n: nat)
    requires n < |steps|
    ensures ReplaysUpTo(steps, n + 1) <==> ReplaysUpTo(steps, n) && Replays(After(steps[..n + 1]))
    ensures KeepsEvents(steps, n + 1) <==> KeepsEvents(steps, n) && !LosesEvent(steps[n])
    ensures ReplaysUpTo(steps, n) ==> Replays(After(steps[..n]))
    ensures After(steps[..n + 1]) == Next(After(steps[..n]), steps[n])
  {
    assert steps[..n + 1][..n] == steps[..n];
    hide Replays, LosesEvent, Next;
  }

  /** The history replays at every moment of a run if and only if no step so far lost an event. */
  lemma {:induction false} ReplaysThroughoutExactly(canon: Normalizer, steps: seq<Step>, n: nat)
    requires LegalRun(canon, steps) && n <= |steps|
    ensures ReplaysUpTo(steps, n) <==> KeepsEvents(steps, n)
  {
    if n == 0 {
      assert steps[..0] == [];
      HistoryReplays(canon, []);
    } else {
      assert Legal(canon, After(steps[..n - 1]), steps[n - 1]);
      hide *;
      ReplaysThroughoutExactly(canon, steps, n - 1);
      ReplaysOneMore(steps, n - 1);
      if Replays(After(steps[..n - 1])) { StepReplays(canon, After(steps[..n - 1]), steps[n - 1]); }
    }
  }

  lemma RunPrefix(canon: Normalizer, steps: seq<Step>)
    requires steps != [] && LegalRun(canon, steps)
    ensures LegalRun(canon, steps[..|steps| - 1])
    ensures Legal(canon, After(steps[..|steps| - 1]), steps[|steps| - 1])
  {
    hide Legal;
    var front := steps[..|steps| - 1];
    forall i | 0 <= i < |front| ensures Legal(canon, After(front[..i]), front[i]) {
      assert front[..i] == steps[..i] && front[i] == steps[i];
    }
  }

  // ---------------------------------------------------------------- reconciliation

  /** A provider may rewrite the granted permissions, or fail to. */
  datatype Awareness = Unaware | AwareFails | Rewrites(grants: seq<string>)

  datatype Faults = Faults(get: bool, save: Fault, append: Fault)

  datatype Outcome = Failed | Reconciled(snapshot: Snapshot, delta: Delta)

  class GrantKeeper {
    const canon: Normalizer
    const transactional: bool
    var ledgers: map<string, Ledger>

    constructor (canon: Normalizer, transactional: bool)
      ensures Valid() && this.canon == canon && this.transactional == transactional && ledgers == map[]
    {
      this.canon, this.transactional, ledgers := canon, transactional, map[];
    }

    /** Every reachable history is numbered and, through a transactional store, replays. */
    ghost predicate Valid()
      reads this
    {
      forall c :: c in ledgers ==> Sound(ledgers[c])
    }

    ghost predicate Sound(ledger: Ledger) {
      Numbered(ledger) && Canonical(canon, LatestGranted(ledger)) && (transactional ==> Replays(ledger))
    }

    lemma EmptySound()
      ensures Sound(EMPTY)
    {
    }

    lemma NextSound(ledger: Ledger, step: Step)
      requires Sound(ledger) && Legal(canon, ledger, step) && (transactional ==> !LosesEvent(step))
      ensures Sound(Next(ledger, step))
    {
      StepNumbers(ledger, step);
      hide Canonical, Numbered, Lists, Replays, IsDelta;
      if transactional {
        StepReplays(canon, ledger, step);
      }
    }

    function LedgerOf(id: string): Ledger
      reads this`ledgers
    {
      if id in ledgers then ledgers[id] else EMPTY
    }

    /** The rest of the store. */
    function Others(id: string): map<string, Ledger>
      reads this`ledgers
    {
      ledgers - {id}
    }

    /** What the provider makes of the granted permissions, as a set. */
    ghost function Meant(granted: seq<string>, aware: Awareness): set<string> {
      if aware.Rewrites? then GrantSet(canon, aware.grants) else GrantSet(canon, granted)
    }

    /** Saves a snapshot and its event: at once in a transaction, one after the other without. */
    method Commit(id: string, snapshot: Snapshot, delta: Delta, save: Fault, append: Fault)
      returns (ok: bool, ghost step: Step)
      requires Valid() && snapshot.version == NextVersion(LedgerOf(id))
      requires Legal(canon, LedgerOf(id), Record(snapshot.requested, snapshot.granted, delta, true))
      modifies this`ledgers
      ensures Valid() && Others(id) == old(Others(id)) && LedgerOf(id) == Next(old(LedgerOf(id)), step)
      ensures if save.FailsUnwritten? then step == Nothing
        else step == Record(snapshot.requested, snapshot.granted, delta, Logs(delta, save, append))
      ensures ok <==> save.Fine? && (transactional || delta.kind.NoEvent? || append.Fine?)
    {
      hide Sound, Canonical, IsDelta;
      EmptySound();
      NextSound(LedgerOf(id), Record(snapshot.requested, snapshot.granted, delta, true));
      if save.FailsUnwritten? {
        return false, Nothing;
      }
      var ledger := LedgerOf(id);
      var saved := ledger.(snapshots := ledger.snapshots + [snapshot]);
      var both := if delta.kind.NoEvent? then saved else saved.(events := saved.events + [delta]);
      step := Record(snapshot.requested, snapshot.granted, delta, true);
      if transactional {
        ledgers := ledgers[id := both];
        return save.Fine?, step;
      }
      NextSound(LedgerOf(id), step.(logged := false));
      ledgers := ledgers[id := saved];
      if delta.kind.NoEvent? {
        return save.Fine?, step;
      }
      if !save.Fine? || append.FailsUnwritten? {
        return false, step.(logged := false);
      }
      ledgers := ledgers[id := both];
      return append.Fine?, step;
    }

    /** The event gets into the store along with the snapshot. */
    predicate Logs(delta: Delta, save: Fault, append: Fault) {
      transactional || delta.kind.NoEvent? || (save.Fine? && !append.FailsUnwritten?)
    }

    /** A note in the history that is not a change of grants; losing it is not reported. */
    method AppendNote(id: string, event: Delta, fails: bool)
      requires Valid() && (event.kind.ReconsentRequested? || event.kind.ReconsentCompleted?)
      modifies this`ledgers
      ensures Valid() && Others(id) == old(Others(id))
      ensures LedgerOf(id) == Next(old(LedgerOf(id)), if fails then Nothing else Note(event))
      ensures Granted(LedgerOf(id)) == old(Granted(LedgerOf(id)))
    {
      hide Sound;
      EmptySound();
      NextSound(LedgerOf(id), Note(event));
      if !fails {
        var ledger := LedgerOf(id);
        ledgers := ledgers[id := ledger.(events := ledger.events + [event])];
      }
    }

    /** Normalising the latest snapshot again finds the set it lists. */
    lemma PreviousSet(id: string)
      requires Valid()
      ensures GrantSet(canon, LatestGranted(LedgerOf(id))) == Granted(LedgerOf(id))
    {
      EmptySound();
      hide Canonical, Numbered, Replays;
      CanonicalSet(canon, LatestGranted(LedgerOf(id)));
    }

    method Reconcile(id: string, aware: Awareness, requested: seq<string>, granted: seq<string>, faults: Faults)
      returns (outcome: Outcome, ghost step: Step)
      requires Valid()
      modifies this`ledgers
      ensures Valid() && Others(id) == old(Others(id))
      ensures Legal(canon, old(LedgerOf(id)), step) && LedgerOf(id) == Next(old(LedgerOf(id)), step)
      ensures transactional ==> !LosesEvent(step)
      ensures outcome.Reconciled? ==>
        && step.Record? && !LosesEvent(step)
        && Latest(LedgerOf(id)) == Some(outcome.snapshot)
        && step.delta == outcome.delta
        && Granted(LedgerOf(id)) == GrantSet(canon, if aware.Rewrites? then aware.grants else granted)
        && Lists(outcome.snapshot.requested, GrantSet(canon, requested))
      // It succeeds exactly when nothing that it has to do fails.
      ensures outcome.Reconciled? <==>
        && !aware.AwareFails? && !faults.get && faults.save.Fine?
        && (transactional || faults.append.Fine? || Meant(granted, aware) == old(Granted(LedgerOf(id))))
      ensures step.Nothing? <==> aware.AwareFails? || faults.get || faults.save.FailsUnwritten?
      // A change of grants loses its event exactly when a store without transactions keeps the snapshot alone.
      ensures LosesEvent(step) <==>
        && !step.Nothing? && !transactional && Meant(granted, aware) != old(Granted(LedgerOf(id)))
        && (faults.save.FailsWritten? || faults.append.FailsUnwritten?)
    {
      hide Valid, Canonical, Lists, GrantSet, NextVersion;
      step := Nothing;
      var wanted := NormalizeGrants(canon, requested);
      var given := NormalizeGrants(canon, granted);
      if aware.AwareFails? {
        return Failed, step;
      }
      if aware.Rewrites? {
        given := NormalizeGrants(canon, aware.grants);
      }
      if faults.get {
        return Failed, step;
      }
      PreviousSet(id);
      var delta := ComputeGrantDelta(canon, LatestGranted(LedgerOf(id)), given);
      var snapshot := Snapshot(NextVersion(LedgerOf(id)), wanted, given);
      var ok;
      ok, step := Commit(id, snapshot, delta, faults.save, faults.append);
      CanonicalSet(canon, given);
      if !ok {
        return Failed, step;
      }
      return Reconciled(snapshot, delta), step;
    }
  }
}
