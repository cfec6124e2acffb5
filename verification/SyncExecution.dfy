/**
 Sync execution: a run appends every change to an idempotent change log and then saves a
 checkpoint, and may be cut short by an error at any of its steps.
 */
module SyncExecution {
  import opened Text
  import opened SegmentKeys

  datatype Direction = Import | Export
  datatype Mode = DryRun | Apply | UnknownMode(name: string)
  datatype Scope = Scope(kind: string, id: string)
  type Document = map<string, string>

  datatype Change = Change(
    sourceObject: string, externalID: string, sourceVersion: string, payload: Document, metadata: Document)

  datatype Checkpoint = Checkpoint(
    providerID: string, scope: Scope, connectionID: string,
    bindingID: string, direction: Option<Direction>,
    cursor: string, sequence: int, sourceVersion: string, updatedAt: int)

  datatype Plan = Plan(bindingID: string, mode: Mode, checkpoint: Checkpoint)

  /** The part of a change-log entry that does not depend on when, or in which run, it was written. */
  datatype Content = Content(
    providerID: string, scope: Scope, connectionID: string, bindingID: string, direction: Direction,
    sourceObject: string, externalID: string, sourceVersion: string, payload: Document)

  datatype Entry = Entry(key: string, content: Content, metadata: Document, occurredAt: int)

  /** Lower-casing, the digest and the redaction of secrets are library code; they are parameters here. */
  datatype Library = Library(lower: string -> string, digest: string -> string, redact: Document -> Document)

  // ---------------------------------------------------------------- keys and contents

  function Normalized(change: Change): Change {
    change.(sourceObject := Trim(change.sourceObject),
            externalID := Trim(change.externalID),
            sourceVersion := Trim(change.sourceVersion))
  }

  function DirectionName(direction: Direction): string {
    if direction == Import then "import" else "export"
  }

  function IdempotencyKey(
    lib: Library, bindingID: string, direction: Direction, externalID: string, sourceVersion: string): string
  {
    var version := Trim(lib.lower(sourceVersion));
    lib.digest(Joined(Segments(
      Trim(lib.lower(bindingID)), DirectionName(direction), Trim(lib.lower(externalID)),
      if version == "" then "_" else version)))
  }

  /** What stays the same from run to run of one binding: where its changes come from and go to. */
  datatype Target = Target(
    providerID: string, scope: Scope, connectionID: string, bindingID: string, direction: Direction)

  function TargetOf(plan: Plan, direction: Direction): Target {
    Target(plan.checkpoint.providerID, plan.checkpoint.scope, plan.checkpoint.connectionID,
           Trim(plan.bindingID), direction)
  }

  function KeyOf(lib: Library, target: Target, change: Change): string {
    var c := Normalized(change);
    IdempotencyKey(lib, target.bindingID, target.direction, c.externalID, c.sourceVersion)
  }

  function ContentOf(lib: Library, target: Target, change: Change): Content {
    var c := Normalized(change);
    Content(target.providerID, target.scope, target.connectionID, target.bindingID, target.direction,
            c.sourceObject, c.externalID, c.sourceVersion, lib.redact(c.payload))
  }

  type Item = (string, Content)

  function Items(lib: Library, target: Target, changes: seq<Change>): (items: seq<Item>)
    ensures |items| == |changes|
  {
    seq(|changes|, i requires 0 <= i < |changes| =>
      (KeyOf(lib, target, changes[i]), ContentOf(lib, target, changes[i])))
  }

  // ---------------------------------------------------------------- the log as a set of effects

  type Effects = map<string, Content>

  ghost function Contents(log: map<string, Entry>): Effects {
    map k | k in log :: log[k].content
  }

  /** Insert the items in order, each only when its key is still free. */
  ghost function Absorb(effects: Effects, items: seq<Item>): Effects {
    if items == [] then effects
    else
      var before := Absorb(effects, items[..|items| - 1]);
      var (key, content) := items[|items| - 1];
      if key in before then before else before[key := content]
  }

  /** The content of the first item with a key. */
  ghost function FirstWith(items: seq<Item>, key: string): Option<Content> {
    if items == [] then None
    else
      var earlier := FirstWith(items[..|items| - 1], key);
      var (k, content) := items[|items| - 1];
      if earlier.None? && k == key then Some(content) else earlier
  }

  lemma {:induction false} FirstWithIsFirst(items: seq<Item>, i: nat)
    requires i < |items| && forall j :: 0 <= j < i ==> items[j].0 != items[i].0
    ensures FirstWith(items, items[i].0) == Some(items[i].1)
  {
    var front := items[..|items| - 1];
    if i < |front| {
      assert front[i] == items[i];
      FirstWithIsFirst(front, i);
    } else {
      AbsentWith(front, items[i].0);
    }
  }

  lemma {:induction false} AbsentWith(items: seq<Item>, key: string)
    ensures FirstWith(items, key).None? <==> forall j :: 0 <= j < |items| ==> items[j].0 != key
  {
    if items != [] {
      var front := items[..|items| - 1];
      AbsentWith(front, key);
      assert forall j :: 0 <= j < |front| ==> front[j] == items[j];
    }
  }

  lemma {:induction false} FirstWithPrefix(items: seq<Item>, a: nat, b: nat, key: string)
    requires a <= b <= |items| && FirstWith(items[..a], key).Some?
    ensures FirstWith(items[..b], key) == FirstWith(items[..a], key)
  {
    if a < b {
      FirstWithPrefix(items, a, b - 1, key);
      assert items[..b][..b - 1] == items[..b - 1];
    }
  }

  /** One entry per distinct key: what was there stays, and a new key carries its first item. */
  lemma {:induction false} AbsorbMeaning(effects: Effects, items: seq<Item>, key: string)
    ensures key in Absorb(effects, items) <==> key in effects || FirstWith(items, key).Some?
    ensures key in effects ==> Absorb(effects, items)[key] == effects[key]
    ensures key !in effects && key in Absorb(effects, items) ==>
              FirstWith(items, key) == Some(Absorb(effects, items)[key])
  {
    if items != [] {
      AbsorbMeaning(effects, items[..|items| - 1], key);
    }
  }

  /** Replaying a prefix of the same list, or extending it, depends only on how far either pass got. */
  lemma AbsorbTwice(effects: Effects, items: seq<Item>, a: nat, b: nat)
    requires a <= |items| && b <= |items|
    ensures Absorb(Absorb(effects, items[..a]), items[..b]) == Absorb(effects, items[..if a < b then b else a])
  {
    var far := if a < b then b else a;
    var once, twice := Absorb(effects, items[..far]), Absorb(Absorb(effects, items[..a]), items[..b]);
    forall key
      ensures key in once <==> key in twice
      ensures key in once ==> once[key] == twice[key]
    {
      AbsorbMeaning(effects, items[..a], key);
      AbsorbMeaning(effects, items[..far], key);
      AbsorbMeaning(Absorb(effects, items[..a]), items[..b], key);
      if FirstWith(items[..a], key).Some? { FirstWithPrefix(items, a, far, key); }
      if FirstWith(items[..b], key).Some? { FirstWithPrefix(items, b, far, key); }
    }
  }

  // ---------------------------------------------------------------- which changes share an entry

  ghost predicate Injective(digest: string -> string) { forall x, y :: digest(x) == digest(y) ==> x == y }

  /** What tells changes apart: case and outer spaces do not, and a blank version reads "_". */
  ghost function Identity(
    lib: Library, bindingID: string, direction: Direction, externalID: string, sourceVersion: string): Segments
  {
    Segments(
      Trim(lib.lower(bindingID)),
      match direction { case Import => "import" case Export => "export" },
      Trim(lib.lower(externalID)),
      if Trim(lib.lower(sourceVersion)) == "" then "_" else Trim(lib.lower(sourceVersion)))
  }

  lemma KeyJoins(lib: Library, bindingID: string, direction: Direction, externalID: string, sourceVersion: string)
    ensures IdempotencyKey(lib, bindingID, direction, externalID, sourceVersion)
         == lib.digest(Joined(Identity(lib, bindingID, direction, externalID, sourceVersion)))
  {
    hide Joined;
  }

  /**
   Two keys are the same exactly when the one's segments group the pieces of the other's, and so, if the segments
   of either hold no bar, exactly when binding, direction, external id and version agree.
   */
  lemma KeysAlikeExactly(
    lib: Library, bindingA: string, directionA: Direction, externalA: string, versionA: string,
    bindingB: string, directionB: Direction, externalB: string, versionB: string)
    requires Injective(lib.digest)
    ensures var (a, b) := (Identity(lib, bindingA, directionA, externalA, versionA),
                           Identity(lib, bindingB, directionB, externalB, versionB));
      var alike := IdempotencyKey(lib, bindingA, directionA, externalA, versionA)
                == IdempotencyKey(lib, bindingB, directionB, externalB, versionB);
      && (alike <==> Regroups(a, b))
      && (BarFree(a) ==> (alike <==> a == b))
  {
    hide IdempotencyKey, Identity, Joined, Regroups, BarFree;
    KeyJoins(lib, bindingA, directionA, externalA, versionA);
    KeyJoins(lib, bindingB, directionB, externalB, versionB);
    var a, b := Identity(lib, bindingA, directionA, externalA, versionA),
                Identity(lib, bindingB, directionB, externalB, versionB);
    AlikeExactly(a, b);
    if BarFree(a) { BarFreeIsUnlike(a, b); }
  }

  /** Segments that some change has. */
  ghost predicate Canonical(lib: Library, s: Segments) {
    && Trim(lib.lower(s.first)) == s.first && s.second in {"import", "export"}
    && Trim(lib.lower(s.third)) == s.third && Trim(lib.lower(s.fourth)) == s.fourth && s.fourth != ""
  }

  ghost predicate LowersOnce(lib: Library) {
    (forall s :: Trim(lib.lower(Trim(lib.lower(s)))) == Trim(lib.lower(s))) && Trim(lib.lower("_")) == "_"
  }

  lemma IdentityCanonical(lib: Library, bindingID: string, direction: Direction, externalID: string, version: string)
    requires LowersOnce(lib)
    ensures Canonical(lib, Identity(lib, bindingID, direction, externalID, version))
  {
    hide Trim;
  }

  lemma CanonicalIsIdentity(lib: Library, s: Segments) returns (direction: Direction)
    requires Canonical(lib, s)
    ensures Identity(lib, s.first, direction, s.third, s.fourth) == s
  {
    hide Trim;
    direction := if s.second == "import" then Import else Export;
  }

  /** No change of another identity has this key. */
  ghost predicate KeyIsOwn(lib: Library, own: Segments) {
    forall bindingID, direction, externalID, version ::
      IdempotencyKey(lib, bindingID, direction, externalID, version) == lib.digest(Joined(own)) ==>
        Identity(lib, bindingID, direction, externalID, version) == own
  }

  /** A key is of one identity if and only if no other grouping of its pieces is canonical. */
  lemma KeyIsOwnExactly(lib: Library, bindingID: string, direction: Direction, externalID: string, version: string)
    requires Injective(lib.digest) && LowersOnce(lib)
    ensures var own := Identity(lib, bindingID, direction, externalID, version);
      && lib.digest(Joined(own)) == IdempotencyKey(lib, bindingID, direction, externalID, version)
      && (KeyIsOwn(lib, own) <==>
            forall i: nat, j: nat, k: nat :: 0 < i < j < k < |Pieces(own)| ==>
              Canonical(lib, Grouped(Pieces(own), i, j, k)) ==> Grouped(Pieces(own), i, j, k) == own)
  {
    var own := Identity(lib, bindingID, direction, externalID, version);
    KeyJoins(lib, bindingID, direction, externalID, version);
    hide IdempotencyKey, Identity, Joined, Grouped, Pieces, Canonical, LowersOnce;
    if KeyIsOwn(lib, own) {
      forall i: nat, j: nat, k: nat | 0 < i < j < k < |Pieces(own)| && Canonical(lib, Grouped(Pieces(own), i, j, k))
        ensures Grouped(Pieces(own), i, j, k) == own
      {
        var s := Grouped(Pieces(own), i, j, k);
        var way := CanonicalIsIdentity(lib, s);
        KeyJoins(lib, s.first, way, s.third, s.fourth);
        GroupingKeepsJoined(own, i, j, k);
      }
    }
    if forall i: nat, j: nat, k: nat :: 0 < i < j < k < |Pieces(own)| ==>
         Canonical(lib, Grouped(Pieces(own), i, j, k)) ==> Grouped(Pieces(own), i, j, k) == own
    {
      forall b, d, e, v | IdempotencyKey(lib, b, d, e, v) == lib.digest(Joined(own))
        ensures Identity(lib, b, d, e, v) == own
      {
        KeyJoins(lib, b, d, e, v);
        AlikeExactly(own, Identity(lib, b, d, e, v));
        IdentityCanonical(lib, b, d, e, v);
      }
    }
  }

  /** Changes in the order in which they reach the log, each with where it comes from and goes to. */
  type Feed = seq<(Target, Change)>

  ghost function FeedItems(lib: Library, feed: Feed): (items: seq<Item>)
    ensures |items| == |feed|
  {
    seq(|feed|, i requires 0 <= i < |feed| => (KeyOf(lib, feed[i].0, feed[i].1), ContentOf(lib, feed[i].0, feed[i].1)))
  }

  ghost function IdentityAt(lib: Library, feed: Feed, i: nat): Segments
    requires i < |feed|
  {
    var (target, change) := feed[i];
    Identity(lib, target.bindingID, target.direction, Trim(change.externalID), Trim(change.sourceVersion))
  }

  ghost function IdentityIn(lib: Library, content: Content): Segments {
    Identity(lib, content.bindingID, content.direction, content.externalID, content.sourceVersion)
  }

  /** The entry says what the change said, without outer spaces and with its secrets redacted. */
  ghost predicate Records(lib: Library, content: Content, target: Target, change: Change) {
    && content.providerID == target.providerID && content.scope == target.scope
    && content.connectionID == target.connectionID && content.bindingID == target.bindingID
    && content.direction == target.direction
    && content.sourceObject == Trim(change.sourceObject) && content.externalID == Trim(change.externalID)
    && content.sourceVersion == Trim(change.sourceVersion) && content.payload == lib.redact(change.payload)
  }

  /** The entry is that of change `i`, which is the first of its identity. */
  ghost predicate RecordsFirst(lib: Library, feed: Feed, content: Content, i: nat) {
    && i < |feed| && Records(lib, content, feed[i].0, feed[i].1)
    && forall j :: 0 <= j < i ==> IdentityAt(lib, feed, j) != IdentityAt(lib, feed, i)
  }

  ghost predicate Recorded(lib: Library, contents: Effects, identity: Segments) {
    exists k :: k in contents && IdentityIn(lib, contents[k]) == identity
  }

  /** The log holds exactly one entry for every identity among the changes, and it is that of the first such change. */
  ghost predicate OnePerIdentity(lib: Library, feed: Feed, contents: Effects) {
    && (forall i: nat :: i < |feed| ==> Recorded(lib, contents, IdentityAt(lib, feed, i)))
    && (forall k, l :: k in contents && l in contents && IdentityIn(lib, contents[k]) == IdentityIn(lib, contents[l])
          ==> k == l)
    && (forall k :: k in contents ==> exists i: nat :: RecordsFirst(lib, feed, contents[k], i))
  }

  /** No two different identities among the changes read alike once joined by bars. */
  ghost predicate NoneAlike(lib: Library, feed: Feed) {
    forall i: nat, j: nat :: i < |feed| && j < |feed| ==> !Alike(lib, feed, i, j)
  }

  ghost predicate Alike(lib: Library, feed: Feed, i: nat, j: nat)
    requires i < |feed| && j < |feed|
  {
    && IdentityAt(lib, feed, i) != IdentityAt(lib, feed, j)
    && Joined(IdentityAt(lib, feed, i)) == Joined(IdentityAt(lib, feed, j))
  }

  lemma {:induction false} FirstIndex(items: seq<Item>, key: string) returns (f: nat)
    requires FirstWith(items, key).Some?
    ensures f < |items| && items[f].0 == key && FirstWith(items, key) == Some(items[f].1)
    ensures forall j :: 0 <= j < f ==> items[j].0 != key
  {
    var front := items[..|items| - 1];
    if FirstWith(front, key).Some? {
      f := FirstIndex(front, key);
    } else {
      AbsentWith(front, key);
      f := |items| - 1;
      assert forall j :: 0 <= j < f ==> front[j] == items[j];
    }
  }

  lemma ItemAt(lib: Library, feed: Feed, i: nat)
    requires i < |feed|
    ensures FeedItems(lib, feed)[i].0 == lib.digest(Joined(IdentityAt(lib, feed, i)))
    ensures var content := FeedItems(lib, feed)[i].1;
      Records(lib, content, feed[i].0, feed[i].1) && IdentityIn(lib, content) == IdentityAt(lib, feed, i)
  {
    hide Trim, Joined, Identity, IdempotencyKey;
    var (target, change) := feed[i];
    KeyJoins(lib, target.bindingID, target.direction, Trim(change.externalID), Trim(change.sourceVersion));
  }

  /** Every entry is that of the first change with its key. */
  lemma EntryFrom(lib: Library, feed: Feed, key: string) returns (f: nat)
    requires key in Absorb(map[], FeedItems(lib, feed))
    ensures f < |feed| && key == lib.digest(Joined(IdentityAt(lib, feed, f)))
    ensures var content := Absorb(map[], FeedItems(lib, feed))[key];
      Records(lib, content, feed[f].0, feed[f].1) && IdentityIn(lib, content) == IdentityAt(lib, feed, f)
    ensures forall j :: 0 <= j < f ==> IdentityAt(lib, feed, j) != IdentityAt(lib, feed, f)
  {
    hide *;
    var items := FeedItems(lib, feed);
    AbsorbMeaning(map[], items, key);
    f := FirstIndex(items, key);
    ItemAt(lib, feed, f);
    forall j | 0 <= j < f ensures IdentityAt(lib, feed, j) != IdentityAt(lib, feed, f) { ItemAt(lib, feed, j); }
  }

  lemma EntryFor(lib: Library, feed: Feed, i: nat)
    requires i < |feed|
    ensures lib.digest(Joined(IdentityAt(lib, feed, i))) in Absorb(map[], FeedItems(lib, feed))
  {
    hide *;
    var items := FeedItems(lib, feed);
    ItemAt(lib, feed, i);
    AbsentWith(items, items[i].0);
    AbsorbMeaning(map[], items, items[i].0);
  }

  lemma UnlikeGivesOne(lib: Library, feed: Feed)
    requires Injective(lib.digest) && NoneAlike(lib, feed)
    ensures OnePerIdentity(lib, feed, Absorb(map[], FeedItems(lib, feed)))
  {
    hide Absorb, FeedItems, IdentityAt, IdentityIn, Joined, Records;
    var contents := Absorb(map[], FeedItems(lib, feed));
    forall i: nat | i < |feed| ensures Recorded(lib, contents, IdentityAt(lib, feed, i)) {
      EntryFor(lib, feed, i);
      var f := EntryFrom(lib, feed, lib.digest(Joined(IdentityAt(lib, feed, i))));
      assert !Alike(lib, feed, i, f);
    }
    forall k, l | k in contents && l in contents && IdentityIn(lib, contents[k]) == IdentityIn(lib, contents[l])
      ensures k == l
    {
      var f := EntryFrom(lib, feed, k);
      var g := EntryFrom(lib, feed, l);
    }
    forall k | k in contents ensures exists i: nat :: RecordsFirst(lib, feed, contents[k], i) {
      var f := EntryFrom(lib, feed, k);
      assert RecordsFirst(lib, feed, contents[k], f);
    }
  }

  lemma RecordedUnderKey(lib: Library, feed: Feed, i: nat)
    requires i < |feed|
    ensures var contents, key := Absorb(map[], FeedItems(lib, feed)), lib.digest(Joined(IdentityAt(lib, feed, i)));
      Recorded(lib, contents, IdentityAt(lib, feed, i)) ==>
        key in contents && IdentityIn(lib, contents[key]) == IdentityAt(lib, feed, i)
  {
    hide Absorb, FeedItems, IdentityAt, IdentityIn, Joined, Records;
    var contents := Absorb(map[], FeedItems(lib, feed));
    if k :| k in contents && IdentityIn(lib, contents[k]) == IdentityAt(lib, feed, i) {
      var f := EntryFrom(lib, feed, k);
    }
  }

  /**
   What any changes leave in an empty log is one entry for every identity among them, that of its first change, if
   and only if no two identities among them read alike.
   */
  lemma OneEntryEachExactly(lib: Library, feed: Feed)
    requires Injective(lib.digest)
    ensures OnePerIdentity(lib, feed, Absorb(map[], FeedItems(lib, feed))) <==> NoneAlike(lib, feed)
  {
    if NoneAlike(lib, feed) { UnlikeGivesOne(lib, feed); }
    hide Absorb, FeedItems, IdentityAt, IdentityIn, Joined, Recorded, RecordsFirst;
    var contents := Absorb(map[], FeedItems(lib, feed));
    if OnePerIdentity(lib, feed, contents) {
      forall i: nat, j: nat | i < |feed| && j < |feed| ensures !Alike(lib, feed, i, j) {
        RecordedUnderKey(lib, feed, i);
        RecordedUnderKey(lib, feed, j);
      }
    }
  }

  /** The changes of one run. */
  ghost function FeedOf(target: Target, changes: seq<Change>): (feed: Feed)
    ensures |feed| == |changes|
  {
    seq(|changes|, i requires 0 <= i < |changes| => (target, changes[i]))
  }

  lemma FeedOfRun(lib: Library, target: Target, changes: seq<Change>)
    ensures FeedItems(lib, FeedOf(target, changes)) == Items(lib, target, changes)
  {
    hide KeyOf, ContentOf;
  }

  /** The log that one run leaves and another builds on. */
  lemma {:induction false} AbsorbAppend(effects: Effects, xs: seq<Item>, ys: seq<Item>)
    ensures Absorb(effects, xs + ys) == Absorb(Absorb(effects, xs), ys)
  {
    if ys == [] {
      assert xs + ys == xs;
    } else {
      var front := ys[..|ys| - 1];
      AbsorbAppend(effects, xs, front);
      assert (xs + ys)[..|xs + ys| - 1] == xs + front;
    }
  }

  function LowerTrimmed(lib: Library, s: string): string { Trim(lib.lower(Trim(s))) }

  function VersionRead(lib: Library, s: string): string {
    if LowerTrimmed(lib, s) == "" then "_" else LowerTrimmed(lib, s)
  }

  /** Within one run only external id and version count: no two pairs read alike with a bar between them. */
  ghost predicate NoPairsAlike(lib: Library, changes: seq<Change>) {
    forall a, b :: a in changes && b in changes ==> !PairAlike(lib, a, b)
  }

  ghost predicate PairAlike(lib: Library, a: Change, b: Change) {
    var (x, y) := (LowerTrimmed(lib, a.externalID), VersionRead(lib, a.sourceVersion));
    var (z, w) := (LowerTrimmed(lib, b.externalID), VersionRead(lib, b.sourceVersion));
    (x != z || y != w) && x + ['|'] + y == z + ['|'] + w
  }

  lemma IdentityOfRun(lib: Library, target: Target, changes: seq<Change>, i: nat)
    requires i < |changes|
    ensures var identity := IdentityAt(lib, FeedOf(target, changes), i);
      && identity == Segments(Trim(lib.lower(target.bindingID)), identity.second,
                              LowerTrimmed(lib, changes[i].externalID), VersionRead(lib, changes[i].sourceVersion))
      && identity.second == if target.direction == Import then "import" else "export"
  {
    hide Trim;
  }

  lemma AlikeBehind(front: string, x: string, y: string)
    ensures front + ['|'] + x == front + ['|'] + y <==> x == y
  {
    if front + ['|'] + x == front + ['|'] + y {
      assert x == (front + ['|'] + x)[|front| + 1..];
      assert y == (front + ['|'] + y)[|front| + 1..];
    }
  }

  /** The same binding and direction stand before both. */
  lemma JoinedBehind(a: Segments, b: Segments)
    requires a.first == b.first && a.second == b.second
    ensures Joined(a) == Joined(b) <==> a.third + ['|'] + a.fourth == b.third + ['|'] + b.fourth
  {
    hide Joined;
    JoinedNested(a);
    JoinedNested(b);
    var x, y := a.third + ['|'] + a.fourth, b.third + ['|'] + b.fourth;
    AlikeBehind(a.first, a.second + ['|'] + x, b.second + ['|'] + y);
    AlikeBehind(a.second, x, y);
  }

  lemma RunIdentitiesAlike(lib: Library, target: Target, changes: seq<Change>, i: nat, j: nat)
    requires i < |changes| && j < |changes|
    ensures var (feed, a, b) := (FeedOf(target, changes), changes[i], changes[j]);
      && (Joined(IdentityAt(lib, feed, i)) == Joined(IdentityAt(lib, feed, j)) <==>
            LowerTrimmed(lib, a.externalID) + ['|'] + VersionRead(lib, a.sourceVersion)
            == LowerTrimmed(lib, b.externalID) + ['|'] + VersionRead(lib, b.sourceVersion))
      && (IdentityAt(lib, feed, i) == IdentityAt(lib, feed, j) <==>
            LowerTrimmed(lib, a.externalID) == LowerTrimmed(lib, b.externalID)
            && VersionRead(lib, a.sourceVersion) == VersionRead(lib, b.sourceVersion))
  {
    hide *;
    IdentityOfRun(lib, target, changes, i);
    IdentityOfRun(lib, target, changes, j);
    JoinedBehind(IdentityAt(lib, FeedOf(target, changes), i), IdentityAt(lib, FeedOf(target, changes), j));
  }

  /** One run on an empty log leaves one entry per external id and version exactly when no two pairs read alike. */
  lemma OneRunOneEntryEach(lib: Library, target: Target, changes: seq<Change>)
    requires Injective(lib.digest)
    ensures OnePerIdentity(lib, FeedOf(target, changes), Absorb(map[], Items(lib, target, changes)))
      <==> NoPairsAlike(lib, changes)
  {
    var feed := FeedOf(target, changes);
    hide OnePerIdentity, Absorb, FeedItems, Items, FeedOf, IdentityAt, Joined, LowerTrimmed, VersionRead;
    FeedOfRun(lib, target, changes);
    OneEntryEachExactly(lib, feed);
    forall i: nat, j: nat | i < |changes| && j < |changes|
      ensures Alike(lib, feed, i, j) <==> PairAlike(lib, changes[i], changes[j])
    {
      RunIdentitiesAlike(lib, target, changes, i, j);
    }
    if NoneAlike(lib, feed) {
      forall a, b | a in changes && b in changes ensures !PairAlike(lib, a, b) {
        var i: nat :| i < |changes| && changes[i] == a;
        var j: nat :| j < |changes| && changes[j] == b;
        assert Alike(lib, feed, i, j) <==> PairAlike(lib, changes[i], changes[j]);
      }
    }
    if NoPairsAlike(lib, changes) {
      forall i: nat, j: nat | i < |feed| && j < |feed| ensures !Alike(lib, feed, i, j) {
        assert Alike(lib, feed, i, j) <==> PairAlike(lib, changes[i], changes[j]);
      }
    }
  }

  /** Without bars in the external ids, or without bars in the versions, no two pairs of a run read alike. */
  lemma BarFreePairs(lib: Library, changes: seq<Change>)
    requires (forall c :: c in changes ==> '|' !in LowerTrimmed(lib, c.externalID))
      || (forall c :: c in changes ==> '|' !in VersionRead(lib, c.sourceVersion))
    ensures NoPairsAlike(lib, changes)
  {
    hide LowerTrimmed, VersionRead;
    forall a, b | a in changes && b in changes ensures !PairAlike(lib, a, b) {
      PairsUnlike(LowerTrimmed(lib, a.externalID), VersionRead(lib, a.sourceVersion),
                  LowerTrimmed(lib, b.externalID), VersionRead(lib, b.sourceVersion), '|');
    }
  }

  /** With bars in both, one of two records goes unrecorded. */
  lemma PairsCollide(lib: Library, target: Target, x: Change, y: Change)
    requires Injective(lib.digest) && lib.lower("a|b") == "a|b" && lib.lower("c") == "c"
      && lib.lower("a") == "a" && lib.lower("b|c") == "b|c"
    requires x.externalID == "a|b" && x.sourceVersion == "c" && y.externalID == "a" && y.sourceVersion == "b|c"
    ensures !NoPairsAlike(lib, [x, y])
    ensures !OnePerIdentity(lib, FeedOf(target, [x, y]), Absorb(map[], Items(lib, target, [x, y])))
  {
    assert Trim("a|b") == "a|b" && Trim("c") == "c" && Trim("a") == "a" && Trim("b|c") == "b|c";
    hide Trim;
    assert "a|b" + ['|'] + "c" == "a" + ['|'] + "b|c";
    assert x in [x, y] && y in [x, y] && PairAlike(lib, x, y);
    hide Absorb, Items, FeedOf, OnePerIdentity, NoPairsAlike;
    assert !NoPairsAlike(lib, [x, y]) by { if NoPairsAlike(lib, [x, y]) { NotAlike(lib, [x, y], x, y); } }
    OneRunOneEntryEach(lib, target, [x, y]);
  }

  lemma NotAlike(lib: Library, changes: seq<Change>, a: Change, b: Change)
    requires NoPairsAlike(lib, changes) && a in changes && b in changes
    ensures !PairAlike(lib, a, b)
  {
  }

  /** A log that any runs of any bindings built stays the log of all their changes under one more run, cut or not. */
  lemma LogOfRuns(lib: Library, feed: Feed, target: Target, changes: seq<Change>, before: Effects, after: Effects,
                  reached: nat)
    requires before == Absorb(map[], FeedItems(lib, feed))
    requires CutRun(Items(lib, target, changes), before, after, reached)
    ensures after == Absorb(map[], FeedItems(lib, feed + FeedOf(target, changes[..reached])))
  {
    hide Absorb, KeyOf, ContentOf;
    var more := FeedOf(target, changes[..reached]);
    assert Items(lib, target, changes)[..reached] == FeedItems(lib, more);
    assert FeedItems(lib, feed + more) == FeedItems(lib, feed) + FeedItems(lib, more);
    AbsorbAppend(map[], FeedItems(lib, feed), FeedItems(lib, more));
  }

  // ---------------------------------------------------------------- histories of runs

  /** One apply run that got as far as logging `reached` changes. */
  ghost predicate CutRun(items: seq<Item>, before: Effects, after: Effects, reached: nat) {
    reached <= |items| && after == Absorb(before, items[..reached])
  }

  /**
   Exactly-once effect: any history of runs over one change list, each cut short anywhere, followed by
   one run that reaches the end, leaves what a single uninterrupted run would have left.
   */
  lemma {:induction false} ExactlyOnce(items: seq<Item>, logs: seq<Effects>, reached: seq<nat>)
    requires |logs| == |reached| + 1 && |reached| > 0
    requires forall r :: 0 <= r < |reached| ==> CutRun(items, logs[r], logs[r + 1], reached[r])
    requires reached[|reached| - 1] == |items|
    ensures logs[|reached|] == Absorb(logs[0], items)
  {
    var runs := |reached|;
    var far := HistorySoFar(items, logs[..runs], reached[..runs - 1]);
    assert CutRun(items, logs[runs - 1], logs[runs], reached[runs - 1]);
    AbsorbTwice(logs[0], items, far, |items|);
    assert items[..|items|] == items;
  }

  lemma {:induction false} HistorySoFar(items: seq<Item>, logs: seq<Effects>, reached: seq<nat>) returns (far: nat)
    requires |logs| == |reached| + 1
    requires forall r :: 0 <= r < |reached| ==> CutRun(items, logs[r], logs[r + 1], reached[r])
    ensures far <= |items| && logs[|reached|] == Absorb(logs[0], items[..far])
  {
    if |reached| == 0 {
      far := 0;
    } else {
      var last := |reached| - 1;
      var soFar := HistorySoFar(items, logs[..last + 1], reached[..last]);
      assert CutRun(items, logs[last], logs[last + 1], reached[last]);
      AbsorbTwice(logs[0], items, soFar, reached[last]);
      far := if soFar < reached[last] then reached[last] else soFar;
    }
  }

  // ---------------------------------------------------------------- the service

  datatype StepEnv = StepEnv(append: Fault, save: Fault, publishes: bool, stampedAt: int, occurredAt: int)
  datatype Env = Env(startPublishes: bool, endPublishes: bool, step: nat -> StepEnv)

  datatype Status = Succeeded | Failed | Unset
  datatype RunResult = RunResult(status: Status, processed: nat, skipped: nat, failed: nat, next: Option<Checkpoint>)
  datatype RunError = NoError | InvalidPlan | BlankExternalID | AppendFailed | SaveFailed | PublishFailed

  const NO_RESULT := RunResult(Unset, 0, 0, 0, None)

  predicate PlanAccepted(plan: Plan, direction: Direction) {
    var binding := Trim(plan.bindingID);
    && binding != ""
    && !plan.mode.UnknownMode?
    && (plan.checkpoint.bindingID == "" || plan.checkpoint.bindingID == binding)
    && (plan.checkpoint.direction == None || plan.checkpoint.direction == Some(direction))
  }

  /** The source version a checkpoint carries once the first `n` changes are behind it. */
  function VersionAfter(start: Checkpoint, changes: seq<Change>, n: nat): string
    requires n <= |changes|
  {
    if n == 0 then start.sourceVersion else Trim(changes[n - 1].sourceVersion)
  }

  function Merged(left: Document, right: Document): Document { right + left }

  /** The result of a run that failed at a change, with a checkpoint that counts the first `n` changes. */
  ghost predicate FailedAt(plan: Plan, changes: seq<Change>, result: RunResult, n: int) {
    && result.status == Failed && result.failed == 1 && result.next.Some?
    && 0 <= n <= |changes| && result.next.value.sequence == plan.checkpoint.sequence + n
    && result.next.value.sourceVersion == VersionAfter(plan.checkpoint, changes, n)
  }

  /**
   What a failed run reports: an announcement that fails leaves no result; a blank id stops before its change, a
   failed save after it, and in an apply run both have counted exactly what the log gained. A failed append hands
   back a checkpoint that counts its change, whether or not the log holds it.
   */
  ghost predicate Reports(
    plan: Plan, changes: seq<Change>, result: RunResult, err: RunError, reached: nat, grown: int)
  {
    var counted := result.processed + result.skipped;
    match err
    case NoError => true
    case InvalidPlan => result == NO_RESULT
    case PublishFailed => result == NO_RESULT
    case BlankExternalID =>
      && counted < |changes| && Trim(changes[counted].externalID) == ""
      && FailedAt(plan, changes, result, counted)
      && (plan.mode.Apply? ==> reached == counted && result.processed == grown)
    case SaveFailed => reached == counted && result.processed == grown && FailedAt(plan, changes, result, counted)
    case AppendFailed =>
      && FailedAt(plan, changes, result, counted + 1)
      && (reached == counted || reached == counted + 1)
      && result.processed <= grown <= result.processed + reached - counted
  }

  function Stopped(result: RunResult, checkpoint: Checkpoint): RunResult {
    result.(status := Failed, failed := result.failed + 1, next := Some(checkpoint))
  }

  lemma StoppedFails(
    plan: Plan, start: Checkpoint, changes: seq<Change>, result: RunResult, checkpoint: Checkpoint, n: nat)
    requires n <= |changes| && result.failed == 0
    requires start == plan.checkpoint.(bindingID := start.bindingID, direction := start.direction)
    requires checkpoint.sequence == start.sequence + n && checkpoint.sourceVersion == VersionAfter(start, changes, n)
    ensures FailedAt(plan, changes, Stopped(result, checkpoint), n)
  {
  }

  type Checkpoints = map<(string, Direction), Checkpoint>

  /** At most the plan's own slot changed, and what it holds counts at most `reached` changes. */
  ghost predicate SavedWithin(
    before: Checkpoints, after: Checkpoints, plan: Plan, direction: Direction, changes: seq<Change>, reached: nat)
  {
    var slot := (Trim(plan.bindingID), direction);
    after == before
    || (slot in after && after == before[slot := after[slot]] && Counts(after[slot], plan, changes, reached))
  }

  ghost predicate Counts(checkpoint: Checkpoint, plan: Plan, changes: seq<Change>, reached: nat) {
    var k := checkpoint.sequence - plan.checkpoint.sequence;
    && 0 < k <= reached <= |changes|
    && checkpoint == plan.checkpoint.(
         bindingID := Trim(plan.bindingID), direction := checkpoint.direction, sequence := checkpoint.sequence,
         sourceVersion := VersionAfter(plan.checkpoint, changes, k), updatedAt := checkpoint.updatedAt)
  }

  lemma SavedNothing(before: Checkpoints, plan: Plan, direction: Direction, changes: seq<Change>)
    ensures SavedWithin(before, before, plan, direction, changes, 0)
  {
  }

  lemma SavedMore(
    before: Checkpoints, mid: Checkpoints, after: Checkpoints, plan: Plan, direction: Direction,
    changes: seq<Change>, reached: nat, further: nat, checkpoint: Checkpoint)
    requires SavedWithin(before, mid, plan, direction, changes, reached) && reached <= further <= |changes|
    requires after == mid
      || (after == mid[(Trim(plan.bindingID), direction) := checkpoint] && Counts(checkpoint, plan, changes, further))
    ensures SavedWithin(before, after, plan, direction, changes, further)
  {
    var slot := (Trim(plan.bindingID), direction);
    if after != mid {
      assert after == before[slot := checkpoint];
    }
  }

  lemma KeysLogged(
    lib: Library, target: Target, changes: seq<Change>, before: map<string, Entry>, log: map<string, Entry>,
    reached: nat)
    requires CutRun(Items(lib, target, changes), Contents(before), Contents(log), reached)
    ensures forall i :: 0 <= i < reached ==> KeyOf(lib, target, changes[i]) in log
  {
    hide Absorb, KeyOf, ContentOf;
    var items := Items(lib, target, changes);
    forall i | 0 <= i < reached ensures KeyOf(lib, target, changes[i]) in log {
      AbsorbMeaning(Contents(before), items[..reached], items[i].0);
      AbsentWith(items[..reached], items[i].0);
      assert items[..reached][i] == items[i];
      assert items[i].0 in Contents(log);
    }
  }

  /** What the stores held before the run. */
  datatype Base = Base(contents: Effects, saved: Checkpoints, size: nat)

  /** Where the checkpoint and the counters stand after `n` changes, in either mode. */
  ghost predicate Counted(start: Checkpoint, changes: seq<Change>, result: RunResult, checkpoint: Checkpoint, n: nat) {
    && n <= |changes| && result.status == Succeeded && result.failed == 0 && result.processed + result.skipped == n
    && checkpoint == start.(sequence := start.sequence + n, sourceVersion := VersionAfter(start, changes, n),
                            updatedAt := checkpoint.updatedAt)
  }

  lemma CountedMeans(start: Checkpoint, changes: seq<Change>, result: RunResult, checkpoint: Checkpoint, n: nat)
    requires Counted(start, changes, result, checkpoint, n)
    ensures n <= |changes| && result.status == Succeeded && result.failed == 0 && result.processed + result.skipped == n
    ensures checkpoint.sequence == start.sequence + n && checkpoint.sourceVersion == VersionAfter(start, changes, n)
  {
  }

  lemma NothingCounted(start: Checkpoint, changes: seq<Change>)
    ensures Counted(start, changes, RunResult(Succeeded, 0, 0, 0, None), start, 0)
  {
  }

  /** A change of a dry run is counted and moves the checkpoint on. */
  lemma DryCounted(
    start: Checkpoint, changes: seq<Change>, result: RunResult, checkpoint: Checkpoint, n: nat, next: Checkpoint)
    requires n < |changes| && Counted(start, changes, result, checkpoint, n)
    requires next == checkpoint.(
      sequence := start.sequence + n + 1, bindingID := start.bindingID, direction := start.direction,
      sourceVersion := Normalized(changes[n]).sourceVersion, updatedAt := next.updatedAt)
    ensures Counted(start, changes, result.(processed := result.processed + 1), next, n + 1)
  {
    hide Trim;
  }

  lemma SameVersion(plan: Plan, start: Checkpoint, changes: seq<Change>, n: nat)
    requires n <= |changes| && start.sourceVersion == plan.checkpoint.sourceVersion
    ensures VersionAfter(start, changes, n) == VersionAfter(plan.checkpoint, changes, n)
  {
  }

  function Tallied(result: RunResult, applied: bool): RunResult {
    if applied then result.(processed := result.processed + 1) else result.(skipped := result.skipped + 1)
  }

  /** What each way of ending a change has to report. */
  lemma StepReports(
    plan: Plan, start: Checkpoint, changes: seq<Change>, result: RunResult, next: Checkpoint, applied: bool,
    err: RunError, reached: nat, grown: int, n: nat)
    requires start == plan.checkpoint.(bindingID := start.bindingID, direction := start.direction)
    requires n < |changes| && Counted(start, changes, result, next.(sequence := start.sequence + n,
                                      sourceVersion := VersionAfter(start, changes, n)), n)
    requires next.sequence == start.sequence + n + 1 && next.sourceVersion == VersionAfter(start, changes, n + 1)
    requires reached == n || reached == n + 1
    requires err == AppendFailed ==> result.processed <= grown <= result.processed + reached - n
    requires err != AppendFailed ==> reached == n + 1 && grown == Tallied(result, applied).processed
    ensures err == AppendFailed ==> Reports(plan, changes, Stopped(result, next), err, reached, grown)
    ensures err == SaveFailed ==> Reports(plan, changes, Stopped(Tallied(result, applied), next), err, reached, grown)
    ensures err == PublishFailed ==> Reports(plan, changes, NO_RESULT, err, reached, grown)
    ensures err == NoError ==>
      && Reports(plan, changes, Tallied(result, applied), err, reached, grown)
      && Counted(start, changes, Tallied(result, applied), next, n + 1)
  {
    hide Trim;
  }

  lemma TalliedMeans(result: RunResult)
    ensures Tallied(result, true).processed == result.processed + 1
    ensures Tallied(result, false).processed == result.processed
  {
  }

  /** The checkpoint that counts change `n`, as the stores and the report see it. */
  lemma NextMeans(
    plan: Plan, start: Checkpoint, changes: seq<Change>, n: nat, result: RunResult, checkpoint: Checkpoint,
    next: Checkpoint, direction: Direction)
    requires start == plan.checkpoint.(bindingID := Trim(plan.bindingID), direction := Some(direction))
    requires n < |changes| && Counted(start, changes, result, checkpoint, n)
    requires next == checkpoint.(
      sequence := start.sequence + n + 1, bindingID := start.bindingID, direction := Some(direction),
      sourceVersion := Normalized(changes[n]).sourceVersion, updatedAt := next.updatedAt)
    ensures TargetOf(plan, direction)
      == Target(next.providerID, next.scope, next.connectionID, next.bindingID, direction)
    ensures Counts(next, plan, changes, n + 1) && next.sourceVersion == VersionAfter(start, changes, n + 1)
    ensures Counted(start, changes, result, next.(sequence := start.sequence + n,
                    sourceVersion := VersionAfter(start, changes, n)), n)
  {
    hide Trim;
  }

  /** The log holds the first `reached` changes on top of what was there, and no checkpoint is ahead of it. */
  ghost predicate Logged(items: seq<Item>, plan: Plan, direction: Direction, changes: seq<Change>, base: Base,
                         contents: Effects, saved: Checkpoints, reached: nat) {
    CutRun(items, base.contents, contents, reached) && SavedWithin(base.saved, saved, plan, direction, changes, reached)
  }

  lemma NothingLogged(items: seq<Item>, plan: Plan, direction: Direction, changes: seq<Change>, base: Base)
    ensures Logged(items, plan, direction, changes, base, base.contents, base.saved, 0)
  {
    AbsorbNone(base.contents, items);
    SavedNothing(base.saved, plan, direction, changes);
  }

  lemma LoggedMore(
    lib: Library, plan: Plan, direction: Direction, changes: seq<Change>, base: Base, before: Effects,
    contents: Effects, mid: Checkpoints, saved: Checkpoints, n: nat, lost: bool, checkpoint: Checkpoint)
    requires var items := Items(lib, TargetOf(plan, direction), changes);
      n < |changes| && Logged(items, plan, direction, changes, base, before, mid, n)
    requires var target := TargetOf(plan, direction);
      contents ==
        (if lost then before
         else Absorb(before, [(KeyOf(lib, target, changes[n]), ContentOf(lib, target, changes[n]))]))
    requires saved == mid
      || (!lost && saved == mid[(Trim(plan.bindingID), direction) := checkpoint]
          && Counts(checkpoint, plan, changes, n + 1))
    ensures Logged(Items(lib, TargetOf(plan, direction), changes), plan, direction, changes, base, contents, saved,
                   if lost then n else n + 1)
  {
    hide Absorb, KeyOf, ContentOf, Trim, SavedWithin, TargetOf;
    AbsorbNext(lib, TargetOf(plan, direction), changes, base.contents, n);
    SavedMore(base.saved, mid, saved, plan, direction, changes, n, if lost then n else n + 1, checkpoint);
  }

  /** What an entry says of its own run: the time, and metadata in which the change's comes before the run's. */
  ghost predicate Noted(lib: Library, entry: Entry, change: Change, runMetadata: Document, occurredAt: int) {
    && entry.occurredAt == occurredAt
    && entry.metadata == lib.redact(
         map k | k in runMetadata.Keys + change.metadata.Keys ::
           if k in change.metadata then change.metadata[k] else runMetadata[k])
  }

  lemma EntryNoted(lib: Library, entry: Entry, change: Change, runMetadata: Document)
    requires entry.metadata == lib.redact(Merged(Normalized(change).metadata, runMetadata))
    ensures Noted(lib, entry, change, runMetadata, entry.occurredAt)
  {
    hide Trim;
    var merged := map k | k in runMetadata.Keys + change.metadata.Keys ::
      if k in change.metadata then change.metadata[k] else runMetadata[k];
    assert Merged(change.metadata, runMetadata) == merged;
  }

  /** The first `n` changes have external ids, and in an apply run none of their steps fails. */
  ghost predicate Smooth(plan: Plan, changes: seq<Change>, env: Env, n: nat) {
    forall i: nat :: i < n && i < |changes| ==>
      && Trim(changes[i].externalID) != ""
      && (plan.mode.Apply? ==> env.step(i).append.Fine? && env.step(i).save.Fine? && env.step(i).publishes)
  }

  lemma NothingRough(plan: Plan, changes: seq<Change>, env: Env)
    ensures Smooth(plan, changes, env, 0)
  {
  }

  /** Whatever fails at change `n`, no longer prefix is smooth. */
  lemma SmoothStep(plan: Plan, changes: seq<Change>, env: Env, n: nat)
    requires n < |changes| && Smooth(plan, changes, env, n)
    ensures var (at, named) := (env.step(n), Trim(changes[n].externalID) != "");
      var fine := named && (plan.mode.Apply? ==> at.append.Fine? && at.save.Fine? && at.publishes);
      && (fine ==> Smooth(plan, changes, env, n + 1))
      && (!fine ==> !Smooth(plan, changes, env, |changes|))
  {
    hide Trim;
  }

  class SyncExecutionService {
    const lib: Library
    var log: map<string, Entry>
    var saved: Checkpoints

    constructor (lib: Library)
      ensures this.lib == lib && log == map[] && saved == map[]
    {
      this.lib, log, saved := lib, map[], map[];
    }

    /** Idempotent append: a key that is present is left alone. */
    method Append(entry: Entry, fault: Fault) returns (applied: bool, ok: bool)
      modifies this`log
      ensures ok == fault.Fine?
      ensures log == if fault.FailsUnwritten? || entry.key in old(log) then old(log) else old(log)[entry.key := entry]
      ensures applied <==> ok && entry.key !in old(log)
    {
      applied, ok := false, fault.Fine?;
      if !fault.FailsUnwritten? && entry.key !in log {
        log := log[entry.key := entry];
        applied := ok;
      }
    }

    /** The checkpoint store echoes what it saved. */
    method Save(checkpoint: Checkpoint, direction: Direction, fault: Fault) returns (echo: Checkpoint, ok: bool)
      modifies this`saved
      ensures ok == fault.Fine? && echo == checkpoint
      ensures saved == if fault.FailsUnwritten? then old(saved)
                       else old(saved)[(checkpoint.bindingID, direction) := checkpoint]
    {
      echo, ok := checkpoint, fault.Fine?;
      if !fault.FailsUnwritten? {
        saved := saved[(checkpoint.bindingID, direction) := checkpoint];
      }
    }

    /** One change of an apply run: append it, save the checkpoint that counts it, announce that checkpoint. */
    method ApplyChange(
      checkpoint: Checkpoint, change: Change, runMetadata: Document, direction: Direction, at: StepEnv,
      ghost target: Target)
      returns (applied: bool, echo: Checkpoint, err: RunError)
      requires checkpoint.direction == Some(direction)
      requires target == Target(
        checkpoint.providerID, checkpoint.scope, checkpoint.connectionID, checkpoint.bindingID, direction)
      modifies this
      ensures err in {NoError, AppendFailed, SaveFailed, PublishFailed}
      ensures err == AppendFailed <==> !at.append.Fine?
      ensures err == NoError <==> at.append.Fine? && at.save.Fine? && at.publishes
      ensures Contents(log) ==
        (if at.append.FailsUnwritten? then Contents(old(log))
         else Absorb(Contents(old(log)), [(KeyOf(lib, target, change), ContentOf(lib, target, change))]))
      ensures err != AppendFailed ==> |log| == |old(log)| + if applied then 1 else 0
      ensures applied ==>
        KeyOf(lib, target, change) in log
        && Noted(lib, log[KeyOf(lib, target, change)], change, runMetadata, at.occurredAt)
      ensures |old(log)| <= |log| <= |old(log)| + if at.append.FailsUnwritten? then 0 else 1
      ensures saved == old(saved)
        || (err != AppendFailed && saved == old(saved)[(checkpoint.bindingID, direction) := checkpoint])
      ensures err == NoError ==> echo == checkpoint
    {
      var c := Normalized(change);
      var entry := Entry(
        IdempotencyKey(lib, checkpoint.bindingID, direction, c.externalID, c.sourceVersion),
        Content(checkpoint.providerID, checkpoint.scope, checkpoint.connectionID, checkpoint.bindingID, direction,
                c.sourceObject, c.externalID, c.sourceVersion, lib.redact(c.payload)),
        lib.redact(Merged(c.metadata, runMetadata)), at.occurredAt);
      echo := checkpoint;
      ghost var before := log;
      var ok;
      applied, ok := Append(entry, at.append);
      EntryNoted(lib, entry, change, runMetadata);
      hide Noted;
      AppendIsAbsorb(before, log, entry, at.append.FailsUnwritten?);
      if !ok {
        return applied, checkpoint, AppendFailed;
      }
      echo, ok := Save(checkpoint, direction, at.save);
      if !ok {
        return applied, checkpoint, SaveFailed;
      }
      if !at.publishes {
        return applied, echo, PublishFailed;
      }
      return applied, echo, NoError;
    }

    /** One change of an apply run, counted. */
    method StepApply(
      plan: Plan, start: Checkpoint, changes: seq<Change>, n: nat, result: RunResult, checkpoint: Checkpoint,
      runMetadata: Document, direction: Direction, at: StepEnv, ghost base: Base)
      returns (counted: RunResult, next: Checkpoint, err: RunError, ghost reached: nat)
      requires start == plan.checkpoint.(bindingID := Trim(plan.bindingID), direction := Some(direction))
      requires n < |changes| && plan.mode.Apply? && Counted(start, changes, result, checkpoint, n)
      requires result.processed == |log| - base.size
      requires Logged(Items(lib, TargetOf(plan, direction), changes), plan, direction, changes, base, Contents(log),
                      saved, n)
      modifies this
      ensures err != InvalidPlan && err != BlankExternalID
      ensures err == NoError <==> at.append.Fine? && at.save.Fine? && at.publishes
      ensures Logged(Items(lib, TargetOf(plan, direction), changes), plan, direction, changes, base, Contents(log),
                     saved, reached)
      ensures err == NoError ==>
        reached == n + 1 && Counted(start, changes, counted, next, n + 1) && counted.processed == |log| - base.size
      ensures Reports(plan, changes, counted, err, reached, |log| - base.size)
    {
      hide *;
      var change := Normalized(changes[n]);
      next := checkpoint.(
        sequence := start.sequence + n + 1, bindingID := start.bindingID, direction := Some(direction),
        sourceVersion := change.sourceVersion, updatedAt := at.stampedAt);
      NextMeans(plan, start, changes, n, result, checkpoint, next, direction);
      TalliedMeans(result);
      ghost var before, mid := Contents(log), saved;
      var applied, echo;
      applied, echo, err := ApplyChange(next, changes[n], runMetadata, direction, at, TargetOf(plan, direction));
      reached := if at.append.FailsUnwritten? then n else n + 1;
      LoggedMore(lib, plan, direction, changes, base, before, Contents(log), mid, saved, n, at.append.FailsUnwritten?,
                 next);
      StepReports(plan, start, changes, result, next, applied, err, reached, |log| - base.size, n);
      if err == AppendFailed {
        return Stopped(result, next), next, err, reached;
      }
      counted := Tallied(result, applied);
      if err == SaveFailed {
        return Stopped(counted, next), next, err, reached;
      }
      if err == PublishFailed {
        return NO_RESULT, next, err, reached;
      }
      next := echo;
    }

    method RunSteps(
      plan: Plan, start: Checkpoint, changes: seq<Change>, runMetadata: Document, direction: Direction, env: Env)
      returns (result: RunResult, err: RunError, ghost reached: nat)
      requires PlanAccepted(plan, direction)
      requires start == plan.checkpoint.(bindingID := Trim(plan.bindingID), direction := Some(direction))
      modifies this
      ensures err != InvalidPlan
      ensures err == NoError <==> Smooth(plan, changes, env, |changes|) && env.endPublishes
      ensures !plan.mode.Apply? ==> log == old(log) && saved == old(saved)
      ensures Logged(Items(lib, TargetOf(plan, direction), changes), plan, direction, changes,
                     Base(Contents(old(log)), old(saved), |old(log)|), Contents(log), saved, reached)
      ensures err == NoError ==>
        && (plan.mode.Apply? ==> reached == |changes|)
        && result.status == Succeeded && result.failed == 0
        && result.processed + result.skipped == |changes|
        && result.processed == (if plan.mode.Apply? then |log| - |old(log)| else |changes|)
        && result.next.Some?
        && result.next.value.sequence == plan.checkpoint.sequence + |changes|
        && result.next.value.sourceVersion == VersionAfter(plan.checkpoint, changes, |changes|)
      ensures Reports(plan, changes, result, err, reached, |log| - |old(log)|)
    {
      hide Absorb, Contents, Items, Logged, KeyOf, ContentOf, IdempotencyKey, FailedAt, Trim, Smooth, Counted,
        VersionAfter;
      ghost var base := Base(Contents(log), saved, |log|);
      NothingLogged(Items(lib, TargetOf(plan, direction), changes), plan, direction, changes, base);
      NothingRough(plan, changes, env);
      NothingCounted(start, changes);
      SameVersion(plan, start, changes, |changes|);
      var checkpoint := start;
      result, err, reached := RunResult(Succeeded, 0, 0, 0, None), NoError, 0;
      for n := 0 to |changes|
        invariant err == NoError && Counted(start, changes, result, checkpoint, n)
        invariant Smooth(plan, changes, env, n)
        invariant reached == if plan.mode.Apply? then n else 0
        invariant !plan.mode.Apply? ==> log == old(log) && saved == old(saved) && result.skipped == 0
        invariant plan.mode.Apply? ==> result.processed == |log| - base.size
        invariant Logged(Items(lib, TargetOf(plan, direction), changes), plan, direction, changes, base, Contents(log),
                         saved, reached)
      {
        var change := Normalized(changes[n]);
        SmoothStep(plan, changes, env, n);
        CountedMeans(start, changes, result, checkpoint, n);
        if change.externalID == "" {
          StoppedFails(plan, start, changes, result, checkpoint, n);
          return Stopped(result, checkpoint), BlankExternalID, reached;
        }
        var at := env.step(n);
        if plan.mode.DryRun? {
          var next := checkpoint.(
            sequence := start.sequence + n + 1, bindingID := start.bindingID, direction := Some(direction),
            sourceVersion := change.sourceVersion, updatedAt := at.stampedAt);
          DryCounted(start, changes, result, checkpoint, n, next);
          checkpoint, result := next, result.(processed := result.processed + 1);
          continue;
        }
        result, checkpoint, err, reached :=
          StepApply(plan, start, changes, n, result, checkpoint, runMetadata, direction, at, base);
        if err != NoError {
          return;
        }
      }
      CountedMeans(start, changes, result, checkpoint, |changes|);
      result := result.(next := Some(checkpoint));
      if !env.endPublishes {
        return NO_RESULT, PublishFailed, reached;
      }
    }

    method Run(plan: Plan, changes: seq<Change>, runMetadata: Document, direction: Direction, env: Env)
      returns (result: RunResult, err: RunError, ghost reached: nat)
      modifies this
      ensures err == InvalidPlan <==> !PlanAccepted(plan, direction)
      // It succeeds exactly when nothing it does fails and every change has an external id.
      ensures err == NoError <==>
        && PlanAccepted(plan, direction) && env.startPublishes && env.endPublishes
        && Smooth(plan, changes, env, |changes|)
      // A dry run and a rejected plan write nothing.
      ensures !plan.mode.Apply? || err == InvalidPlan ==> log == old(log) && saved == old(saved)
      // The log gained exactly the first `reached` changes, and all of them on success.
      ensures CutRun(Items(lib, TargetOf(plan, direction), changes), Contents(old(log)), Contents(log), reached)
      ensures err == NoError && plan.mode.Apply? ==> reached == |changes|
      // On an empty log that is one entry for every external id and version, the first change's, exactly when none
      // of them read alike with a bar between them.
      ensures err == NoError && plan.mode.Apply? && old(log) == map[] && Injective(lib.digest) ==>
        (OnePerIdentity(lib, FeedOf(TargetOf(plan, direction), changes), Contents(log)) <==>
           NoPairsAlike(lib, changes))
      // A saved sequence of start + k says that the first k changes' keys are all in the log.
      ensures SavedWithin(old(saved), saved, plan, direction, changes, reached)
      ensures forall i :: 0 <= i < reached ==> KeyOf(lib, TargetOf(plan, direction), changes[i]) in log
      // Success counts every change once and advances the sequence by their number, in both modes.
      ensures err == NoError ==>
        && result.status == Succeeded && result.failed == 0
        && result.processed + result.skipped == |changes|
        && result.processed == (if plan.mode.Apply? then |log| - |old(log)| else |changes|)
        && result.next.Some?
        && result.next.value.sequence == plan.checkpoint.sequence + |changes|
        && result.next.value.sourceVersion == VersionAfter(plan.checkpoint, changes, |changes|)
      // A failed run says how far it came.
      ensures Reports(plan, changes, result, err, reached, |log| - |old(log)|)
    {
      hide Absorb, Contents, Items, KeyOf;
      NothingLogged(Items(lib, TargetOf(plan, direction), changes), plan, direction, changes,
                    Base(Contents(log), saved, |log|));
      var binding := Trim(plan.bindingID);
      if binding == "" || plan.mode.UnknownMode? {
        return NO_RESULT, InvalidPlan, 0;
      }
      var checkpoint := plan.checkpoint;
      if checkpoint.bindingID == "" {
        checkpoint := checkpoint.(bindingID := binding);
      }
      if checkpoint.bindingID != binding {
        return NO_RESULT, InvalidPlan, 0;
      }
      if checkpoint.direction == None {
        checkpoint := checkpoint.(direction := Some(direction));
      }
      if checkpoint.direction != Some(direction) {
        return NO_RESULT, InvalidPlan, 0;
      }
      if !env.startPublishes {
        return NO_RESULT, PublishFailed, 0;
      }
      hide Trim, Reports, SavedWithin, Smooth;
      ghost var before := log;
      result, err, reached := RunSteps(plan, checkpoint, changes, runMetadata, direction, env);
      KeysLogged(lib, TargetOf(plan, direction), changes, before, log, reached);
      RunToTheEnd(Items(lib, TargetOf(plan, direction), changes), Contents(before), Contents(log));
      if before == map[] && Injective(lib.digest) {
        EmptyLogGains(lib, TargetOf(plan, direction), changes, before, log);
      }
    }

    /**
     Any number of interrupted runs over one change list and then one that succeeds: the log holds what a
     single uninterrupted run would have left, whatever the runs' checkpoints, metadata and faults were.
     */
    method RunUntilSuccess(
      attempts: seq<(Plan, Document, Env)>, changes: seq<Change>, direction: Direction, ghost target: Target)
      returns (err: RunError)
      requires forall a :: a in attempts ==> a.0.mode.Apply? && TargetOf(a.0, direction) == target
      modifies this
      ensures err == NoError ==> Contents(log) == Absorb(Contents(old(log)), Items(lib, target, changes))
      ensures err == NoError && old(log) == map[] && Injective(lib.digest) ==>
        (OnePerIdentity(lib, FeedOf(target, changes), Contents(log)) <==> NoPairsAlike(lib, changes))
    {
      hide *;
      ghost var items := Items(lib, target, changes);
      ghost var logs, marks := [Contents(log)], [];
      err := InvalidPlan;
      var next := 0;
      while next < |attempts| && err != NoError
        invariant 0 <= next <= |attempts|
        invariant |logs| == |marks| + 1 && logs[0] == Contents(old(log)) && logs[|marks|] == Contents(log)
        invariant forall r :: 0 <= r < |marks| ==> CutRun(items, logs[r], logs[r + 1], marks[r])
        invariant err == NoError ==> |marks| > 0 && marks[|marks| - 1] == |items|
      {
        var (plan, metadata, env) := attempts[next];
        assert attempts[next] in attempts;
        ghost var reached: nat;
        var result;
        result, err, reached := Run(plan, changes, metadata, direction, env);
        logs, marks := logs + [Contents(log)], marks + [reached];
        next := next + 1;
      }
      if err == NoError {
        ExactlyOnce(items, logs, marks);
        if old(log) == map[] && Injective(lib.digest) {
          EmptyLogGains(lib, target, changes, old(log), log);
        }
      }
    }
  }

  lemma EmptyLogGains(lib: Library, target: Target, changes: seq<Change>, before: map<string, Entry>,
                      log: map<string, Entry>)
    requires before == map[] && Injective(lib.digest)
    ensures Contents(log) == Absorb(Contents(before), Items(lib, target, changes)) ==>
      (OnePerIdentity(lib, FeedOf(target, changes), Contents(log)) <==> NoPairsAlike(lib, changes))
  {
    hide Absorb, Items, OnePerIdentity, FeedOf, NoPairsAlike, Injective;
    assert Contents(before) == map[];
    OneRunOneEntryEach(lib, target, changes);
  }

  lemma RunToTheEnd(items: seq<Item>, before: Effects, after: Effects)
    ensures CutRun(items, before, after, |items|) <==> after == Absorb(before, items)
  {
    assert items[..|items|] == items;
  }

  lemma AppendIsAbsorb(before: map<string, Entry>, after: map<string, Entry>, entry: Entry, lost: bool)
    requires after == if lost || entry.key in before then before else before[entry.key := entry]
    ensures Contents(after) ==
      if lost then Contents(before) else Absorb(Contents(before), [(entry.key, entry.content)])
  {
    var item := (entry.key, entry.content);
    assert [item][..0] == [];
    assert Absorb(Contents(before), [item][..0]) == Contents(before);
    if !lost && entry.key !in before {
      assert Contents(after) == Contents(before)[entry.key := entry.content];
    }
  }

  lemma AbsorbNone(start: Effects, items: seq<Item>)
    ensures Absorb(start, items[..0]) == start
  {
  }

  lemma AbsorbSnoc(start: Effects, items: seq<Item>, n: nat)
    requires n < |items|
    ensures Absorb(Absorb(start, items[..n]), [items[n]]) == Absorb(start, items[..n + 1])
  {
    assert items[..n + 1][..n] == items[..n];
    assert [items[n]][..0] == [];
    assert Absorb(Absorb(start, items[..n]), [items[n]][..0]) == Absorb(start, items[..n]);
  }

  lemma AbsorbNext(lib: Library, target: Target, changes: seq<Change>, start: Effects, n: nat)
    requires n < |changes|
    ensures var items := Items(lib, target, changes);
      Absorb(Absorb(start, items[..n]), [(KeyOf(lib, target, changes[n]), ContentOf(lib, target, changes[n]))])
      == Absorb(start, items[..n + 1])
  {
    hide KeyOf, ContentOf, Absorb;
    AbsorbSnoc(start, Items(lib, target, changes), n);
  }
}
