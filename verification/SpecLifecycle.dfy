/**
 The lifecycle of mapping specs: drafts are created and edited, marked validated, and published, over a store of
 versions. A saved change stays saved when only the announcement of it fails.
 */
module SpecLifecycle {
  import opened Text
  import Sorting
  import opened MappingSpecs

  datatype Status = Draft | Validated | Published

  datatype Spec = Spec(content: Content, version: int, status: Status, updatedAt: int, publishedAt: Option<int>)

  // ---------------------------------------------------------------- the store

  /** Versions by spec id. A version belongs to the provider and scope that its content names. */
  type Records = map<string, map<int, Spec>>

  datatype Place = Place(providerID: string, scope: Scope, specID: string)

  function PlaceOf(c: Content): Place { Place(c.providerID, c.scope, c.specID) }

  predicate At(names: Names, c: Content, place: Place) {
    && names.fold(Trim(c.providerID)) == names.fold(Trim(place.providerID))
    && names.fold(Trim(c.scope.kind)) == names.fold(Trim(place.scope.kind))
    && Trim(c.scope.id) == Trim(place.scope.id)
  }

  predicate Has(records: Records, id: string, version: int) { id in records && version in records[id] }

  function Lookup(names: Names, records: Records, place: Place, version: int): (r: Option<Spec>)
    ensures r.Some? ==> Has(records, place.specID, version) && r.value == records[place.specID][version]
  {
    if Has(records, place.specID, version) && At(names, records[place.specID][version].content, place)
    then Some(records[place.specID][version]) else None
  }

  lemma Member<T>(s: set<T>) returns (x: T)
    requires s != {}
    ensures x in s
  {
    x :| x in s;
  }

  lemma NewestExists(versions: set<int>) returns (newest: int)
    requires versions != {}
    ensures newest in versions && forall v :: v in versions ==> v <= newest
  {
    var one := Member(versions);
    var rest := versions - {one};
    newest := one;
    if rest != {} {
      var other := NewestExists(rest);
      newest := if one < other then other else one;
    }
    forall v | v in versions ensures v <= newest {
      assert v == one || v in rest;
    }
  }

  ghost function Newest(versions: set<int>): (newest: int)
    requires versions != {}
    ensures newest in versions && forall v :: v in versions ==> v <= newest
  {
    assert exists v :: v in versions && forall w :: w in versions ==> w <= v by { var _ := NewestExists(versions); }
    var v :| v in versions && forall w :: w in versions ==> w <= v;
    v
  }

  ghost function Latest(names: Names, records: Records, place: Place): Option<Spec> {
    if place.specID !in records || records[place.specID] == map[] then None
    else
      var latest := records[place.specID][Newest(records[place.specID].Keys)];
      if At(names, latest.content, place) then Some(latest) else None
  }

  /** Collects the version numbers in any order, sorts them and takes the last. */
  method GetLatest(names: Names, records: Records, place: Place) returns (r: Option<Spec>)
    ensures r == Latest(names, records, place)
  {
    if place.specID !in records || records[place.specID] == map[] {
      return None;
    }
    var versions := records[place.specID].Keys;
    var rest, keys := versions, [];
    while rest != {}
      invariant rest <= versions
      invariant forall v :: v in keys <==> v in versions && v !in rest
      decreases |rest|
    {
      ghost var some := Member(rest);
      var v :| v in rest;
      keys, rest := keys + [v], rest - {v};
    }
    var order := (a: int, b: int) => a <= b;
    var sorted := Sorting.Sort(keys, order);
    Sorting.SortPermutes(keys, order);
    Sorting.SortSorts(keys, order);
    Sorting.PermutationKeepsElements(keys, sorted);
    assert Newest(versions) in sorted;
    var newest := sorted[|sorted| - 1];
    assert newest in sorted && newest in versions;
    ghost var k :| 0 <= k < |sorted| && sorted[k] == Newest(versions);
    assert k < |sorted| - 1 ==> order(sorted[k], newest);
    assert newest == Newest(versions);
    var latest := records[place.specID][newest];
    return if At(names, latest.content, place) then Some(latest) else None;
  }

  datatype Write = Write(id: string, version: int, spec: Spec)

  function Put(records: Records, w: Write): Records {
    records[w.id := (if w.id in records then records[w.id] else map[])[w.version := w.spec]]
  }

  // ---------------------------------------------------------------- operations

  /** Failures of the store's reads and writes, and of the event bus afterwards. */
  datatype Faults = Faults(latest: bool, get: bool, save: bool, bus: bool)

  datatype Op =
    | CreateDraft(content: Content, version: int, stamp: int)
    | UpdateDraft(content: Content, version: int, stamp: int)
    | MarkValidated(place: Place, version: int, stamp: int)
    | Publish(place: Place, version: int, stamp: int)

  function NormalPlace(names: Names, p: Place): Place {
    Place(Trim(p.providerID), NormalScope(names, p.scope), Trim(p.specID))
  }

  predicate PlaceValid(names: Names, p: Place) {
    var n := NormalPlace(names, p);
    n.providerID != "" && ScopeValid(names, n.scope) && n.specID != ""
  }

  /** The version a new draft gets: the caller's, or one past a published latest. */
  ghost function DraftVersion(names: Names, records: Records, place: Place, version: int): Option<int> {
    if version != 0 then Some(version)
    else match Latest(names, records, place)
      case None => Some(1)
      case Some(latest) => if latest.status.Published? then Some(latest.version + 1) else None
  }

  /** What an operation writes, or nothing when it is rejected or fails. */
  ghost function Written(names: Names, records: Records, op: Op, faults: Faults): (w: Option<Write>)
    ensures w.Some? && !op.CreateDraft? ==>
      Has(records, w.value.id, w.value.version) && !records[w.value.id][w.value.version].status.Published?
    ensures w.Some? && op.CreateDraft? ==> !Has(records, w.value.id, w.value.version)
  {
    if faults.get || faults.save then None
    else match op
      case CreateDraft(content, asked, stamp) =>
        var n := NormalContent(names, content);
        var version := DraftVersion(names, records, PlaceOf(n), asked);
        if (asked == 0 && faults.latest) || version.None? || version.value < 1 || !ContentValid(names, n)
           || Has(records, n.specID, version.value)
        then None else Some(Write(n.specID, version.value, Spec(n, version.value, Draft, stamp, None)))
      case UpdateDraft(content, version, stamp) =>
        var n := NormalContent(names, content);
        var existing := Lookup(names, records, PlaceOf(n), version);
        if version < 1 || existing.None? || existing.value.status.Published? || !ContentValid(names, n)
        then None else Some(Write(n.specID, version, Spec(n, version, Draft, stamp, None)))
      case MarkValidated(place, version, stamp) =>
        var n := NormalPlace(names, place);
        var current := Lookup(names, records, n, version);
        if !PlaceValid(names, place) || version < 1 || current.None? || current.value.status.Published?
        then None
        else Some(Write(n.specID, version,
                        current.value.(status := Validated, updatedAt := stamp, publishedAt := None)))
      case Publish(place, version, stamp) =>
        var n := NormalPlace(names, place);
        var current := Lookup(names, records, n, version);
        if !PlaceValid(names, place) || version < 1 || current.None? || !current.value.status.Validated?
        then None
        else Some(Write(n.specID, version,
                        current.value.(status := Published, updatedAt := stamp, publishedAt := Some(stamp))))
  }

  ghost function Step(names: Names, records: Records, op: Op, faults: Faults): Records {
    var w := Written(names, records, op, faults);
    if w.Some? then Put(records, w.value) else records
  }

  /** What a written version becomes: a draft of the new content, or the same content moved along. */
  lemma WrittenStatus(names: Names, records: Records, op: Op, faults: Faults)
    ensures var w := Written(names, records, op, faults);
      && (w.Some? && (op.CreateDraft? || op.UpdateDraft?) ==> w.value.spec.status.Draft?)
      && (w.Some? && op.MarkValidated? ==>
            w.value.spec.status.Validated? && w.value.spec.content == records[w.value.id][w.value.version].content)
      && (w.Some? && op.Publish? ==>
            && w.value.spec.status.Published? && records[w.value.id][w.value.version].status.Validated?
            && w.value.spec.content == records[w.value.id][w.value.version].content)
  {
    hide NormalContent, ContentValid, PlaceValid, NormalPlace, At, DraftVersion;
  }

  // ---------------------------------------------------------------- what is written, spelled out

  ghost predicate OwnerNamed(names: Names, providerID: string, scope: Scope, specID: string) {
    && Trim(providerID) != "" && (names.canon(scope.kind) == "user" || names.canon(scope.kind) == "org")
    && Trim(scope.id) != "" && Trim(specID) != ""
  }

  ghost predicate ContentNamed(names: Names, c: Content) {
    && OwnerNamed(names, c.providerID, c.scope, c.specID)
    && Trim(c.name) != "" && Trim(c.sourceObject) != "" && Trim(c.targetModel) != ""
    && forall i :: 0 <= i < |c.rules| ==> Trim(c.rules[i].sourcePath) != "" && Trim(c.rules[i].targetPath) != ""
  }

  /** The version exists and belongs to the provider and scope: names in any case, the scope's id as it is. */
  ghost predicate Owned(
    names: Names, records: Records, providerID: string, scope: Scope, specID: string, version: int)
  {
    && Trim(specID) in records && version in records[Trim(specID)]
    && var c := records[Trim(specID)][version].content;
       && names.fold(Trim(c.providerID)) == names.fold(Trim(providerID))
       && names.fold(Trim(c.scope.kind)) == names.fold(Trim(names.canon(scope.kind)))
       && Trim(c.scope.id) == Trim(scope.id)
  }

  /** Outer spaces are gone from every text of the content and its rules; nothing else has changed. */
  ghost predicate StoredAs(names: Names, given: Content, stored: Content) {
    && stored.id == Trim(given.id) && stored.specID == Trim(given.specID)
    && stored.providerID == Trim(given.providerID)
    && stored.scope == Scope(names.canon(given.scope.kind), Trim(given.scope.id))
    && stored.name == Trim(given.name) && stored.description == Trim(given.description)
    && stored.sourceObject == Trim(given.sourceObject) && stored.targetModel == Trim(given.targetModel)
    && stored.schemaRef == Trim(given.schemaRef) && |stored.rules| == |given.rules|
    && forall i :: 0 <= i < |given.rules| ==> RuleStoredAs(given.rules[i], stored.rules[i])
  }

  ghost predicate RuleStoredAs(given: Rule, stored: Rule) {
    && stored.id == Trim(given.id) && stored.sourcePath == Trim(given.sourcePath)
    && stored.targetPath == Trim(given.targetPath) && stored.transform == Trim(given.transform)
    && stored.constraints == given.constraints && stored.rest == given.rest
  }

  /** The version a draft without one gets: after the newest, if that is the owner's and published, or the first. */
  ghost predicate TakesVersion(names: Names, records: Records, c: Content, v: int) {
    var id := Trim(c.specID);
    if exists w :: NewestOf(records, id, w) && Owned(names, records, c.providerID, c.scope, c.specID, w)
    then exists w :: NewestOf(records, id, w) && records[id][w].status == Published && v == records[id][w].version + 1
    else v == 1
  }

  ghost predicate NewestOf(records: Records, id: string, w: int) {
    id in records && w in records[id] && forall u :: u in records[id] ==> u <= w
  }

  ghost predicate NextFree(names: Names, records: Records, c: Content, version: int, v: int) {
    && v >= 1 && !(Trim(c.specID) in records && v in records[Trim(c.specID)])
    && if version != 0 then v == version else TakesVersion(names, records, c, v)
  }

  /** When an operation writes: no store call fails, the input is complete, and the version is in the right state. */
  ghost predicate MayWrite(names: Names, records: Records, op: Op, faults: Faults) {
    && !faults.get && !faults.save
    && match op
       case CreateDraft(c, version, _) =>
         && ContentNamed(names, c) && !(version == 0 && faults.latest)
         && exists v :: NextFree(names, records, c, version, v)
       case UpdateDraft(c, version, _) =>
         && version >= 1 && ContentNamed(names, c) && Owned(names, records, c.providerID, c.scope, c.specID, version)
         && records[Trim(c.specID)][version].status != Published
       case MarkValidated(p, version, _) =>
         && version >= 1 && OwnerNamed(names, p.providerID, p.scope, p.specID)
         && Owned(names, records, p.providerID, p.scope, p.specID, version)
         && records[Trim(p.specID)][version].status != Published
       case Publish(p, version, _) =>
         && version >= 1 && OwnerNamed(names, p.providerID, p.scope, p.specID)
         && Owned(names, records, p.providerID, p.scope, p.specID, version)
         && records[Trim(p.specID)][version].status == Validated
  }

  /** What the written version is: a draft of the given content, or the same content moved along. */
  ghost predicate Becomes(names: Names, records: Records, op: Op, w: Write) {
    match op
    case CreateDraft(c, _, stamp) =>
      && w.id == Trim(c.specID) && StoredAs(names, c, w.spec.content)
      && w.spec == Spec(w.spec.content, w.version, Draft, stamp, None)
    case UpdateDraft(c, version, stamp) =>
      && w.id == Trim(c.specID) && w.version == version && StoredAs(names, c, w.spec.content)
      && w.spec == Spec(w.spec.content, version, Draft, stamp, None)
    case MarkValidated(p, version, stamp) =>
      && w.id == Trim(p.specID) && w.version == version && Has(records, w.id, version)
      && w.spec == Spec(records[w.id][version].content, records[w.id][version].version, Validated, stamp, None)
    case Publish(p, version, stamp) =>
      && w.id == Trim(p.specID) && w.version == version && Has(records, w.id, version)
      && w.spec == Spec(records[w.id][version].content, records[w.id][version].version, Published, stamp, Some(stamp))
  }

  lemma StoredRules(given: seq<Rule>)
    ensures var stored := Sorting.Map(TrimmedRule, given);
      && |stored| == |given| && (forall i :: 0 <= i < |given| ==> RuleStoredAs(given[i], stored[i]))
      && ((forall r :: r in stored ==> HasPaths(r)) <==>
            forall i :: 0 <= i < |given| ==> Trim(given[i].sourcePath) != "" && Trim(given[i].targetPath) != "")
  {
    hide Trim, TrimmedRule, RuleStoredAs, HasPaths;
    var stored := Sorting.Map(TrimmedRule, given);
    forall i | 0 <= i < |given| ensures RuleStoredAs(given[i], stored[i]) { StoredRule(given[i]); }
    if forall r :: r in stored ==> HasPaths(r) {
      forall i | 0 <= i < |given| ensures Trim(given[i].sourcePath) != "" && Trim(given[i].targetPath) != "" {
        assert stored[i] in stored;
        StoredRule(given[i]);
      }
    } else {
      var r :| r in stored && !HasPaths(r);
      var i :| 0 <= i < |stored| && stored[i] == r;
      StoredRule(given[i]);
    }
  }

  lemma StoredRule(given: Rule)
    ensures RuleStoredAs(given, TrimmedRule(given))
    ensures HasPaths(TrimmedRule(given)) <==> Trim(given.sourcePath) != "" && Trim(given.targetPath) != ""
  {
    TrimIdempotent(given.sourcePath);
    TrimIdempotent(given.targetPath);
    hide Trim;
  }

  lemma StoredContent(names: Names, c: Content)
    ensures StoredAs(names, c, NormalContent(names, c))
    ensures ContentValid(names, NormalContent(names, c)) <==> ContentNamed(names, c)
  {
    TrimIdempotent(c.providerID);
    TrimIdempotent(c.specID);
    TrimIdempotent(c.scope.id);
    TrimIdempotent(c.name);
    TrimIdempotent(c.sourceObject);
    TrimIdempotent(c.targetModel);
    StoredRules(c.rules);
    hide Trim, Sorting.Map, RuleStoredAs, HasPaths;
  }

  lemma OwnedExactly(names: Names, records: Records, p: Place, version: int)
    ensures var n := NormalPlace(names, p);
      && (Lookup(names, records, n, version).Some? <==>
            Owned(names, records, p.providerID, p.scope, p.specID, version))
      && n.specID == Trim(p.specID)
      && (PlaceValid(names, p) <==> OwnerNamed(names, p.providerID, p.scope, p.specID))
  {
    TrimIdempotent(p.providerID);
    TrimIdempotent(p.specID);
    TrimIdempotent(p.scope.id);
    hide Trim;
  }

  lemma NewestIsNewest(records: Records, id: string, w: int)
    requires id in records && records[id] != map[]
    ensures NewestOf(records, id, w) <==> w == Newest(records[id].Keys)
  {
    assert records[id].Keys != {};
  }

  lemma DraftVersionExactly(names: Names, records: Records, c: Content, v: int)
    ensures var place := NormalPlace(names, Place(c.providerID, c.scope, c.specID));
      DraftVersion(names, records, place, 0) == Some(v) <==> TakesVersion(names, records, c, v)
  {
    var p := Place(c.providerID, c.scope, c.specID);
    var id := Trim(c.specID);
    OwnedExactly(names, records, p, 0);
    if id in records && records[id] != map[] {
      var w := Newest(records[id].Keys);
      forall u ensures NewestOf(records, id, u) <==> u == w { NewestIsNewest(records, id, u); }
      OwnedExactly(names, records, p, w);
      assert NewestOf(records, id, w);
    }
    hide Trim, At, Owned, NormalPlace;
  }

  lemma ContentPlace(names: Names, c: Content)
    ensures PlaceOf(NormalContent(names, c)) == NormalPlace(names, Place(c.providerID, c.scope, c.specID))
    ensures NormalContent(names, c).specID == Trim(c.specID)
  {
    hide Trim, Sorting.Map;
  }

  lemma NextFreeExactly(names: Names, records: Records, c: Content, version: int, v: int)
    ensures var n := NormalContent(names, c);
      NextFree(names, records, c, version, v) <==>
        DraftVersion(names, records, PlaceOf(n), version) == Some(v) && v >= 1 && !Has(records, n.specID, v)
  {
    hide Trim, NormalContent, TakesVersion, PlaceOf, Latest, NormalPlace;
    ContentPlace(names, c);
    DraftVersionExactly(names, records, c, v);
  }

  lemma DraftWrites(names: Names, records: Records, op: Op, faults: Faults)
    requires op.CreateDraft?
    ensures Written(names, records, op, faults).Some? <==> MayWrite(names, records, op, faults)
    ensures Written(names, records, op, faults).Some? ==>
      Becomes(names, records, op, Written(names, records, op, faults).value)
  {
    hide Trim, NormalContent, ContentValid, ContentNamed, StoredAs, DraftVersion, PlaceOf, NextFree, Has, Owned, Lookup;
    var c := op.content;
    StoredContent(names, c);
    ContentPlace(names, c);
    var version := DraftVersion(names, records, PlaceOf(NormalContent(names, c)), op.version);
    forall v ensures NextFree(names, records, c, op.version, v) <==>
      version == Some(v) && v >= 1 && !Has(records, NormalContent(names, c).specID, v)
    {
      NextFreeExactly(names, records, c, op.version, v);
    }
    if version.Some? && version.value >= 1 && !Has(records, NormalContent(names, c).specID, version.value) {
      assert NextFree(names, records, c, op.version, version.value);
    }
  }

  lemma UpdateWrites(names: Names, records: Records, op: Op, faults: Faults)
    requires op.UpdateDraft?
    ensures Written(names, records, op, faults).Some? <==> MayWrite(names, records, op, faults)
    ensures Written(names, records, op, faults).Some? ==>
      Becomes(names, records, op, Written(names, records, op, faults).value)
  {
    var c := op.content;
    UpdateUnfolds(names, records, op, faults);
    hide Trim, NormalContent, ContentValid, ContentNamed, StoredAs, Owned, Lookup, NormalPlace, PlaceOf, Written;
    LookupMeans(names, records, PlaceOf(NormalContent(names, c)), op.version);
    StoredContent(names, c);
    ContentPlace(names, c);
    OwnedExactly(names, records, Place(c.providerID, c.scope, c.specID), op.version);
  }

  lemma UpdateUnfolds(names: Names, records: Records, op: Op, faults: Faults)
    requires op.UpdateDraft?
    ensures var n := NormalContent(names, op.content);
      var existing := Lookup(names, records, PlaceOf(n), op.version);
      Written(names, records, op, faults) ==
        if faults.get || faults.save || op.version < 1 || existing.None? || existing.value.status.Published?
           || !ContentValid(names, n)
        then None else Some(Write(n.specID, op.version, Spec(n, op.version, Draft, op.stamp, None)))
  {
    hide NormalContent, ContentValid, Lookup, PlaceOf, DraftVersion;
  }

  lemma LookupMeans(names: Names, records: Records, place: Place, version: int)
    ensures Lookup(names, records, place, version).Some? ==>
      place.specID in records && version in records[place.specID]
      && Lookup(names, records, place, version).value == records[place.specID][version]
  {
    hide At;
  }

  lemma MarkWrites(names: Names, records: Records, op: Op, faults: Faults)
    requires op.MarkValidated?
    ensures Written(names, records, op, faults).Some? <==> MayWrite(names, records, op, faults)
    ensures Written(names, records, op, faults).Some? ==>
      Becomes(names, records, op, Written(names, records, op, faults).value)
  {
    LookupMeans(names, records, NormalPlace(names, op.place), op.version);
    hide Trim, OwnerNamed, PlaceValid, Owned, Lookup, NormalPlace, NormalContent, ContentValid, DraftVersion;
    OwnedExactly(names, records, op.place, op.version);
  }

  lemma PublishWrites(names: Names, records: Records, op: Op, faults: Faults)
    requires op.Publish?
    ensures Written(names, records, op, faults).Some? <==> MayWrite(names, records, op, faults)
    ensures Written(names, records, op, faults).Some? ==>
      Becomes(names, records, op, Written(names, records, op, faults).value)
  {
    LookupMeans(names, records, NormalPlace(names, op.place), op.version);
    hide Trim, OwnerNamed, PlaceValid, Owned, Lookup, NormalPlace, NormalContent, ContentValid, DraftVersion;
    OwnedExactly(names, records, op.place, op.version);
  }

  /**
   An operation writes exactly when no store call fails, its input is complete and its version is in the right state,
   and then it writes this.
   */
  lemma WritesExactly(names: Names, records: Records, op: Op, faults: Faults)
    ensures Written(names, records, op, faults).Some? <==> MayWrite(names, records, op, faults)
    ensures Written(names, records, op, faults).Some? ==>
      Becomes(names, records, op, Written(names, records, op, faults).value)
  {
    hide *;
    match op
    case CreateDraft(_, _, _) => DraftWrites(names, records, op, faults);
    case UpdateDraft(_, _, _) => UpdateWrites(names, records, op, faults);
    case MarkValidated(_, _, _) => MarkWrites(names, records, op, faults);
    case Publish(_, _, _) => PublishWrites(names, records, op, faults);
  }

  /** A step changes the written version and no other. */
  lemma StepChangesOne(names: Names, records: Records, op: Op, faults: Faults, id: string, version: int)
    ensures var (after, w) := (Step(names, records, op, faults), Written(names, records, op, faults));
      var written := w.Some? && w.value.id == id && w.value.version == version;
      && (written ==> id in after && version in after[id] && after[id][version] == w.value.spec)
      && (!written ==> (Has(after, id, version) <==> Has(records, id, version)))
      && (!written && Has(records, id, version) ==> after[id][version] == records[id][version])
  {
    hide Written;
  }

  // ---------------------------------------------------------------- runs

  type Calls = seq<(Op, Faults)>

  ghost function Run(names: Names, calls: Calls): Records {
    if calls == [] then map[]
    else
      var (op, faults) := calls[|calls| - 1];
      Step(names, Run(names, calls[..|calls| - 1]), op, faults)
  }

  ghost predicate PublishedAs(records: Records, id: string, version: int, spec: Spec) {
    Has(records, id, version) && records[id][version] == spec && spec.status.Published?
  }

  lemma PublishedStays(names: Names, records: Records, op: Op, faults: Faults, id: string, version: int, spec: Spec)
    requires PublishedAs(records, id, version, spec)
    ensures PublishedAs(Step(names, records, op, faults), id, version, spec)
  {
    hide Written;
  }

  /** A published version never changes again, whatever calls follow. */
  lemma {:induction false} FrozenForever(names: Names, calls: Calls, k: nat, id: string, version: int, spec: Spec)
    requires k <= |calls| && PublishedAs(Run(names, calls[..k]), id, version, spec)
    ensures PublishedAs(Run(names, calls), id, version, spec)
    decreases |calls|
  {
    hide Step, PublishedAs;
    if k == |calls| {
      assert calls[..k] == calls;
    } else {
      var front := calls[..|calls| - 1];
      assert front[..k] == calls[..k];
      FrozenForever(names, front, k, id, version, spec);
      var (op, faults) := calls[|calls| - 1];
      PublishedStays(names, Run(names, front), op, faults, id, version, spec);
    }
  }

  /** The content a version held when it was last marked validated. */
  ghost function LastMarked(names: Names, calls: Calls, id: string, version: int): Option<Content> {
    if calls == [] then None
    else
      var front := calls[..|calls| - 1];
      var (op, faults) := calls[|calls| - 1];
      var w := Written(names, Run(names, front), op, faults);
      if w.Some? && op.MarkValidated? && w.value.id == id && w.value.version == version
      then Some(w.value.spec.content)
      else LastMarked(names, front, id, version)
  }

  /** A validated or published version holds exactly what it held when it was last marked validated. */
  lemma {:induction false} PublishedAsValidated(names: Names, calls: Calls, id: string, version: int)
    requires Has(Run(names, calls), id, version) && !Run(names, calls)[id][version].status.Draft?
    ensures LastMarked(names, calls, id, version) == Some(Run(names, calls)[id][version].content)
    decreases |calls|
  {
    hide Written;
    var front := calls[..|calls| - 1];
    var (op, faults) := calls[|calls| - 1];
    var before := Run(names, front);
    WrittenStatus(names, before, op, faults);
    if Has(before, id, version) && !before[id][version].status.Draft? {
      PublishedAsValidated(names, front, id, version);
    }
  }

  // ---------------------------------------------------------------- automatic versions

  ghost predicate Auto(calls: Calls) {
    forall i :: 0 <= i < |calls| && calls[i].0.CreateDraft? ==> calls[i].0.version == 0
  }

  /** Versions are 1 to n, carry their own numbers, and all but the newest are published. */
  ghost predicate Contiguous(versions: map<int, Spec>) {
    && |versions| >= 1
    && (forall v :: v in versions <==> 1 <= v <= |versions|)
    && (forall v :: v in versions ==> versions[v].version == v)
    && (forall v :: v in versions && v < |versions| ==> versions[v].status.Published?)
  }

  lemma ContiguousStarts(spec: Spec)
    requires spec.version == 1
    ensures Contiguous(map[][spec.version := spec])
  {
    assert map[][spec.version := spec] == map[1 := spec];
  }

  lemma ContiguousGrows(versions: map<int, Spec>, spec: Spec)
    requires Contiguous(versions) && versions[|versions|].status.Published? && spec.version == |versions| + 1
    ensures Contiguous(versions[spec.version := spec])
  {
    assert versions[spec.version := spec].Keys == versions.Keys + {spec.version};
  }

  lemma ContiguousChanges(versions: map<int, Spec>, spec: Spec)
    requires Contiguous(versions) && spec.version in versions && !versions[spec.version].status.Published?
    ensures Contiguous(versions[spec.version := spec])
  {
    assert versions[spec.version := spec].Keys == versions.Keys;
  }

  lemma ContiguousNewest(names: Names, records: Records, place: Place)
    requires place.specID in records && Contiguous(records[place.specID])
    ensures var versions := records[place.specID];
      && |versions| in versions
      && (Latest(names, records, place) == None || Latest(names, records, place) == Some(versions[|versions|]))
  {
    var versions := records[place.specID];
    assert |versions| in versions.Keys && Newest(versions.Keys) in versions;
    assert Newest(versions.Keys) == |versions|;
  }

  /** An automatic draft comes right after a published latest version, or first. */
  lemma AutoDraft(names: Names, records: Records, op: Op, faults: Faults)
    requires op.CreateDraft? && op.version == 0 && Written(names, records, op, faults).Some?
    requires forall id :: id in records ==> Contiguous(records[id])
    ensures var w := Written(names, records, op, faults).value;
      && w.spec.version == w.version
      && (w.id !in records ==> w.version == 1)
      && (w.id in records ==>
            var versions := records[w.id];
            w.version == |versions| + 1 && |versions| in versions && versions[|versions|].status.Published?)
  {
    hide ContentValid, At;
    var n := NormalContent(names, op.content);
    hide NormalContent;
    if n.specID in records {
      ContiguousNewest(names, records, PlaceOf(n));
    }
  }

  lemma ChangeKeepsVersion(names: Names, records: Records, op: Op, faults: Faults)
    requires !op.CreateDraft? && Written(names, records, op, faults).Some?
    requires var w := Written(names, records, op, faults).value; Contiguous(records[w.id])
    ensures var w := Written(names, records, op, faults).value; w.spec.version == w.version
  {
    hide NormalContent, ContentValid, PlaceValid, NormalPlace, At;
  }

  lemma ContiguousStep(names: Names, records: Records, op: Op, faults: Faults)
    requires forall id :: id in records ==> Contiguous(records[id])
    requires op.CreateDraft? ==> op.version == 0
    ensures forall id :: id in Step(names, records, op, faults) ==> Contiguous(Step(names, records, op, faults)[id])
  {
    hide Written, Contiguous;
    var w := Written(names, records, op, faults);
    if w.Some? {
      var (id, spec) := (w.value.id, w.value.spec);
      if op.CreateDraft? {
        AutoDraft(names, records, op, faults);
        if id in records {
          ContiguousGrows(records[id], spec);
        } else {
          ContiguousStarts(spec);
        }
      } else {
        ChangeKeepsVersion(names, records, op, faults);
        ContiguousChanges(records[id], spec);
      }
    }
  }

  /**
   When every draft takes its version from the service, each spec's versions are contiguous from 1 and only the
   newest can be unpublished.
   */
  lemma {:induction false} AutoVersionsContiguous(names: Names, calls: Calls, id: string)
    requires Auto(calls) && id in Run(names, calls)
    ensures Contiguous(Run(names, calls)[id])
  {
    AllContiguous(names, calls);
  }

  lemma {:induction false} AllContiguous(names: Names, calls: Calls)
    requires Auto(calls)
    ensures forall id :: id in Run(names, calls) ==> Contiguous(Run(names, calls)[id])
    decreases |calls|
  {
    hide Step, Contiguous;
    if calls != [] {
      var front := calls[..|calls| - 1];
      assert forall i :: 0 <= i < |front| ==> front[i] == calls[i];
      AllContiguous(names, front);
      var (op, faults) := calls[|calls| - 1];
      assert calls[|calls| - 1].0 == op;
      ContiguousStep(names, Run(names, front), op, faults);
    }
  }

  // ---------------------------------------------------------------- the service

  datatype Result = Error | Ok(spec: Spec)

  /** A call succeeds when it wrote and announced what it wrote; publishing a published version again also does. */
  ghost predicate Answers(names: Names, records: Records, op: Op, faults: Faults, r: Result) {
    var w := Written(names, records, op, faults);
    if w.Some? then r == if faults.bus then Error else Ok(w.value.spec)
    else if op.Publish? && PlaceValid(names, op.place) && op.version >= 1 && !faults.get then
      var current := Lookup(names, records, NormalPlace(names, op.place), op.version);
      r == if current.Some? && current.value.status.Published? then Ok(current.value) else Error
    else r == Error
  }

  class Lifecycle {
    const names: Names
    var records: Records

    constructor (names: Names)
      ensures this.names == names && records == map[]
    {
      this.names, records := names, map[];
    }

    method CreateDraft(content: Content, asked: int, stamp: int, faults: Faults) returns (r: Result)
      modifies this`records
      ensures records == Step(names, old(records), Op.CreateDraft(content, asked, stamp), faults)
      ensures Answers(names, old(records), Op.CreateDraft(content, asked, stamp), faults, r)
    {
      hide NormalContent, ContentValid, At;
      var n := Normalize(names, content);
      var version := asked;
      if version == 0 {
        if faults.latest {
          return Error;
        }
        var latest := GetLatest(names, records, PlaceOf(n));
        if latest.Some? {
          if !latest.value.status.Published? {
            return Error;
          }
          version := latest.value.version + 1;
        } else {
          version := 1;
        }
      }
      if faults.get || Lookup(names, records, PlaceOf(n), version).Some? {
        return Error;
      }
      if version < 1 || !ContentValid(names, n) {
        return Error;
      }
      // The store refuses a version that another provider or scope holds.
      if faults.save || Has(records, n.specID, version) {
        return Error;
      }
      var spec := Spec(n, version, Draft, stamp, None);
      records := Put(records, Write(n.specID, version, spec));
      return if faults.bus then Error else Ok(spec);
    }

    method UpdateDraft(content: Content, version: int, stamp: int, faults: Faults) returns (r: Result)
      modifies this`records
      ensures records == Step(names, old(records), Op.UpdateDraft(content, version, stamp), faults)
      ensures Answers(names, old(records), Op.UpdateDraft(content, version, stamp), faults, r)
    {
      hide NormalContent, ContentValid, At;
      var n := Normalize(names, content);
      if version < 1 || faults.get {
        return Error;
      }
      var existing := Lookup(names, records, PlaceOf(n), version);
      if existing.None? || existing.value.status.Published? {
        return Error;
      }
      if !ContentValid(names, n) || faults.save {
        return Error;
      }
      var spec := Spec(n, version, Draft, stamp, None);
      records := Put(records, Write(n.specID, version, spec));
      return if faults.bus then Error else Ok(spec);
    }

    method MarkValidated(place: Place, version: int, stamp: int, faults: Faults) returns (r: Result)
      modifies this`records
      ensures records == Step(names, old(records), Op.MarkValidated(place, version, stamp), faults)
      ensures Answers(names, old(records), Op.MarkValidated(place, version, stamp), faults, r)
    {
      hide NormalPlace, At, ScopeValid;
      var n := NormalPlace(names, place);
      if !PlaceValid(names, place) || version < 1 || faults.get {
        return Error;
      }
      var current := Lookup(names, records, n, version);
      if current.None? || current.value.status.Published? || faults.save {
        return Error;
      }
      var spec := current.value.(status := Validated, updatedAt := stamp, publishedAt := None);
      records := Put(records, Write(n.specID, version, spec));
      return if faults.bus then Error else Ok(spec);
    }

    method Publish(place: Place, version: int, stamp: int, faults: Faults) returns (r: Result)
      modifies this`records
      ensures records == Step(names, old(records), Op.Publish(place, version, stamp), faults)
      ensures Answers(names, old(records), Op.Publish(place, version, stamp), faults, r)
    {
      hide NormalPlace, At, ScopeValid;
      var n := NormalPlace(names, place);
      if !PlaceValid(names, place) || version < 1 || faults.get {
        return Error;
      }
      var current := Lookup(names, records, n, version);
      if current.None? {
        return Error;
      }
      if current.value.status.Published? {
        return Ok(current.value);
      }
      if !current.value.status.Validated? || faults.save {
        return Error;
      }
      var spec := current.value.(status := Published, updatedAt := stamp, publishedAt := Some(stamp));
      records := Put(records, Write(n.specID, version, spec));
      return if faults.bus then Error else Ok(spec);
    }
  }
}
