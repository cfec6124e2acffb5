/**
 From a refresh to the status of its connection to capability decisions: a refresh records what the provider now
 grants and asks for re-consent when some capability lacks a required grant; an invocation is decided from the
 connection's status and the latest snapshot. Refresh is section 6 of RFC 6749.
 */
module Capabilities {
  import opened Text
  import opened Grants

  datatype Mode = Unset | Block | Degrade

  datatype Capability = Capability(name: string, required: seq<string>, optional: seq<string>, denied: Mode)

  /** strings.EqualFold on trimmed strings: `fold` maps a string to its case class. */
  predicate SameName(fold: string -> string, a: string, b: string) { fold(Trim(a)) == fold(Trim(b)) }

  function FirstMatch(fold: string -> string, caps: seq<Capability>, name: string): (r: Option<Capability>)
    ensures r.Some? ==> r.value in caps && fold(Trim(r.value.name)) == fold(Trim(name))
    ensures r.None? <==> forall c :: c in caps ==> fold(Trim(c.name)) != fold(Trim(name))
  {
    if caps == [] then None
    else if SameName(fold, caps[0].name, name) then Some(caps[0])
    else FirstMatch(fold, caps[1..], name)
  }

  method FindCapability(fold: string -> string, caps: seq<Capability>, name: string) returns (r: Option<Capability>)
    ensures r == FirstMatch(fold, caps, name)
  {
    hide Trim;
    var i := 0;
    while i < |caps|
      invariant 0 <= i <= |caps| && FirstMatch(fold, caps, name) == FirstMatch(fold, caps[i..], name)
    {
      if fold(Trim(caps[i].name)) == fold(Trim(name)) {
        return Some(caps[i]);
      }
      i := i + 1;
    }
    return None;
  }

  // ---------------------------------------------------------------- missing grants

  /** No capability lacks a grant that it requires. */
  ghost predicate Covered(canon: Normalizer, caps: seq<Capability>, granted: set<string>) {
    forall c :: c in caps ==> GrantSet(canon, c.required) <= granted
  }

  ghost function AllRequired(canon: Normalizer, caps: seq<Capability>): set<string> {
    set c, g | c in caps && g in GrantSet(canon, c.required) :: g
  }

  lemma CoveredBySet(canon: Normalizer, caps: seq<Capability>, granted: set<string>)
    ensures Covered(canon, caps, granted) <==> AllRequired(canon, caps) <= granted
  {
    hide GrantSet;
    if AllRequired(canon, caps) <= granted {
      forall c | c in caps ensures GrantSet(canon, c.required) <= granted {
        assert forall g :: g in GrantSet(canon, c.required) ==> g in AllRequired(canon, caps);
      }
    }
  }

  method MissingProviderGrants(canon: Normalizer, caps: seq<Capability>, granted: seq<string>)
    returns (missing: seq<string>)
    ensures Lists(missing, AllRequired(canon, caps) - GrantSet(canon, granted))
    ensures missing == [] <==> Covered(canon, caps, GrantSet(canon, granted))
  {
    hide GrantSet, Canonical, Lists, Covered;
    var required: set<string> := {};
    for i := 0 to |caps|
      invariant required == AllRequired(canon, caps[..i])
    {
      assert caps[..i + 1] == caps[..i] + [caps[i]];
      var grants := NormalizeGrants(canon, caps[i].required);
      CanonicalSet(canon, grants);
      required := required + set g | g in grants;
    }
    assert caps[..|caps|] == caps;
    var present := ToGrantSet(canon, granted);
    missing := Lacking(required, present);
    NothingLacking(missing, required, present);
    CoveredBySet(canon, caps, present);
  }

  method MissingGrants(canon: Normalizer, wanted: seq<string>, granted: set<string>) returns (missing: seq<string>)
    ensures Lists(missing, GrantSet(canon, wanted) - granted)
    ensures missing == [] <==> GrantSet(canon, wanted) <= granted
  {
    hide GrantSet, Canonical, Lists;
    var normalized := NormalizeGrants(canon, wanted);
    CanonicalSet(canon, normalized);
    missing := Lacking((set g | g in normalized), granted);
    NothingLacking(missing, GrantSet(canon, wanted), granted);
  }

  // ---------------------------------------------------------------- decisions

  datatype Status = Active | NeedsReconsent | PendingReauth | Disconnected | Errored

  datatype Connection = Connection(id: string, providerID: string, scopeType: string, scopeID: string, status: Status)

  datatype Decision = Decision(allowed: bool, missing: seq<string>, mode: Mode)

  /** A descriptor's verdict on a set of grants. */
  ghost predicate Decides(canon: Normalizer, c: Option<Capability>, granted: set<string>, d: Decision) {
    match c
    case None => d == Decision(false, [], Block)
    case Some(c) =>
      var (required, optional) := (GrantSet(canon, c.required), GrantSet(canon, c.optional));
      && (d.allowed <==> required <= granted)
      && Lists(d.missing, if !d.allowed then required - granted
                          else if c.denied.Degrade? then optional - granted else {})
      && (d.mode == if d.allowed && c.denied.Degrade? then Degrade else Block)
  }

  datatype Invocation = Invocation(
    providerID: string, connectionID: string, scopeType: string, scopeID: string, capability: string)

  type Registry = map<string, seq<Capability>>

  function Registered(registry: Registry, id: string): Option<seq<Capability>> {
    if Trim(id) != "" && Trim(id) in registry then Some(registry[Trim(id)]) else None
  }

  predicate ScopeFits(fold: string -> string, conn: Connection, inv: Invocation) {
    || (Trim(inv.scopeType) == "" && Trim(inv.scopeID) == "")
    || (SameName(fold, conn.scopeType, inv.scopeType) && Trim(conn.scopeID) == Trim(inv.scopeID))
  }

  /** An invocation that names this connection, its provider and its scope, and a capability on the provider's list. */
  predicate Addresses(fold: string -> string, registry: Registry, conn: Connection, inv: Invocation) {
    && SameName(fold, conn.providerID, inv.providerID)
    && Registered(registry, inv.providerID).Some?
    && FirstMatch(fold, Registered(registry, inv.providerID).value, inv.capability).Some?
    && ScopeFits(fold, conn, inv)
  }

  /** When an invocation by connection id is allowed. */
  ghost predicate Permits(canon: Normalizer, fold: string -> string, registry: Registry, conn: Connection,
                          granted: set<string>, inv: Invocation) {
    && Addresses(fold, registry, conn, inv)
    && conn.status.Active?
    && Trim(inv.capability) != "" && Trim(conn.id) != ""
    && Registered(registry, conn.providerID).Some?
    && var c := FirstMatch(fold, Registered(registry, conn.providerID).value, inv.capability);
       c.Some? && GrantSet(canon, c.value.required) <= granted
  }

  /** The first capability of a list with the name, whatever its case and outer spaces. */
  ghost predicate FirstNamed(fold: string -> string, caps: seq<Capability>, name: string, k: nat) {
    && k < |caps| && fold(Trim(caps[k].name)) == fold(Trim(name))
    && forall j :: 0 <= j < k ==> fold(Trim(caps[j].name)) != fold(Trim(name))
  }

  lemma {:induction false} MatchIsFirst(fold: string -> string, caps: seq<Capability>, name: string) returns (k: nat)
    requires FirstMatch(fold, caps, name).Some?
    ensures FirstNamed(fold, caps, name, k) && FirstMatch(fold, caps, name) == Some(caps[k])
  {
    hide Trim;
    k := 0;
    if fold(Trim(caps[0].name)) != fold(Trim(name)) {
      var rest := MatchIsFirst(fold, caps[1..], name);
      k := rest + 1;
      assert forall j :: 0 < j < k ==> caps[j] == caps[1..][j - 1];
    }
  }

  lemma FirstIsMatch(fold: string -> string, caps: seq<Capability>, name: string, m: nat)
    requires FirstNamed(fold, caps, name, m)
    ensures FirstMatch(fold, caps, name) == Some(caps[m])
  {
    hide Trim;
    assert caps[m] in caps;
    var k := MatchIsFirst(fold, caps, name);
    assert k == m;
  }

  /** The first capability with the invoked name, in a provider's list, has all it requires. */
  ghost predicate Entitled(canon: Normalizer, fold: string -> string, caps: seq<Capability>, name: string,
                           granted: set<string>) {
    exists k: nat :: FirstNamed(fold, caps, name, k)
      && forall g :: g in caps[k].required && canon(g) != "" ==> canon(g) in granted
  }

  lemma EntitledExactly(canon: Normalizer, fold: string -> string, caps: seq<Capability>, name: string,
                        granted: set<string>)
    ensures Entitled(canon, fold, caps, name, granted) <==>
      var c := FirstMatch(fold, caps, name); c.Some? && GrantSet(canon, c.value.required) <= granted
  {
    hide FirstMatch, Trim, GrantSet;
    if FirstMatch(fold, caps, name).Some? {
      var k := MatchIsFirst(fold, caps, name);
      RequiredGranted(canon, caps[k].required, granted);
    }
    forall m: nat | FirstNamed(fold, caps, name, m) ensures FirstMatch(fold, caps, name) == Some(caps[m]) {
      FirstIsMatch(fold, caps, name, m);
    }
  }

  lemma ListedExactly(fold: string -> string, caps: seq<Capability>, name: string)
    ensures FirstMatch(fold, caps, name).Some? <==> exists k: nat :: FirstNamed(fold, caps, name, k)
  {
    hide FirstMatch, FirstNamed;
    if FirstMatch(fold, caps, name).Some? { var k := MatchIsFirst(fold, caps, name); }
    if m: nat :| FirstNamed(fold, caps, name, m) { FirstIsMatch(fold, caps, name, m); }
  }

  lemma RequiredGranted(canon: Normalizer, required: seq<string>, granted: set<string>)
    ensures GrantSet(canon, required) <= granted <==>
      forall g :: g in required && canon(g) != "" ==> canon(g) in granted
  {
    if GrantSet(canon, required) <= granted {
      forall g | g in required && canon(g) != "" ensures canon(g) in granted {
        assert canon(g) in GrantSet(canon, required);
      }
    }
  }

  /**
   When an invocation by connection id is allowed, spelled out: an active connection of that provider and scope, a
   capability that the named provider lists, and all that the connection's provider requires for it.
   */
  lemma PermitsExactly(canon: Normalizer, fold: string -> string, registry: Registry, conn: Connection,
                       granted: set<string>, inv: Invocation)
    ensures var (given, own) := (Trim(inv.providerID), Trim(conn.providerID));
      Permits(canon, fold, registry, conn, granted, inv) <==>
        && conn.status == Active && Trim(conn.id) != "" && Trim(inv.capability) != ""
        && fold(own) == fold(given)
        && (Trim(inv.scopeType) == "" == Trim(inv.scopeID)
            || (fold(Trim(conn.scopeType)) == fold(Trim(inv.scopeType)) && Trim(conn.scopeID) == Trim(inv.scopeID)))
        && given != "" && given in registry && (exists k: nat :: FirstNamed(fold, registry[given], inv.capability, k))
        && own != "" && own in registry && Entitled(canon, fold, registry[own], inv.capability, granted)
  {
    hide Trim, FirstMatch, FirstNamed, Entitled, GrantSet;
    var (given, own) := (Trim(inv.providerID), Trim(conn.providerID));
    if given in registry { ListedExactly(fold, registry[given], inv.capability); }
    if own in registry { EntitledExactly(canon, fold, registry[own], inv.capability, granted); }
  }

  /** A connection is active after a refresh exactly when every grant that any capability requires was granted. */
  lemma StatusExactly(canon: Normalizer, caps: seq<Capability>, granted: set<string>)
    ensures StatusAfter(canon, caps, granted) ==
      if forall c, g :: c in caps && g in c.required && canon(g) != "" ==> canon(g) in granted
      then Active else NeedsReconsent
  {
    forall c | c in caps
      ensures GrantSet(canon, c.required) <= granted <==>
        forall g :: g in c.required && canon(g) != "" ==> canon(g) in granted
    {
      RequiredGranted(canon, c.required, granted);
    }
    hide GrantSet;
  }

  /** The status that a successful refresh through a provider with these capabilities leaves. */
  ghost function StatusAfter(canon: Normalizer, caps: seq<Capability>, granted: set<string>): Status {
    if Covered(canon, caps, granted) then Active else NeedsReconsent
  }

  /** What a provider lists; nothing, if it is not registered under this spelling. */
  function Listed(registry: Registry, id: string): seq<Capability> {
    if Registered(registry, id).Some? then Registered(registry, id).value else []
  }

  /** The refresh used a registered spelling of the connection's provider. */
  predicate Refreshable(fold: string -> string, registry: Registry, conn: Connection, refreshedAs: string) {
    Trim(conn.id) != "" && Registered(registry, refreshedAs).Some? && SameName(fold, refreshedAs, conn.providerID)
  }

  /** A refresh that left these grants has left the connection in this state. */
  ghost function AfterRefresh(canon: Normalizer, registry: Registry, conn: Connection, refreshedAs: string,
                              granted: set<string>): Connection
    requires Registered(registry, refreshedAs).Some?
  {
    conn.(status := StatusAfter(canon, Registered(registry, refreshedAs).value, granted))
  }

  /**
   The connection is active exactly when no capability on its provider's list lacks a required grant; then the
   invocation is allowed, and otherwise the connection needs re-consent and the invocation is refused.
   */
  ghost predicate AgreesOn(canon: Normalizer, fold: string -> string, registry: Registry, conn: Connection,
                           refreshedAs: string, granted: set<string>, inv: Invocation)
    requires Refreshable(fold, registry, conn, refreshedAs)
  {
    var covered := Covered(canon, Listed(registry, conn.providerID), granted);
    var after := AfterRefresh(canon, registry, conn, refreshedAs, granted);
    && after.status == (if covered then Active else NeedsReconsent)
    && (Permits(canon, fold, registry, after, granted, inv) <==> covered)
  }

  /** An invocation by this connection's id that the service can place, of a capability with a name. */
  predicate Invokes(fold: string -> string, registry: Registry, conn: Connection, inv: Invocation) {
    Addresses(fold, registry, conn, inv) && Trim(inv.capability) != ""
  }

  ghost predicate Agrees(canon: Normalizer, fold: string -> string, registry: Registry, conn: Connection,
                         refreshedAs: string)
    requires Refreshable(fold, registry, conn, refreshedAs)
  {
    && (forall granted ::
          Covered(canon, Registered(registry, refreshedAs).value, granted)
          <==> Covered(canon, Listed(registry, conn.providerID), granted))
    && (forall granted, inv :: Invokes(fold, registry, conn, inv) ==>
          AgreesOn(canon, fold, registry, conn, refreshedAs, granted, inv))
  }

  /** Every capability that a registered spelling of the provider lists by a name is on the connection's list too. */
  predicate ListsAllNames(fold: string -> string, registry: Registry, conn: Connection) {
    forall id, c :: id in registry && Trim(id) == id != "" && SameName(fold, conn.providerID, id)
                    && c in registry[id] && Trim(c.name) != "" ==>
      FirstMatch(fold, Listed(registry, conn.providerID), c.name).Some?
  }

  /** The grants that each refresh spelling and the connection's own spelling require in all. */
  ghost predicate SameRequired(canon: Normalizer, registry: Registry, conn: Connection, refreshedAs: string)
    requires Registered(registry, refreshedAs).Some?
  {
    AllRequired(canon, Registered(registry, refreshedAs).value)
    == AllRequired(canon, Listed(registry, conn.providerID))
  }

  /** strings.EqualFold equates a blank with a blank only. */
  ghost predicate BlankAlone(fold: string -> string) { forall s :: fold(s) == fold("") ==> s == "" }

  /** The agreement for one invocation needs only the spellings that take part in it. */
  lemma RefreshAgreesWithInvocations(canon: Normalizer, fold: string -> string, registry: Registry, conn: Connection,
                                     granted: set<string>, refreshedAs: string, inv: Invocation)
    requires Refreshable(fold, registry, conn, refreshedAs) && Invokes(fold, registry, conn, inv)
    requires SameRequired(canon, registry, conn, refreshedAs)
    requires FirstMatch(fold, Listed(registry, conn.providerID), inv.capability).Some?
    ensures AgreesOn(canon, fold, registry, conn, refreshedAs, granted, inv)
  {
    hide Trim, GrantSet, AllRequired;
    CoveredBySet(canon, Registered(registry, refreshedAs).value, granted);
    CoveredBySet(canon, Listed(registry, conn.providerID), granted);
  }

  /** Refreshed and invoked under its own spelling, a connection agrees whatever else is registered. */
  lemma OwnSpellingAgrees(canon: Normalizer, fold: string -> string, registry: Registry, conn: Connection,
                          granted: set<string>, refreshedAs: string, inv: Invocation)
    requires Refreshable(fold, registry, conn, refreshedAs) && Invokes(fold, registry, conn, inv)
    requires Trim(refreshedAs) == Trim(conn.providerID) == Trim(inv.providerID)
    ensures AgreesOn(canon, fold, registry, conn, refreshedAs, granted, inv)
  {
    hide Trim;
    RefreshAgreesWithInvocations(canon, fold, registry, conn, granted, refreshedAs, inv);
  }

  /**
   Refresh agrees with every invocation, whatever the provider grants, if and only if the refreshed spelling and the
   connection's own require the same grants and every name that some spelling lists is on the connection's list.
   */
  lemma RefreshAgreesExactly(canon: Normalizer, fold: string -> string, registry: Registry, conn: Connection,
                             refreshedAs: string)
    requires Refreshable(fold, registry, conn, refreshedAs) && BlankAlone(fold)
    ensures Agrees(canon, fold, registry, conn, refreshedAs)
      <==> SameRequired(canon, registry, conn, refreshedAs) && ListsAllNames(fold, registry, conn)
  {
    if SameRequired(canon, registry, conn, refreshedAs) && ListsAllNames(fold, registry, conn) {
      AgreementHolds(canon, fold, registry, conn, refreshedAs);
    }
    if Agrees(canon, fold, registry, conn, refreshedAs) {
      AgreementNeeds(canon, fold, registry, conn, refreshedAs);
    }
  }

  lemma AgreementHolds(canon: Normalizer, fold: string -> string, registry: Registry, conn: Connection,
                       refreshedAs: string)
    requires Refreshable(fold, registry, conn, refreshedAs) && BlankAlone(fold)
    requires SameRequired(canon, registry, conn, refreshedAs) && ListsAllNames(fold, registry, conn)
    ensures Agrees(canon, fold, registry, conn, refreshedAs)
  {
    var (own, used) := (Listed(registry, conn.providerID), Registered(registry, refreshedAs).value);
    forall granted ensures Covered(canon, used, granted) <==> Covered(canon, own, granted) {
      CoveredBySet(canon, used, granted);
      CoveredBySet(canon, own, granted);
    }
    forall granted, inv | Invokes(fold, registry, conn, inv)
      ensures AgreesOn(canon, fold, registry, conn, refreshedAs, granted, inv)
    {
      NameIsListed(fold, registry, conn, inv);
      RefreshAgreesWithInvocations(canon, fold, registry, conn, granted, refreshedAs, inv);
    }
  }

  lemma NameIsListed(fold: string -> string, registry: Registry, conn: Connection, inv: Invocation)
    requires ListsAllNames(fold, registry, conn) && BlankAlone(fold)
    requires Invokes(fold, registry, conn, inv)
    ensures FirstMatch(fold, Listed(registry, conn.providerID), inv.capability).Some?
  {
    var id := Trim(inv.providerID);
    TrimIdempotent(inv.providerID);
    var c := FirstMatch(fold, registry[id], inv.capability).value;
    hide Trim;
    assert Trim(c.name) != "";
    var listed := FirstMatch(fold, Listed(registry, conn.providerID), c.name).value;
    assert SameName(fold, listed.name, inv.capability);
  }

  lemma AgreementNeeds(canon: Normalizer, fold: string -> string, registry: Registry, conn: Connection,
                       refreshedAs: string)
    requires Refreshable(fold, registry, conn, refreshedAs) && Agrees(canon, fold, registry, conn, refreshedAs)
    ensures SameRequired(canon, registry, conn, refreshedAs) && ListsAllNames(fold, registry, conn)
  {
    var (own, used) := (Listed(registry, conn.providerID), Registered(registry, refreshedAs).value);
    var (needs, asks) := (AllRequired(canon, own), AllRequired(canon, used));
    CoveredBySet(canon, own, needs);
    CoveredBySet(canon, used, needs);
    CoveredBySet(canon, own, asks);
    CoveredBySet(canon, used, asks);
    forall id, c | id in registry && Trim(id) == id != "" && SameName(fold, conn.providerID, id)
                   && c in registry[id] && Trim(c.name) != ""
      ensures FirstMatch(fold, own, c.name).Some?
    {
      var inv := Invocation(id, conn.id, "", "", c.name);
      assert Trim("") == "";
      assert Invokes(fold, registry, conn, inv);
      assert AgreesOn(canon, fold, registry, conn, refreshedAs, needs, inv);
    }
  }

  /** Two spellings with different capabilities: refreshed through one the connection is active, yet it is refused. */
  lemma SpellingsDisagree(canon: Normalizer, fold: string -> string)
    requires fold("A") == fold("a") && canon("g") == "g"
    ensures var registry: Registry := map["A" := [], "a" := [Capability("c", ["g"], [], Block)]];
      var conn := Connection("1", "a", "", "", Active);
      var inv := Invocation("a", "1", "", "", "c");
      && SameName(fold, "A", conn.providerID) && Registered(registry, "A").Some?
      && conn.status == StatusAfter(canon, Registered(registry, "A").value, {})
      && Addresses(fold, registry, conn, inv)
      && !Permits(canon, fold, registry, conn, {}, inv)
  {
    var registry: Registry := map["A" := [], "a" := [Capability("c", ["g"], [], Block)]];
    assert Trim("A") == "A" && Trim("a") == "a" && Trim("c") == "c" && Trim("") == "";
    assert Registered(registry, "a").value[0].name == "c";
    assert canon("g") in GrantSet(canon, ["g"]);
  }

  // ---------------------------------------------------------------- the service

  datatype InvokeResult = InvokeError | Invoked(decision: Decision)

  /** How scope inheritance answers an invocation without a connection id. */
  datatype Resolution = ResolutionFails | NotResolved | Resolved(connection: Connection)

  datatype InvokeFaults = InvokeFaults(load: bool, reload: bool, snapshot: bool)

  datatype RefreshRequest = RefreshRequest(connectionID: string, providerID: string)

  /** What the auth strategy obtained. */
  datatype Refreshed = Refreshed(requested: seq<string>, granted: seq<string>, scopes: seq<string>, aware: Awareness)

  /** `exchange` stands for every failure between loading the connection and activating it. */
  datatype RefreshFaults = RefreshFaults(
    load: bool, exchange: bool, activate: Fault, grants: Faults, transition: Fault, note: bool)

  datatype RefreshOutcome = Rejected | ActivationFailed | GrantsFailed | TransitionFailed | Done

  class Service {
    const fold: string -> string
    const registry: Registry
    const keeper: GrantKeeper
    var connections: map<string, Connection>

    constructor (fold: string -> string, registry: Registry, keeper: GrantKeeper)
      requires keeper.Valid()
      ensures Valid() && this.fold == fold && this.registry == registry && this.keeper == keeper
      ensures connections == map[]
    {
      this.fold, this.registry, this.keeper, connections := fold, registry, keeper, map[];
    }

    ghost predicate Valid()
      reads this, keeper
    {
      keeper.Valid() && forall id :: id in connections ==> connections[id].id == id
    }

    ghost function GrantedTo(id: string): set<string>
      reads keeper
    {
      Granted(keeper.LedgerOf(id))
    }

    method Evaluate(id: string, capability: string, faults: InvokeFaults) returns (d: Option<Decision>)
      requires Valid()
      ensures d.Some? <==>
        && Trim(id) != "" && Trim(capability) != "" && !faults.reload && id in connections
        && var caps := Registered(registry, connections[id].providerID);
           caps.Some? && (FirstMatch(fold, caps.value, capability).Some? ==> !faults.snapshot)
      ensures d.Some? ==>
        var caps := Registered(registry, connections[id].providerID).value;
        Decides(keeper.canon, FirstMatch(fold, caps, capability), GrantedTo(id), d.value)
    {
      hide Trim, GrantSet, FirstMatch, Canonical;
      if Trim(id) == "" || Trim(capability) == "" || faults.reload || id !in connections {
        return None;
      }
      var caps := Registered(registry, connections[id].providerID);
      if caps.None? {
        return None;
      }
      var found := FindCapability(fold, caps.value, capability);
      if found.None? {
        return Some(Decision(false, [], Block));
      }
      if faults.snapshot {
        return None;
      }
      var c := found.value;
      keeper.PreviousSet(id);
      var granted := ToGrantSet(keeper.canon, LatestGranted(keeper.LedgerOf(id)));
      var missing := MissingGrants(keeper.canon, c.required, granted);
      if missing != [] {
        return Some(Decision(false, missing, Block));
      }
      missing := MissingGrants(keeper.canon, c.optional, granted);
      if missing != [] && c.denied.Degrade? {
        return Some(Decision(true, missing, Degrade));
      }
      return Some(Decision(true, [], if c.denied.Unset? then Block else c.denied));
    }

    /** The evaluator alone, which does not look at the status: what a connection found by scope is held to. */
    ghost predicate Evaluates(id: string, capability: string)
      reads this, keeper
    {
      && Trim(id) != "" && Trim(capability) != "" && id in connections
      && Registered(registry, connections[id].providerID).Some?
      && var c := FirstMatch(fold, Registered(registry, connections[id].providerID).value, capability);
         c.Some? && GrantSet(keeper.canon, c.value.required) <= GrantedTo(id)
    }

    method InvokeCapability(inv: Invocation, inherited: Resolution, faults: InvokeFaults) returns (r: InvokeResult)
      requires Valid()
      ensures Trim(inv.connectionID) != "" ==>
        var id := Trim(inv.connectionID);
        ((r.Invoked? && r.decision.allowed) <==>
          && id in connections && faults == InvokeFaults(false, false, false)
          && Permits(keeper.canon, fold, registry, connections[id], GrantedTo(id), inv))
      ensures Trim(inv.connectionID) != "" && Trim(inv.connectionID) in connections && !faults.load ==>
        var conn := connections[Trim(inv.connectionID)];
        Addresses(fold, registry, conn, inv) && !conn.status.Active? ==> r == Invoked(Decision(false, [], Block))
      ensures Trim(inv.connectionID) != "" && Trim(inv.connectionID) in connections && r.Invoked? ==>
        var conn := connections[Trim(inv.connectionID)];
        conn.status.Active? ==>
          var caps := Registered(registry, conn.providerID);
          caps.Some?
          && Decides(keeper.canon, FirstMatch(fold, caps.value, inv.capability), GrantedTo(conn.id), r.decision)
      ensures Trim(inv.connectionID) == "" ==>
        var caps := Registered(registry, inv.providerID);
        ((r.Invoked? && r.decision.allowed) <==>
          && caps.Some? && FirstMatch(fold, caps.value, inv.capability).Some?
          && inherited.Resolved? && !faults.reload && !faults.snapshot
          && Evaluates(inherited.connection.id, inv.capability))
    {
      hide Trim, GrantSet, FirstMatch, Lists, keeper.Valid, SameName;
      var caps := Registered(registry, inv.providerID);
      if caps.None? {
        return InvokeError;
      }
      var descriptor := FindCapability(fold, caps.value, inv.capability);
      if descriptor.None? {
        return InvokeError;
      }
      var id := Trim(inv.connectionID);
      var resolution := inherited;
      if id != "" {
        if faults.load || id !in connections {
          return InvokeError;
        }
        var conn := connections[id];
        if !SameName(fold, conn.providerID, inv.providerID) {
          return InvokeError;
        }
        if Trim(inv.scopeType) != "" || Trim(inv.scopeID) != "" {
          if !SameName(fold, conn.scopeType, inv.scopeType) || Trim(conn.scopeID) != Trim(inv.scopeID) {
            return InvokeError;
          }
        }
        resolution := if conn.status.Active? then Resolved(conn) else NotResolved;
      }
      match resolution
      case ResolutionFails =>
        return InvokeError;
      case NotResolved =>
        return Invoked(Decision(false, [], Block));
      case Resolved(conn) =>
        var decision := Evaluate(conn.id, inv.capability, faults);
        if decision.None? {
          return InvokeError;
        }
        return Invoked(decision.value);
    }

    function Spelling(req: RefreshRequest, conn: Connection): string {
      if Trim(req.providerID) == "" then Trim(conn.providerID) else Trim(req.providerID)
    }

    /** The connection and provider of a refresh are found and fit. */
    predicate CanRefresh(req: RefreshRequest)
      reads this`connections
    {
      var id := Trim(req.connectionID);
      && id != "" && id in connections
      && var conn := connections[id];
         && Trim(conn.providerID) != ""
         && fold(Trim(Spelling(req, conn))) == fold(Trim(conn.providerID))
         && Trim(Spelling(req, conn)) != "" && Trim(Spelling(req, conn)) in registry
    }

    method SetStatus(id: string, status: Status, fault: Fault) returns (ok: bool)
      requires Valid() && id in connections
      modifies this`connections
      ensures Valid() && ok == fault.Fine?
      ensures connections == if fault.FailsUnwritten? then old(connections)
                             else old(connections)[id := old(connections)[id].(status := status)]
    {
      if !fault.FailsUnwritten? {
        connections := connections[id := connections[id].(status := status)];
      }
      return fault.Fine?;
    }

    /** The state that each outcome of the tail of a refresh leaves. */
    ghost predicate Settles(
      id: string, was: Status, caps: seq<Capability>, obtained: Refreshed, faults: RefreshFaults,
      outcome: RefreshOutcome)
      requires id in connections
      reads this, keeper
    {
      var status := connections[id].status;
      match outcome
      case Rejected => false
      case ActivationFailed => !faults.activate.Fine? && status == if faults.activate.FailsWritten? then Active else was
      case GrantsFailed => status.Active?
      case TransitionFailed =>
        && !faults.transition.Fine? && !Covered(keeper.canon, caps, GrantedTo(id))
        && status == if faults.transition.FailsWritten? then NeedsReconsent else Active
      case Done =>
        && GrantedTo(id)
           == keeper.Meant(if obtained.granted != [] then obtained.granted else obtained.scopes, obtained.aware)
        && status == StatusAfter(keeper.canon, caps, GrantedTo(id))
    }

    /** Records what the provider granted and looks for a capability that lacks a required grant. */
    method RecordGrants(id: string, caps: seq<Capability>, obtained: Refreshed, faults: Faults)
      returns (ok: bool, covered: bool)
      requires Valid()
      modifies keeper`ledgers
      ensures Valid() && keeper.Others(id) == old(keeper.Others(id))
      ensures ok ==>
        && GrantedTo(id)
           == keeper.Meant(if obtained.granted != [] then obtained.granted else obtained.scopes, obtained.aware)
        && (covered <==> Covered(keeper.canon, caps, GrantedTo(id)))
    {
      hide GrantSet, Lists, keeper.Valid, Legal, Next, LosesEvent, Granted, Covered, AllRequired;
      var granted := obtained.granted;
      if |granted| == 0 {
        granted := obtained.scopes;
      }
      var reconciled, _ := keeper.Reconcile(id, obtained.aware, obtained.requested, granted, faults);
      if reconciled.Failed? {
        return false, false;
      }
      keeper.PreviousSet(id);
      var missing := MissingProviderGrants(keeper.canon, caps, reconciled.snapshot.granted);
      return true, missing == [];
    }

    /** The tail of a refresh: activate, reconcile the grants, and ask for re-consent where some are missing. */
    method SettleRefresh(id: string, caps: seq<Capability>, obtained: Refreshed, faults: RefreshFaults)
      returns (outcome: RefreshOutcome)
      requires Valid() && id in connections
      modifies this`connections, keeper`ledgers
      ensures Valid() && keeper.Others(id) == old(keeper.Others(id)) && id in connections
      ensures connections == old(connections)[id := old(connections)[id].(status := connections[id].status)]
      ensures Settles(id, old(connections)[id].status, caps, obtained, faults, outcome)
      ensures outcome.ActivationFailed? <==> !faults.activate.Fine?
      ensures outcome.ActivationFailed? ==> keeper.ledgers == old(keeper.ledgers)
    {
      hide GrantSet, Lists, keeper.Valid, Granted, Covered, Next, keeper.Meant;
      var ok := SetStatus(id, Active, faults.activate);
      if !ok {
        return ActivationFailed;
      }
      var covered;
      ok, covered := RecordGrants(id, caps, obtained, faults.grants);
      if !ok {
        return GrantsFailed;
      }
      if !covered {
        ok := AskForReconsent(id, faults);
      }
      return if ok then Done else TransitionFailed;
    }

    method AskForReconsent(id: string, faults: RefreshFaults) returns (ok: bool)
      requires Valid() && id in connections
      modifies this`connections, keeper`ledgers
      ensures Valid() && keeper.Others(id) == old(keeper.Others(id)) && ok == faults.transition.Fine?
      ensures GrantedTo(id) == old(GrantedTo(id))
      ensures connections == if faults.transition.FailsUnwritten? then old(connections)
                             else old(connections)[id := old(connections)[id].(status := NeedsReconsent)]
    {
      hide keeper.Valid, Granted, Next;
      ok := SetStatus(id, NeedsReconsent, faults.transition);
      if ok {
        keeper.AppendNote(id, Delta(ReconsentRequested, [], []), faults.note);
      }
    }

    method Refresh(req: RefreshRequest, obtained: Refreshed, faults: RefreshFaults) returns (outcome: RefreshOutcome)
      requires Valid()
      modifies this`connections, keeper`ledgers
      ensures Valid()
      ensures outcome.Rejected? <==> !old(CanRefresh(req)) || faults.load || faults.exchange
      ensures outcome.Rejected? ==> connections == old(connections) && keeper.ledgers == old(keeper.ledgers)
      ensures !outcome.Rejected? ==>
        var id := Trim(req.connectionID);
        old(CanRefresh(req)) &&
        var conn := old(connections)[id];
        && id in connections && connections == old(connections)[id := conn.(status := connections[id].status)]
        && keeper.Others(id) == old(keeper.Others(id))
        && Settles(id, conn.status, Registered(registry, Spelling(req, conn)).value, obtained, faults, outcome)
    {
      hide Trim, GrantSet, FirstMatch, Lists, keeper.Valid, Settles;
      var id := Trim(req.connectionID);
      if id == "" || faults.load || id !in connections {
        return Rejected;
      }
      var conn := connections[id];
      if Trim(conn.providerID) == "" {
        return Rejected;
      }
      var spelling := Trim(req.providerID);
      if spelling == "" {
        spelling := Trim(conn.providerID);
      }
      if !SameName(fold, spelling, conn.providerID) {
        return Rejected;
      }
      var caps := Registered(registry, spelling);
      if caps.None? || faults.exchange {
        return Rejected;
      }
      outcome := SettleRefresh(id, caps.value, obtained, faults);
      assert !outcome.Rejected? by { SettledIsNoRejection(id, conn.status, caps.value, obtained, faults, outcome); }
    }

    lemma SettledIsNoRejection(
      id: string, was: Status, caps: seq<Capability>, obtained: Refreshed, faults: RefreshFaults,
      outcome: RefreshOutcome)
      requires id in connections && Settles(id, was, caps, obtained, faults, outcome)
      ensures !outcome.Rejected?
    {
    }
  }
}
