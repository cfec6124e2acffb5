/**
 Mapping specs and external schemas: their normal form, when they are valid, and how a spec finds its source object.
 */
module MappingSpecs {
  import opened Text
  import Sorting

  datatype Scope = Scope(kind: string, id: string)

  /**
   `None` stands for a constraint value that is no string. Such values, and whatever else a rule carries without the
   compiler looking at it (required, default, metadata), are in `rest`.
   */
  datatype Rule = Rule(
    id: string, sourcePath: string, targetPath: string, transform: string, constraints: map<string, Option<string>>,
    rest: string)

  datatype Content = Content(
    id: string, specID: string, providerID: string, scope: Scope, name: string, description: string,
    sourceObject: string, targetModel: string, schemaRef: string, rules: seq<Rule>)

  /** `canon` trims and lower-cases; `fold` maps a string to its case class. */
  datatype Names = Names(canon: Normalizer, fold: string -> string)

  // ---------------------------------------------------------------- normal form and validity

  function TrimmedRule(rule: Rule): Rule {
    rule.(id := Trim(rule.id), sourcePath := Trim(rule.sourcePath), targetPath := Trim(rule.targetPath),
          transform := Trim(rule.transform))
  }

  function NormalScope(names: Names, s: Scope): Scope { Scope(names.canon(s.kind), Trim(s.id)) }

  function NormalContent(names: Names, c: Content): Content {
    Content(Trim(c.id), Trim(c.specID), Trim(c.providerID), NormalScope(names, c.scope), Trim(c.name),
            Trim(c.description), Trim(c.sourceObject), Trim(c.targetModel), Trim(c.schemaRef),
            Sorting.Map(TrimmedRule, c.rules))
  }

  /** A spec read back from the store and handed in again is not rewritten. */
  lemma NormalContentStable(names: Names, c: Content)
    ensures NormalContent(names, NormalContent(names, c)) == NormalContent(names, c)
  {
    hide Trim;
    TrimIdempotent(c.id);
    TrimIdempotent(c.specID);
    TrimIdempotent(c.providerID);
    TrimIdempotent(c.scope.id);
    TrimIdempotent(c.name);
    TrimIdempotent(c.description);
    TrimIdempotent(c.sourceObject);
    TrimIdempotent(c.targetModel);
    TrimIdempotent(c.schemaRef);
    TrimmedRulesStable(c.rules);
  }

  lemma TrimmedRulesStable(rules: seq<Rule>)
    ensures Sorting.Map(TrimmedRule, Sorting.Map(TrimmedRule, rules)) == Sorting.Map(TrimmedRule, rules)
  {
    var once := Sorting.Map(TrimmedRule, rules);
    forall i | 0 <= i < |rules| ensures TrimmedRule(once[i]) == once[i] { TrimmedRuleStable(rules[i]); }
    hide TrimmedRule;
    assert Sorting.Map(TrimmedRule, once) == once;
  }

  lemma TrimmedRuleStable(rule: Rule)
    ensures TrimmedRule(TrimmedRule(rule)) == TrimmedRule(rule)
  {
    hide Trim;
    TrimIdempotent(rule.id);
    TrimIdempotent(rule.sourcePath);
    TrimIdempotent(rule.targetPath);
    TrimIdempotent(rule.transform);
  }

  method Normalize(names: Names, c: Content) returns (normal: Content)
    ensures normal == NormalContent(names, c)
  {
    var rules := c.rules;
    for i := 0 to |rules|
      invariant |rules| == |c.rules|
      invariant forall k :: 0 <= k < i ==> rules[k] == TrimmedRule(c.rules[k])
      invariant forall k :: i <= k < |rules| ==> rules[k] == c.rules[k]
    {
      rules := rules[i := TrimmedRule(rules[i])];
    }
    assert rules == Sorting.Map(TrimmedRule, c.rules);
    normal := Content(Trim(c.id), Trim(c.specID), Trim(c.providerID), NormalScope(names, c.scope), Trim(c.name),
                      Trim(c.description), Trim(c.sourceObject), Trim(c.targetModel), Trim(c.schemaRef), rules);
  }

  predicate ScopeValid(names: Names, s: Scope) { names.canon(s.kind) in {"user", "org"} && Trim(s.id) != "" }

  predicate HasPaths(rule: Rule) { Trim(rule.sourcePath) != "" && Trim(rule.targetPath) != "" }

  predicate ContentValid(names: Names, c: Content) {
    && Trim(c.specID) != "" && Trim(c.providerID) != "" && ScopeValid(names, c.scope)
    && Trim(c.name) != "" && Trim(c.sourceObject) != "" && Trim(c.targetModel) != ""
    && forall r :: r in c.rules ==> HasPaths(r)
  }

  // ---------------------------------------------------------------- schemas

  datatype Field = Field(path: string, typeName: string, required: bool)
  datatype ObjectSchema = ObjectSchema(name: string, fields: seq<Field>)
  datatype Schema = Schema(
    id: string, providerID: string, scope: Scope, name: string, version: string, objects: seq<ObjectSchema>)

  predicate SchemaValid(names: Names, schema: Schema) {
    Trim(schema.providerID) != "" && ScopeValid(names, schema.scope) && Trim(schema.name) != "" && schema.objects != []
  }

  /** The schema's id, or its name with its version. */
  function SchemaReference(schema: Schema): string {
    if Trim(schema.id) != "" then Trim(schema.id)
    else if Trim(schema.name) == "" || Trim(schema.version) == "" then Trim(schema.name)
    else Trim(schema.name) + "@" + Trim(schema.version)
  }

  /** The spec was written against another schema. */
  predicate Drifted(schema: Schema, schemaRef: string) {
    var reference := SchemaReference(schema);
    reference != "" && Trim(schemaRef) != "" && Trim(reference) != Trim(schemaRef)
  }

  /** A spec drifts when it names a schema, and that is not this one's id or, lacking an id, its name and version. */
  lemma DriftMeans(schema: Schema, schemaRef: string)
    ensures var (id, name, version, given) :=
        (Trim(schema.id), Trim(schema.name), Trim(schema.version), Trim(schemaRef));
      Drifted(schema, schemaRef) <==>
        && given != "" && given != id
        && (id == "" ==> name != "" && given != if version == "" then name else name + "@" + version)
  {
    var (name, version) := (Trim(schema.name), Trim(schema.version));
    var full := name + "@" + version;
    TrimIdempotent(schema.id);
    TrimIdempotent(schema.name);
    if name != "" && version != "" {
      assert full[0] == name[0] && full[|full| - 1] == version[|version| - 1];
      assert Trim(full) == full;
    }
    hide Trim;
  }

  function ObjectNamed(objects: seq<ObjectSchema>, name: string): (r: Option<seq<Field>>)
    ensures r.None? <==> forall o :: o in objects ==> Trim(o.name) != Trim(name)
    ensures r.Some? ==> exists o :: o in objects && Trim(o.name) == Trim(name) && o.fields == r.value
  {
    if objects == [] then None
    else if Trim(objects[0].name) == Trim(name) then Some(objects[0].fields)
    else ObjectNamed(objects[1..], name)
  }

  /** The first object with the name. */
  method FindObject(objects: seq<ObjectSchema>, name: string) returns (r: Option<seq<Field>>)
    ensures r == ObjectNamed(objects, name)
  {
    hide Trim;
    var i := 0;
    while i < |objects|
      invariant 0 <= i <= |objects| && ObjectNamed(objects, name) == ObjectNamed(objects[i..], name)
    {
      if Trim(objects[i].name) == Trim(name) {
        return Some(objects[i].fields);
      }
      i := i + 1;
    }
    return None;
  }
}
