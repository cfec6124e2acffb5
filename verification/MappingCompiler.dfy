/**
 The mapping compiler: it checks a spec's rules against a source object and sorts what it compiled. For a spec
 without errors the result does not depend on the order in which the rules were written.
 */
module MappingCompiler {
  import opened Text
  import opened MappingSpecs
  import opened MappingTransforms
  import Sorting

  datatype Request = Request(schema: Schema, spec: Content, version: int, status: string)

  /** What compilation works on: the verdicts on schema and header, the source object's fields, the trimmed rules. */
  datatype Prepared = Prepared(
    schemaValid: bool, headerValid: bool, drifted: bool, source: Option<seq<Field>>, rules: seq<Rule>)

  predicate HeaderValid(names: Names, req: Request) {
    && ContentValid(names, req.spec.(rules := []))
    && req.version >= 1 && req.status in ["draft", "validated", "published"]
  }

  function Prepare(names: Names, req: Request): Prepared {
    var spec := NormalContent(names, req.spec);
    Prepared(SchemaValid(names, req.schema), HeaderValid(names, req.(spec := spec)),
             Drifted(req.schema, spec.schemaRef), ObjectNamed(req.schema.objects, spec.sourceObject), spec.rules)
  }

  datatype CompiledRule = CompiledRule(rule: Rule, sourceType: FieldType, targetType: FieldType, transform: Transform)

  datatype Severity = ErrorIssue | WarningIssue
  datatype Code =
    | InvalidSchema | InvalidSpec | SchemaDrift | SourceObjectNotFound | SourceFieldNotFound | TransformUnknown
    | TypeIncompatible | TargetPathDuplicate | RequiredFieldUnmapped
  datatype Issue = Issue(code: Code, severity: Severity, ruleID: string, sourcePath: string, targetPath: string)

  function Raise(code: Code, rule: Rule): Issue { Issue(code, ErrorIssue, rule.id, rule.sourcePath, rule.targetPath) }

  predicate HasErrors(issues: seq<Issue>) { exists i :: 0 <= i < |issues| && issues[i].severity.ErrorIssue? }

  // ---------------------------------------------------------------- rules

  /** Trimmed, with the transform under its canonical name. */
  function NormalRule(lib: Library, rule: Rule): Rule {
    TrimmedRule(rule).(transform := NormalTransform(lib, rule.transform))
  }

  function TargetTypeOf(lib: Library, rule: Rule): FieldType {
    var named := (key: string) => key in rule.constraints && rule.constraints[key].Some?;
    if named("target_type") then TypeNamed(lib, rule.constraints["target_type"].value)
    else if named("targetType") then TypeNamed(lib, rule.constraints["targetType"].value)
    else if named("type") then TypeNamed(lib, rule.constraints["type"].value)
    else Blank
  }

  /** The last field with a path wins. */
  function FieldAt(fields: seq<Field>, path: string): Option<Field> {
    if fields == [] then None
    else
      var last := fields[|fields| - 1];
      if Trim(last.path) == path then Some(last) else FieldAt(fields[..|fields| - 1], path)
  }

  predicate RequiredPath(fields: seq<Field>, path: string) {
    exists i :: 0 <= i < |fields| && fields[i].required && Trim(fields[i].path) == path
  }

  function SourceTypeOf(lib: Library, fields: seq<Field>, path: string): FieldType {
    if FieldAt(fields, path).Some? then TypeNamed(lib, FieldAt(fields, path).value.typeName) else Blank
  }

  function Compiled(lib: Library, fields: seq<Field>, rule: Rule): CompiledRule {
    var normal := NormalRule(lib, rule);
    CompiledRule(normal, SourceTypeOf(lib, fields, normal.sourcePath), TargetTypeOf(lib, normal),
                 TransformNamed(normal.transform))
  }

  // ---------------------------------------------------------------- what a spec without errors is

  predicate RuleAccepted(lib: Library, fields: seq<Field>, rule: Rule) {
    HasPaths(rule) && RulePasses(lib, fields, rule)
  }

  predicate RulePasses(lib: Library, fields: seq<Field>, rule: Rule) {
    var c := Compiled(lib, fields, rule);
    && FieldAt(fields, c.rule.sourcePath).Some?
    && !c.transform.Unsupported?
    && Compatible(c.sourceType, c.targetType, c.transform)
  }

  predicate Maps(fields: seq<Field>, rule: Rule, path: string) {
    Trim(rule.sourcePath) == path && FieldAt(fields, path).Some? && FieldAt(fields, path).value.required
  }

  ghost predicate Accepted(lib: Library, req: Prepared) {
    && req.schemaValid && req.headerValid && req.source.Some?
    && (forall r :: r in req.rules ==> RuleAccepted(lib, req.source.value, r))
    && DistinctTargets(req.rules)
    && (forall path :: RequiredPath(req.source.value, path) ==>
          exists r :: r in req.rules && Maps(req.source.value, r, path))
  }

  function Target(rule: Rule): string { Trim(rule.targetPath) }

  predicate DistinctTargets(rules: seq<Rule>) { Sorting.Distinct(Sorting.Map(Target, rules)) }

  // ---------------------------------------------------------------- the canonical order

  /** Target path, then source path, then rule id. */
  predicate Before(a: CompiledRule, b: CompiledRule) {
    if a.rule.targetPath != b.rule.targetPath then AtMost(a.rule.targetPath, b.rule.targetPath)
    else if a.rule.sourcePath != b.rule.sourcePath then AtMost(a.rule.sourcePath, b.rule.sourcePath)
    else AtMost(a.rule.id, b.rule.id)
  }

  lemma BeforeTotal(a: CompiledRule, b: CompiledRule)
    ensures Before(a, b) || Before(b, a)
  {
    AtMostTotal(a.rule.targetPath, b.rule.targetPath);
    AtMostTotal(a.rule.sourcePath, b.rule.sourcePath);
    AtMostTotal(a.rule.id, b.rule.id);
  }

  lemma StepTransitive(a: string, b: string, c: string)
    requires AtMost(a, b) && AtMost(b, c)
    ensures AtMost(a, c) && (a == c ==> a == b)
  {
    AtMostTransitive(a, b, c);
    if a == c { AtMostAntisymmetric(a, b); }
  }

  lemma BeforeTransitive(a: CompiledRule, b: CompiledRule, c: CompiledRule)
    requires Before(a, b) && Before(b, c)
    ensures Before(a, c)
  {
    var x, y, z := a.rule, b.rule, c.rule;
    hide AtMost;
    if x.targetPath != y.targetPath && y.targetPath != z.targetPath {
      StepTransitive(x.targetPath, y.targetPath, z.targetPath);
    } else if x.targetPath == y.targetPath == z.targetPath {
      if x.sourcePath != y.sourcePath && y.sourcePath != z.sourcePath {
        StepTransitive(x.sourcePath, y.sourcePath, z.sourcePath);
      } else if x.sourcePath == y.sourcePath == z.sourcePath {
        AtMostTransitive(x.id, y.id, z.id);
      }
    }
  }

  lemma BeforeIsOrder()
    ensures Sorting.TotalOrder(Before)
  {
    forall a, b ensures Before(a, b) || Before(b, a) { BeforeTotal(a, b); }
    forall a, b, c | Before(a, b) && Before(b, c) ensures Before(a, c) { BeforeTransitive(a, b, c); }
  }

  function CompileAll(lib: Library, fields: seq<Field>, rules: seq<Rule>): seq<CompiledRule> {
    Sorting.Map((rule: Rule) => Compiled(lib, fields, rule), rules)
  }

  function CompiledRules(lib: Library, req: Prepared): seq<CompiledRule> {
    if req.source.None? then [] else Sorting.Sort(CompileAll(lib, req.source.value, req.rules), Before)
  }

  // ---------------------------------------------------------------- permutations

  lemma PermutationKeepsAccepted(lib: Library, req: Prepared, rules: seq<Rule>)
    requires Accepted(lib, req) && multiset(rules) == multiset(req.rules)
    ensures Accepted(lib, req.(rules := rules))
  {
    hide RuleAccepted, Maps, RequiredPath, Target, Sorting.Distinct, Sorting.Map;
    Sorting.PermutationKeepsElements(req.rules, rules);
    forall path | RequiredPath(req.source.value, path)
      ensures exists r :: r in rules && Maps(req.source.value, r, path)
    {
      var r :| r in req.rules && Maps(req.source.value, r, path);
    }
    Sorting.MapPermutes(Target, req.rules, rules);
    Sorting.PermutationKeepsDistinct(Sorting.Map(Target, req.rules), Sorting.Map(Target, rules));
  }

  lemma CompiledTargetsDistinct(lib: Library, fields: seq<Field>, rules: seq<Rule>)
    requires DistinctTargets(rules)
    ensures Sorting.NoTies(CompileAll(lib, fields, rules), Before)
  {
    hide TargetTypeOf, SourceTypeOf, TransformNamed, Trim;
    var out, targets := CompileAll(lib, fields, rules), Sorting.Map(Target, rules);
    forall i, j | 0 <= i < |out| && 0 <= j < |out| && Before(out[i], out[j]) && Before(out[j], out[i])
      ensures targets[i] == targets[j]
    {
      TiedTargets(out[i], out[j]);
    }
    hide Before, CompileAll, Sorting.Map;
    Sorting.DistinctKeysNoTies(out, targets, Before);
  }

  lemma TiedTargets(a: CompiledRule, b: CompiledRule)
    requires Before(a, b) && Before(b, a)
    ensures a.rule.targetPath == b.rule.targetPath
  {
    if a.rule.targetPath != b.rule.targetPath { AtMostAntisymmetric(a.rule.targetPath, b.rule.targetPath); }
  }

  lemma PreparedCanonical(lib: Library, req: Prepared, rules: seq<Rule>)
    requires Accepted(lib, req) && multiset(rules) == multiset(req.rules)
    ensures Accepted(lib, req.(rules := rules))
    ensures CompiledRules(lib, req.(rules := rules)) == CompiledRules(lib, req)
  {
    PermutationKeepsAccepted(lib, req, rules);
    var fields := req.source.value;
    hide Before, Sorting.Sort, Compiled, RuleAccepted, Sorting.Map;
    Sorting.MapPermutes((rule: Rule) => Compiled(lib, fields, rule), req.rules, rules);
    CompiledTargetsDistinct(lib, fields, req.rules);
    BeforeIsOrder();
    Sorting.SortCanonical(CompileAll(lib, fields, req.rules), CompileAll(lib, fields, rules), Before);
  }

  function WithRules(req: Request, rules: seq<Rule>): Request { req.(spec := req.spec.(rules := rules)) }

  lemma PrepareRules(names: Names, req: Request, rules: seq<Rule>)
    ensures Prepare(names, WithRules(req, rules)) == Prepare(names, req).(rules := Sorting.Map(TrimmedRule, rules))
    ensures Prepare(names, req).rules == Sorting.Map(TrimmedRule, req.spec.rules)
  {
    hide Trim, Sorting.Map, SchemaValid, Drifted, ScopeValid;
  }

  /** Canonical compilation: every permutation of an accepted spec is accepted and compiles to the same list. */
  lemma CanonicalCompilation(lib: Library, names: Names, req: Request, rules: seq<Rule>)
    requires Accepted(lib, Prepare(names, req)) && multiset(rules) == multiset(req.spec.rules)
    ensures Accepted(lib, Prepare(names, WithRules(req, rules)))
    ensures CompiledRules(lib, Prepare(names, WithRules(req, rules))) == CompiledRules(lib, Prepare(names, req))
  {
    PrepareRules(names, req, rules);
    hide Prepare, Accepted, CompiledRules, Sorting.Map;
    Sorting.MapPermutes(TrimmedRule, req.spec.rules, rules);
    PreparedCanonical(lib, Prepare(names, req), Sorting.Map(TrimmedRule, rules));
  }

  // ---------------------------------------------------------------- when the order shows

  /** Rules with the same target, source and id compile to the same. */
  predicate Unambiguous(lib: Library, fields: seq<Field>, rules: seq<Rule>) {
    forall a, b :: a in rules && b in rules && SamePlace(a, b) ==> Compiled(lib, fields, a) == Compiled(lib, fields, b)
  }

  predicate SamePlace(a: Rule, b: Rule) {
    Trim(a.targetPath) == Trim(b.targetPath) && Trim(a.sourcePath) == Trim(b.sourcePath) && Trim(a.id) == Trim(b.id)
  }

  lemma TiedIsSamePlace(lib: Library, fields: seq<Field>, a: Rule, b: Rule)
    ensures Sorting.Tied(Compiled(lib, fields, a), Compiled(lib, fields, b), Before) <==> SamePlace(a, b)
  {
    var (x, y) := (Compiled(lib, fields, a).rule, Compiled(lib, fields, b).rule);
    assert x.targetPath == Trim(a.targetPath) && x.sourcePath == Trim(a.sourcePath) && x.id == Trim(a.id);
    assert y.targetPath == Trim(b.targetPath) && y.sourcePath == Trim(b.sourcePath) && y.id == Trim(b.id);
    hide Trim, TargetTypeOf, SourceTypeOf, TransformNamed, NormalRule, AtMost;
    Antisymmetric(x.targetPath, y.targetPath);
    Antisymmetric(x.sourcePath, y.sourcePath);
    Antisymmetric(x.id, y.id);
  }

  lemma Antisymmetric(a: string, b: string)
    ensures AtMost(a, b) && AtMost(b, a) <==> a == b
  {
    if AtMost(a, b) && AtMost(b, a) { AtMostAntisymmetric(a, b); }
    AtMostTotal(a, a);
  }

  lemma UnambiguousMeansNoTies(lib: Library, fields: seq<Field>, rules: seq<Rule>)
    ensures Unambiguous(lib, fields, rules) <==> Sorting.NoTies(CompileAll(lib, fields, rules), Before)
  {
    var all := CompileAll(lib, fields, rules);
    hide Before, Compiled, SamePlace;
    forall a, b | a in rules && b in rules
      ensures Compiled(lib, fields, a) in all && Compiled(lib, fields, b) in all
      ensures Sorting.Tied(Compiled(lib, fields, a), Compiled(lib, fields, b), Before) <==> SamePlace(a, b)
    {
      var i :| 0 <= i < |rules| && rules[i] == a;
      var j :| 0 <= j < |rules| && rules[j] == b;
      assert all[i] == Compiled(lib, fields, a) && all[j] == Compiled(lib, fields, b);
      TiedIsSamePlace(lib, fields, a, b);
    }
    forall x, y | x in all && y in all && Unambiguous(lib, fields, rules) && Before(x, y) && Before(y, x)
      ensures x == y
    {
      var i :| 0 <= i < |all| && all[i] == x;
      var j :| 0 <= j < |all| && all[j] == y;
      assert rules[i] in rules && rules[j] in rules;
    }
  }

  /** However the rules are written down, they compile to the same list. */
  ghost predicate OrderFree(lib: Library, names: Names, req: Request) {
    forall rules :: multiset(rules) == multiset(req.spec.rules) ==>
      CompiledRules(lib, Prepare(names, WithRules(req, rules))) == CompiledRules(lib, Prepare(names, req))
  }

  /**
   The order of the rules never shows if and only if rules with the same target, source and id compile to the same.
   */
  lemma OrderFreeExactly(lib: Library, names: Names, req: Request)
    ensures var prepared := Prepare(names, req);
      OrderFree(lib, names, req) <==> prepared.source.None? || Unambiguous(lib, prepared.source.value, prepared.rules)
  {
    hide *;
    var prepared := Prepare(names, req);
    if prepared.source.None? {
      NothingToOrder(lib, names, req);
    } else {
      var fields := prepared.source.value;
      var compile := (rule: Rule) => Compiled(lib, fields, TrimmedRule(rule));
      OrderFreeSorts(lib, names, req, compile);
      PrepareRules(names, req, req.spec.rules);
      TwoMaps(lib, fields, req.spec.rules, compile);
      BeforeIsOrder();
      Sorting.SortsAlikeExactly(compile, req.spec.rules, Before);
      UnambiguousMeansNoTies(lib, fields, prepared.rules);
    }
  }

  lemma NothingToOrder(lib: Library, names: Names, req: Request)
    requires Prepare(names, req).source.None?
    ensures OrderFree(lib, names, req)
  {
    hide Prepare;
    forall rules ensures CompiledRules(lib, Prepare(names, WithRules(req, rules))) == [] {
      PrepareRules(names, req, rules);
    }
  }

  lemma OrderFreeSorts(lib: Library, names: Names, req: Request, compile: Rule -> CompiledRule)
    requires Prepare(names, req).source.Some?
    requires forall r :: compile(r) == Compiled(lib, Prepare(names, req).source.value, TrimmedRule(r))
    ensures OrderFree(lib, names, req) <==> Sorting.SortsAlike(compile, req.spec.rules, Before)
  {
    hide Prepare, CompiledRules, Before, Compiled, TrimmedRule, Sorting.Map, Sorting.Sort;
    forall rules
      ensures CompiledRules(lib, Prepare(names, WithRules(req, rules)))
           == Sorting.Sort(Sorting.Map(compile, rules), Before)
    {
      CompiledWith(lib, names, req, rules, compile);
    }
    assert WithRules(req, req.spec.rules) == req;
  }

  lemma CompiledWith(lib: Library, names: Names, req: Request, rules: seq<Rule>, compile: Rule -> CompiledRule)
    requires Prepare(names, req).source.Some?
    requires forall r :: compile(r) == Compiled(lib, Prepare(names, req).source.value, TrimmedRule(r))
    ensures CompiledRules(lib, Prepare(names, WithRules(req, rules)))
         == Sorting.Sort(Sorting.Map(compile, rules), Before)
  {
    PrepareRules(names, req, rules);
    hide Prepare, Before, Compiled, TrimmedRule, CompileAll, Sorting.Map, Sorting.Sort;
    TwoMaps(lib, Prepare(names, req).source.value, rules, compile);
  }

  lemma TwoMaps(lib: Library, fields: seq<Field>, rules: seq<Rule>, compile: Rule -> CompiledRule)
    requires forall r :: compile(r) == Compiled(lib, fields, TrimmedRule(r))
    ensures CompileAll(lib, fields, Sorting.Map(TrimmedRule, rules)) == Sorting.Map(compile, rules)
  {
    hide Compiled, TrimmedRule;
  }

  /** Two rules with one target, source and id that differ in anything the compiled rule keeps do show their order. */
  lemma TiesKeepTheirOrder(lib: Library, names: Names, req: Request, a: Rule, b: Rule)
    requires Prepare(names, req).source.Some? && req.spec.rules == [a, b] && SamePlace(a, b)
    requires Compiled(lib, Prepare(names, req).source.value, TrimmedRule(a))
          != Compiled(lib, Prepare(names, req).source.value, TrimmedRule(b))
    ensures !OrderFree(lib, names, req)
  {
    hide *;
    TrimmedPlace(a, b);
    OrderFreeExactly(lib, names, req);
    PrepareRules(names, req, req.spec.rules);
    Ambiguous(lib, Prepare(names, req).source.value, a, b);
  }

  lemma Ambiguous(lib: Library, fields: seq<Field>, a: Rule, b: Rule)
    requires SamePlace(TrimmedRule(a), TrimmedRule(b))
    requires Compiled(lib, fields, TrimmedRule(a)) != Compiled(lib, fields, TrimmedRule(b))
    ensures !Unambiguous(lib, fields, Sorting.Map(TrimmedRule, [a, b]))
  {
    hide Compiled, SamePlace, TrimmedRule;
    var trimmed := Sorting.Map(TrimmedRule, [a, b]);
    assert trimmed[0] == TrimmedRule(a) && trimmed[1] == TrimmedRule(b);
    assert trimmed[0] in trimmed && trimmed[1] in trimmed;
  }

  lemma TrimmedPlace(a: Rule, b: Rule)
    requires SamePlace(a, b)
    ensures SamePlace(TrimmedRule(a), TrimmedRule(b))
  {
    hide Trim;
  }

  /** So two rules that differ only in what the compiler does not look at still show their order. */
  lemma RestShows(lib: Library, names: Names, req: Request, a: Rule, rest: string)
    requires Prepare(names, req).source.Some? && req.spec.rules == [a, a.(rest := rest)] && a.rest != rest
    ensures !OrderFree(lib, names, req)
  {
    hide Prepare, OrderFree, Trim, TransformNamed, NormalTransform, TargetTypeOf, SourceTypeOf;
    TiesKeepTheirOrder(lib, names, req, a, a.(rest := rest));
  }

  // ---------------------------------------------------------------- what the compiled rules are

  ghost predicate LexAtMost(a: string, b: string) { exists k: nat :: Precedes(a, b, k) }

  /** Ascending by target path, then source path, then id. */
  ghost predicate InOrder(a: Rule, b: Rule) {
    if a.targetPath != b.targetPath then LexAtMost(a.targetPath, b.targetPath)
    else if a.sourcePath != b.sourcePath then LexAtMost(a.sourcePath, b.sourcePath)
    else LexAtMost(a.id, b.id)
  }

  lemma BeforeMeans(a: CompiledRule, b: CompiledRule)
    ensures Before(a, b) <==> InOrder(a.rule, b.rule)
  {
    hide AtMost, Precedes;
    AtMostMeans(a.rule.targetPath, b.rule.targetPath);
    AtMostMeans(a.rule.sourcePath, b.rule.sourcePath);
    AtMostMeans(a.rule.id, b.rule.id);
  }

  lemma CompiledAscending(lib: Library, req: Prepared, i: nat, j: nat)
    requires i < j < |CompiledRules(lib, req)|
    ensures InOrder(CompiledRules(lib, req)[i].rule, CompiledRules(lib, req)[j].rule)
  {
    var all := CompileAll(lib, req.source.value, req.rules);
    assert CompiledRules(lib, req) == Sorting.Sort(all, Before);
    hide Before, InOrder, CompileAll, CompiledRules, Sorting.Sort;
    BeforeIsOrder();
    Sorting.SortSorts(all, Before);
    BeforeMeans(CompiledRules(lib, req)[i], CompiledRules(lib, req)[j]);
  }

  /** The last field with a path. */
  ghost predicate LastAt(fields: seq<Field>, path: string, k: nat) {
    && k < |fields| && Trim(fields[k].path) == path
    && forall j :: k < j < |fields| ==> Trim(fields[j].path) != path
  }

  lemma {:induction false} FieldAtMeans(fields: seq<Field>, path: string)
    ensures FieldAt(fields, path).None? <==> forall k: nat :: !LastAt(fields, path, k)
    ensures forall k: nat :: LastAt(fields, path, k) ==> FieldAt(fields, path) == Some(fields[k])
  {
    hide Trim;
    if fields != [] {
      var front := fields[..|fields| - 1];
      if Trim(fields[|front|].path) == path {
        assert LastAt(fields, path, |front|);
      } else {
        FieldAtMeans(front, path);
        forall k: nat ensures LastAt(fields, path, k) <==> LastAt(front, path, k) {
          assert forall j :: 0 <= j < |front| ==> front[j] == fields[j];
        }
      }
    }
  }

  /** The type that the constraints name, the first of three keys with a text deciding. */
  ghost predicate ConstrainedTo(lib: Library, constraints: map<string, Option<string>>, ty: FieldType) {
    var named := (key: string) => key in constraints && constraints[key].Some?;
    && (named("target_type") ==> ty == TypeNamed(lib, constraints["target_type"].value))
    && (named("targetType") && !named("target_type") ==> ty == TypeNamed(lib, constraints["targetType"].value))
    && (named("type") && !named("target_type") && !named("targetType") ==>
          ty == TypeNamed(lib, constraints["type"].value))
    && (!named("type") && !named("target_type") && !named("targetType") ==> ty == Blank)
  }

  /** What a rule compiles to, spelled out on the rule as it was written. */
  ghost predicate CompilesTo(lib: Library, fields: seq<Field>, raw: Rule, c: CompiledRule) {
    var word := Trim(lib.lower(Trim(raw.transform)));
    && c.rule.id == Trim(raw.id) && c.rule.sourcePath == Trim(raw.sourcePath)
    && c.rule.targetPath == Trim(raw.targetPath)
    && c.rule.constraints == raw.constraints && c.rule.rest == raw.rest
    && c.rule.transform == (if word == "" then "identity" else word) && c.transform == TransformNamed(c.rule.transform)
    && (forall k: nat :: LastAt(fields, c.rule.sourcePath, k) ==> c.sourceType == TypeNamed(lib, fields[k].typeName))
    && ((forall k: nat :: !LastAt(fields, c.rule.sourcePath, k)) ==> c.sourceType == Blank)
    && ConstrainedTo(lib, raw.constraints, c.targetType)
  }

  lemma CompiledSpelled(lib: Library, fields: seq<Field>, raw: Rule)
    ensures CompilesTo(lib, fields, raw, Compiled(lib, fields, TrimmedRule(raw)))
  {
    TrimIdempotent(raw.id);
    TrimIdempotent(raw.sourcePath);
    TrimIdempotent(raw.targetPath);
    FieldAtMeans(fields, Trim(raw.sourcePath));
    TrimIdempotent(raw.transform);
    hide Trim, FieldAt, LastAt, TypeNamed, TransformNamed;
  }

  /** As many compiled rules as given ones, each of them compiled from a given one and each given one compiled. */
  ghost predicate AllCompiled(lib: Library, fields: seq<Field>, given: seq<Rule>, rules: seq<CompiledRule>) {
    && |rules| == |given|
    && (forall raw :: raw in given ==> exists c :: c in rules && CompilesTo(lib, fields, raw, c))
    && (forall c :: c in rules ==> exists raw :: raw in given && CompilesTo(lib, fields, raw, c))
  }

  lemma MapCompiles(lib: Library, fields: seq<Field>, given: seq<Rule>, compile: Rule -> CompiledRule)
    requires forall r :: compile(r) == Compiled(lib, fields, TrimmedRule(r))
    ensures AllCompiled(lib, fields, given, Sorting.Map(compile, given))
  {
    hide Compiled, TrimmedRule, CompilesTo;
    var all := Sorting.Map(compile, given);
    forall raw | raw in given ensures exists c :: c in all && CompilesTo(lib, fields, raw, c) {
      var i :| 0 <= i < |given| && given[i] == raw;
      assert all[i] in all;
      CompiledSpelled(lib, fields, raw);
    }
    forall c | c in all ensures exists raw :: raw in given && CompilesTo(lib, fields, raw, c) {
      var i :| 0 <= i < |all| && all[i] == c;
      assert given[i] in given;
      CompiledSpelled(lib, fields, given[i]);
    }
  }

  lemma PermutedCompiled(
    lib: Library, fields: seq<Field>, given: seq<Rule>, all: seq<CompiledRule>, rules: seq<CompiledRule>)
    requires AllCompiled(lib, fields, given, all) && multiset(all) == multiset(rules)
    ensures AllCompiled(lib, fields, given, rules)
  {
    hide CompilesTo;
    Sorting.PermutationKeepsElements(all, rules);
    Sorting.SameSize(all, rules);
  }

  /** The compiled rules are the given ones, each compiled. */
  lemma CompiledFrom(lib: Library, names: Names, req: Request)
    requires Prepare(names, req).source.Some?
    ensures AllCompiled(lib, Prepare(names, req).source.value, req.spec.rules, CompiledRules(lib, Prepare(names, req)))
  {
    hide *;
    var fields := Prepare(names, req).source.value;
    var compile := (raw: Rule) => Compiled(lib, fields, TrimmedRule(raw));
    var all := Sorting.Map(compile, req.spec.rules);
    CompiledWith(lib, names, req, req.spec.rules, compile);
    AsGiven(req);
    MapCompiles(lib, fields, req.spec.rules, compile);
    Sorting.SortPermutes(all, Before);
    PermutedCompiled(lib, fields, req.spec.rules, all, CompiledRules(lib, Prepare(names, req)));
  }

  lemma AsGiven(req: Request)
    ensures WithRules(req, req.spec.rules) == req
  {
  }

  // ---------------------------------------------------------------- acceptance on the request as given

  ghost predicate ScopeNamed(names: Names, scope: Scope) {
    (names.canon(scope.kind) == "user" || names.canon(scope.kind) == "org") && Trim(scope.id) != ""
  }

  /** Everything that schema and spec must name is named. */
  ghost predicate AllNamed(names: Names, req: Request) {
    var (schema, spec) := (req.schema, req.spec);
    && Trim(schema.providerID) != "" && Trim(schema.name) != "" && schema.objects != []
    && ScopeNamed(names, schema.scope) && ScopeNamed(names, spec.scope)
    && Trim(spec.specID) != "" && Trim(spec.providerID) != "" && Trim(spec.name) != ""
    && Trim(spec.sourceObject) != "" && Trim(spec.targetModel) != ""
    && req.version >= 1 && (req.status == "draft" || req.status == "validated" || req.status == "published")
  }

  lemma AllNamedExactly(names: Names, req: Request)
    ensures var p := Prepare(names, req); p.schemaValid && p.headerValid <==> AllNamed(names, req)
  {
    var spec := req.spec;
    TrimIdempotent(spec.specID);
    TrimIdempotent(spec.providerID);
    TrimIdempotent(spec.name);
    TrimIdempotent(spec.sourceObject);
    TrimIdempotent(spec.targetModel);
    TrimIdempotent(spec.scope.id);
    hide Trim, Sorting.Map, Drifted, ObjectNamed;
  }

  /** The rule has both paths, its source is a field, its transform exists and its types fit. */
  ghost predicate RuleFits(lib: Library, fields: seq<Field>, raw: Rule) {
    && Trim(raw.sourcePath) != "" && Trim(raw.targetPath) != ""
    && (exists k: nat :: LastAt(fields, Trim(raw.sourcePath), k))
    && exists c :: CompilesTo(lib, fields, raw, c) && !c.transform.Unsupported?
         && Compatible(c.sourceType, c.targetType, c.transform)
  }

  lemma CompiledUnique(lib: Library, fields: seq<Field>, raw: Rule, c: CompiledRule)
    ensures CompilesTo(lib, fields, raw, c) <==> c == Compiled(lib, fields, TrimmedRule(raw))
  {
    CompiledSpelled(lib, fields, raw);
    var d := Compiled(lib, fields, TrimmedRule(raw));
    hide Trim, Compiled, LastAt, TypeNamed, TransformNamed, ConstrainedTo;
    if CompilesTo(lib, fields, raw, c) {
      assert c.sourceType == d.sourceType;
      ConstrainedAlike(lib, raw.constraints, c.targetType, d.targetType);
    }
  }

  lemma ConstrainedAlike(lib: Library, constraints: map<string, Option<string>>, a: FieldType, b: FieldType)
    requires ConstrainedTo(lib, constraints, a) && ConstrainedTo(lib, constraints, b)
    ensures a == b
  {
    hide TypeNamed;
  }

  lemma RuleFitsExactly(lib: Library, fields: seq<Field>, raw: Rule)
    ensures RuleAccepted(lib, fields, TrimmedRule(raw)) <==> RuleFits(lib, fields, raw)
  {
    var c := Compiled(lib, fields, TrimmedRule(raw));
    CompiledSpelled(lib, fields, raw);
    FieldAtMeans(fields, Trim(raw.sourcePath));
    forall d ensures CompilesTo(lib, fields, raw, d) <==> d == c { CompiledUnique(lib, fields, raw, d); }
    TrimIdempotent(raw.sourcePath);
    TrimIdempotent(raw.targetPath);
    assert c.rule.sourcePath == Trim(raw.sourcePath);
    hide Trim, CompilesTo, Compiled, LastAt, FieldAt, Compatible;
  }

  ghost predicate FirstNamed(objects: seq<ObjectSchema>, name: string, k: nat) {
    && k < |objects| && Trim(objects[k].name) == Trim(name)
    && forall j :: 0 <= j < k ==> Trim(objects[j].name) != Trim(name)
  }

  lemma {:induction false} ObjectIsFirst(objects: seq<ObjectSchema>, name: string) returns (k: nat)
    requires ObjectNamed(objects, name).Some?
    ensures FirstNamed(objects, name, k) && ObjectNamed(objects, name) == Some(objects[k].fields)
  {
    hide Trim;
    k := 0;
    if Trim(objects[0].name) != Trim(name) {
      var rest := ObjectIsFirst(objects[1..], name);
      k := rest + 1;
      assert forall j :: 0 < j < k ==> objects[j] == objects[1..][j - 1];
    }
  }

  lemma FirstIsObject(objects: seq<ObjectSchema>, name: string, m: nat)
    requires FirstNamed(objects, name, m)
    ensures ObjectNamed(objects, name) == Some(objects[m].fields)
  {
    hide Trim;
    assert objects[m] in objects;
    var k := ObjectIsFirst(objects, name);
    assert k == m;
  }

  /** Some rule reads the required field's path, and the last field there is required too. */
  ghost predicate Read(fields: seq<Field>, rules: seq<Rule>, field: Field) {
    exists r, k: nat :: r in rules && Trim(r.sourcePath) == Trim(field.path)
      && LastAt(fields, Trim(field.path), k) && fields[k].required
  }

  ghost predicate RulesFit(lib: Library, fields: seq<Field>, rules: seq<Rule>) {
    && (forall r :: r in rules ==> RuleFits(lib, fields, r))
    && (forall i, j :: 0 <= i < j < |rules| ==> Trim(rules[i].targetPath) != Trim(rules[j].targetPath))
    && (forall f :: f in fields && f.required ==> Read(fields, rules, f))
  }

  /** When a request is accepted, spelled out on the request as it was given. */
  ghost predicate Acceptable(lib: Library, names: Names, req: Request, o: nat) {
    && AllNamed(names, req) && FirstNamed(req.schema.objects, req.spec.sourceObject, o)
    && RulesFit(lib, req.schema.objects[o].fields, req.spec.rules)
  }

  lemma ReadByRule(fields: seq<Field>, rule: Rule, path: string)
    ensures Maps(fields, TrimmedRule(rule), path) <==>
      Trim(rule.sourcePath) == path && exists k: nat :: LastAt(fields, path, k) && fields[k].required
  {
    FieldAtMeans(fields, path);
    TrimIdempotent(rule.sourcePath);
    hide Trim, FieldAt, LastAt;
  }

  lemma ReadExactly(fields: seq<Field>, rules: seq<Rule>, field: Field)
    ensures Read(fields, rules, field) <==>
      exists r :: r in Sorting.Map(TrimmedRule, rules) && Maps(fields, r, Trim(field.path))
  {
    var path, trimmed := Trim(field.path), Sorting.Map(TrimmedRule, rules);
    hide Trim, TrimmedRule, Maps;
    if Read(fields, rules, field) {
      var r, k: nat :| r in rules && Trim(r.sourcePath) == path && LastAt(fields, path, k) && fields[k].required;
      var i :| 0 <= i < |rules| && rules[i] == r;
      ReadByRule(fields, r, path);
      assert trimmed[i] in trimmed;
    }
    if t :| t in trimmed && Maps(fields, t, path) {
      var i :| 0 <= i < |trimmed| && trimmed[i] == t;
      ReadByRule(fields, rules[i], path);
      assert rules[i] in rules;
    }
  }

  lemma RequiredExactly(fields: seq<Field>, rules: seq<Rule>)
    ensures (forall f :: f in fields && f.required ==> Read(fields, rules, f)) <==>
      forall path :: RequiredPath(fields, path) ==>
        exists r :: r in Sorting.Map(TrimmedRule, rules) && Maps(fields, r, path)
  {
    hide Maps, Read, Trim, TrimmedRule, Sorting.Map;
    forall f | f in fields && f.required
      ensures RequiredPath(fields, Trim(f.path))
      ensures Read(fields, rules, f) <==>
        exists r :: r in Sorting.Map(TrimmedRule, rules) && Maps(fields, r, Trim(f.path))
    {
      ReadExactly(fields, rules, f);
      var i :| 0 <= i < |fields| && fields[i] == f;
    }
    forall path | RequiredPath(fields, path)
      ensures exists f :: f in fields && f.required && Trim(f.path) == path
    {
      var i :| 0 <= i < |fields| && fields[i].required && Trim(fields[i].path) == path;
      assert fields[i] in fields;
    }
  }

  lemma TargetsExactly(rules: seq<Rule>)
    ensures DistinctTargets(Sorting.Map(TrimmedRule, rules)) <==>
      forall i, j :: 0 <= i < j < |rules| ==> Trim(rules[i].targetPath) != Trim(rules[j].targetPath)
  {
    var trimmed := Sorting.Map(TrimmedRule, rules);
    forall i | 0 <= i < |rules| ensures Target(trimmed[i]) == Trim(rules[i].targetPath) {
      TrimIdempotent(rules[i].targetPath);
    }
    hide Trim, TrimmedRule, Target;
    var targets := Sorting.Map(Target, trimmed);
    assert forall i :: 0 <= i < |rules| ==> targets[i] == Trim(rules[i].targetPath);
    assert |targets| == |rules|;
  }

  lemma RulesExactly(lib: Library, fields: seq<Field>, rules: seq<Rule>)
    ensures (forall r :: r in Sorting.Map(TrimmedRule, rules) ==> RuleAccepted(lib, fields, r)) <==>
      forall r :: r in rules ==> RuleFits(lib, fields, r)
  {
    hide RuleAccepted, RuleFits, TrimmedRule;
    var trimmed := Sorting.Map(TrimmedRule, rules);
    if forall r :: r in trimmed ==> RuleAccepted(lib, fields, r) {
      forall r | r in rules ensures RuleFits(lib, fields, r) {
        var i :| 0 <= i < |rules| && rules[i] == r;
        assert trimmed[i] in trimmed;
        RuleFitsExactly(lib, fields, r);
      }
    } else {
      var t :| t in trimmed && !RuleAccepted(lib, fields, t);
      var i :| 0 <= i < |trimmed| && trimmed[i] == t;
      RuleFitsExactly(lib, fields, rules[i]);
      assert rules[i] in rules;
    }
  }

  lemma RulesFitExactly(lib: Library, p: Prepared, rules: seq<Rule>)
    requires p.source.Some? && p.rules == Sorting.Map(TrimmedRule, rules)
    ensures Accepted(lib, p) <==> p.schemaValid && p.headerValid && RulesFit(lib, p.source.value, rules)
  {
    RulesExactly(lib, p.source.value, rules);
    TargetsExactly(rules);
    RequiredExactly(p.source.value, rules);
    hide RuleFits, Read, Sorting.Map, DistinctTargets, RuleAccepted, RequiredPath, Maps, Trim;
  }

  /** Exactly these requests are accepted. */
  lemma AcceptedExactly(lib: Library, names: Names, req: Request)
    ensures Accepted(lib, Prepare(names, req)) <==> exists o: nat :: Acceptable(lib, names, req, o)
  {
    var p := Prepare(names, req);
    AllNamedExactly(names, req);
    PrepareRules(names, req, req.spec.rules);
    PrepareSource(names, req);
    NoSource(lib, p);
    hide Prepare, AllNamed, FirstNamed, RulesFit, Sorting.Map, Trim, Accepted, ObjectNamed;
    if p.source.Some? {
      var k := ObjectIsFirst(req.schema.objects, req.spec.sourceObject);
      RulesFitExactly(lib, p, req.spec.rules);
      if Accepted(lib, p) { assert Acceptable(lib, names, req, k); }
    }
    if o: nat :| Acceptable(lib, names, req, o) {
      FirstIsObject(req.schema.objects, req.spec.sourceObject, o);
    }
  }

  lemma PrepareSource(names: Names, req: Request)
    ensures Prepare(names, req).source == ObjectNamed(req.schema.objects, req.spec.sourceObject)
  {
    TrimIdempotent(req.spec.sourceObject);
    hide Trim;
    SameObject(req.schema.objects, Trim(req.spec.sourceObject), req.spec.sourceObject);
  }

  lemma {:induction false} SameObject(objects: seq<ObjectSchema>, a: string, b: string)
    requires Trim(a) == Trim(b)
    ensures ObjectNamed(objects, a) == ObjectNamed(objects, b)
  {
    hide Trim;
    if objects != [] { SameObject(objects[1..], a, b); }
  }

  // ---------------------------------------------------------------- the compiler

  lemma ErrorsAppend(a: seq<Issue>, b: seq<Issue>)
    ensures HasErrors(a + b) <==> HasErrors(a) || HasErrors(b)
  {
    if HasErrors(a) {
      var i :| 0 <= i < |a| && a[i].severity.ErrorIssue?;
      assert (a + b)[i].severity.ErrorIssue?;
    }
    if HasErrors(b) {
      var i :| 0 <= i < |b| && b[i].severity.ErrorIssue?;
      assert (a + b)[|a| + i].severity.ErrorIssue?;
    }
  }

  method BuildIndexes(fields: seq<Field>) returns (byPath: map<string, Field>, required: map<string, Field>)
    ensures forall p :: p in byPath <==> FieldAt(fields, p).Some?
    ensures forall p :: p in byPath ==> FieldAt(fields, p) == Some(byPath[p])
    ensures forall p :: p in required <==> RequiredPath(fields, p)
    ensures forall p :: p in required ==> Trim(required[p].path) == p
  {
    hide Trim;
    byPath, required := map[], map[];
    for n := 0 to |fields|
      invariant forall p :: p in byPath <==> FieldAt(fields[..n], p).Some?
      invariant forall p :: p in byPath ==> FieldAt(fields[..n], p) == Some(byPath[p])
      invariant forall p :: p in required <==> RequiredPath(fields[..n], p)
      invariant forall p :: p in required ==> Trim(required[p].path) == p
    {
      var path := Trim(fields[n].path);
      byPath := byPath[path := fields[n]];
      assert fields[..n + 1][..n] == fields[..n];
      RequiredSnoc(fields, n);
      if fields[n].required {
        required := required[path := fields[n]];
      }
    }
    assert fields[..|fields|] == fields;
  }

  lemma RequiredSnoc(fields: seq<Field>, n: nat)
    requires n < |fields|
    ensures forall p :: RequiredPath(fields[..n + 1], p) <==>
      RequiredPath(fields[..n], p) || (fields[n].required && Trim(fields[n].path) == p)
  {
    hide Trim;
    forall p
      ensures RequiredPath(fields[..n + 1], p) <==>
        RequiredPath(fields[..n], p) || (fields[n].required && Trim(fields[n].path) == p)
    {
      if RequiredPath(fields[..n], p) {
        var i :| 0 <= i < n && fields[..n][i].required && Trim(fields[..n][i].path) == p;
        assert fields[..n + 1][i].required;
      }
      if fields[n].required && Trim(fields[n].path) == p { assert fields[..n + 1][n].required; }
    }
  }

  // Which issues are raised; their order and messages are left out.

  ghost predicate RuleIssue(lib: Library, fields: seq<Field>, raw: Rule, repeated: bool, x: Issue) {
    var c := Compiled(lib, fields, raw);
    var found := FieldAt(fields, Trim(raw.sourcePath)).Some?;
    && x == Issue(x.code, ErrorIssue, Trim(raw.id), Trim(raw.sourcePath), Trim(raw.targetPath))
    && match x.code
       case SourceFieldNotFound => !found
       case TransformUnknown => c.transform.Unsupported?
       case TypeIncompatible =>
         found && !c.transform.Unsupported? && !Compatible(c.sourceType, c.targetType, c.transform)
       case TargetPathDuplicate => repeated
       case _ => false
  }

  /** An earlier rule has the target already. */
  ghost predicate RepeatsAt(rules: seq<Rule>, i: nat)
    requires i < |rules|
  {
    Target(rules[i]) != "" && TakenUpTo(rules, i, Target(rules[i]))
  }

  ghost predicate RulesIssue(lib: Library, fields: seq<Field>, rules: seq<Rule>, n: nat, x: Issue)
    requires n <= |rules|
  {
    exists i: nat :: i < n && RuleIssue(lib, fields, rules[i], RepeatsAt(rules, i), x)
  }

  /** Issues of the whole spec name no rule. */
  ghost predicate HeaderIssue(names: Names, req: Request, x: Issue) {
    || (x == Issue(InvalidSchema, ErrorIssue, "", "", "") && !SchemaValid(names, req.schema))
    || (x == Issue(InvalidSpec, ErrorIssue, "", "", "")
        && !(HeaderValid(names, req) && forall r :: r in req.spec.rules ==> HasPaths(r)))
    || (x == Issue(SchemaDrift, WarningIssue, "", "", "") && Drifted(req.schema, req.spec.schemaRef))
  }

  ghost predicate UnmappedIssue(fields: seq<Field>, rules: seq<Rule>, x: Issue) {
    && x == Issue(RequiredFieldUnmapped, ErrorIssue, "", x.sourcePath, "")
    && RequiredPath(fields, x.sourcePath) && !Mapped(fields, rules, x.sourcePath)
  }

  /** All that compilation has to say of a request. */
  ghost predicate CompileIssue(lib: Library, names: Names, req: Request, x: Issue) {
    var p := Prepare(names, req);
    || HeaderIssue(names, req.(spec := NormalContent(names, req.spec)), x)
    || (p.source.None? && x == Issue(SourceObjectNotFound, ErrorIssue, "", "", ""))
    || (p.source.Some? && RulesIssue(lib, p.source.value, p.rules, |p.rules|, x))
    || (p.source.Some? && UnmappedIssue(p.source.value, p.rules, x))
  }

  /** The issues of one rule, and its compiled form. */
  method CompileRule(
    lib: Library, ghost fields: seq<Field>, byPath: map<string, Field>, taken: set<string>, raw: Rule)
    returns (compiled: CompiledRule, issues: seq<Issue>)
    requires forall p :: p in byPath <==> FieldAt(fields, p).Some?
    requires forall p :: p in byPath ==> FieldAt(fields, p) == Some(byPath[p])
    ensures compiled == Compiled(lib, fields, raw)
    ensures HasErrors(issues) <==> !RulePasses(lib, fields, raw) || Target(raw) in taken
    ensures forall x :: x in issues <==> RuleIssue(lib, fields, raw, Target(raw) in taken, x)
  {
    hide Trim, TransformNamed, TypeNamed, TargetTypeOf, Compatible, HasErrors;
    var rule := NormalRule(lib, raw);
    issues := [];
    ghost var bad := false;
    NoIssues();
    var found := rule.sourcePath in byPath;
    if !found {
      issues, bad := Reported(issues, Raise(SourceFieldNotFound, rule)), true;
    }
    var transform := TransformNamed(rule.transform);
    if transform.Unsupported? {
      issues, bad := Reported(issues, Raise(TransformUnknown, rule)), true;
    }
    var targetType := TargetTypeOf(lib, rule);
    var sourceType := if found then TypeNamed(lib, byPath[rule.sourcePath].typeName) else Blank;
    if !transform.Unsupported? && found && !Compatible(sourceType, targetType, transform) {
      issues, bad := Reported(issues, Raise(TypeIncompatible, rule)), true;
    }
    if rule.targetPath in taken {
      issues, bad := Reported(issues, Raise(TargetPathDuplicate, rule)), true;
    }
    compiled := CompiledRule(rule, sourceType, targetType, transform);
  }

  lemma NoIssues()
    ensures !HasErrors([])
  {
  }

  function Reported(issues: seq<Issue>, issue: Issue): (r: seq<Issue>)
    ensures r == issues + [issue]
    ensures HasErrors(r) <==> HasErrors(issues) || issue.severity.ErrorIssue?
  {
    ErrorsAppend(issues, [issue]);
    assert HasErrors([issue]) <==> issue.severity.ErrorIssue? by {
      if issue.severity.ErrorIssue? { assert [issue][0].severity.ErrorIssue?; }
    }
    issues + [issue]
  }

  ghost predicate Mapped(fields: seq<Field>, rules: seq<Rule>, path: string) {
    exists i :: 0 <= i < |rules| && Maps(fields, rules[i], path)
  }

  /**
   Compilation succeeds without an error issue exactly on accepted specs, and yields the rules in canonical
   order whether it succeeds or not.
   */
  method Compile(lib: Library, names: Names, req: Request) returns (rules: seq<CompiledRule>, issues: seq<Issue>)
    ensures HasErrors(issues) <==> !Accepted(lib, Prepare(names, req))
    ensures rules == CompiledRules(lib, Prepare(names, req))
    ensures forall x :: x in issues <==> CompileIssue(lib, names, req, x)
  {
    hide HeaderIssue, RulesIssue, UnmappedIssue, HasErrors, Accepted, CompiledRules, NormalContent, SchemaValid,
      HeaderValid, Drifted, ObjectNamed;
    var spec := Normalize(names, req.spec);
    var issueOfHeader := CheckHeader(names, req.(spec := spec));
    var source := FindObject(req.schema.objects, spec.sourceObject);
    ghost var prepared := Prepare(names, req);
    NoSource(lib, prepared);
    if source.None? {
      issues := Reported(issueOfHeader, Issue(SourceObjectNotFound, ErrorIssue, "", "", ""));
      return [], issues;
    }
    rules, issues := CompileBody(lib, prepared, source.value, spec.rules, issueOfHeader);
  }

  lemma NoSource(lib: Library, req: Prepared)
    ensures req.source.None? ==> !Accepted(lib, req) && CompiledRules(lib, req) == []
  {
  }

  /** Compilation once the header is checked and the source object found. */
  method CompileBody(
    lib: Library, ghost req: Prepared, fields: seq<Field>, given: seq<Rule>, header: seq<Issue>)
    returns (rules: seq<CompiledRule>, issues: seq<Issue>)
    requires req.source == Some(fields) && req.rules == given
    requires HasErrors(header) <==> !(req.schemaValid && req.headerValid && forall r :: r in given ==> HasPaths(r))
    ensures HasErrors(issues) <==> !Accepted(lib, req)
    ensures rules == CompiledRules(lib, req)
    ensures forall x :: x in issues <==>
      x in header || RulesIssue(lib, fields, given, |given|, x) || UnmappedIssue(fields, given, x)
  {
    var byPath, required := BuildIndexes(fields);
    var ruleIssues, mapped;
    rules, ruleIssues, mapped := CompileRules(lib, fields, byPath, given);
    var unmapped := CheckRequired(required, mapped);
    assert forall x :: x in unmapped <==> UnmappedIssue(fields, given, x);
    hide RulesIssue, UnmappedIssue, HasErrors, RuleAccepted, Sorting.Distinct, Mapped, NoRepeat;
    ErrorsAppend(header, ruleIssues);
    ErrorsAppend(header + ruleIssues, unmapped);
    issues := header + ruleIssues + unmapped;
    rules := Sorting.Sort(rules, Before);
    AcceptedParts(lib, req);
  }

  lemma AcceptedParts(lib: Library, req: Prepared)
    requires req.source.Some?
    ensures Accepted(lib, req) <==>
      && req.schemaValid && req.headerValid && (forall r :: r in req.rules ==> HasPaths(r))
      && (forall r :: r in req.rules ==> RulePasses(lib, req.source.value, r))
      && NoRepeat(req.rules)
      && (forall path :: RequiredPath(req.source.value, path) ==> Mapped(req.source.value, req.rules, path))
  {
    if forall r :: r in req.rules ==> HasPaths(r) { DistinctAll(req.rules); }
    hide NoRepeat, HasPaths, RulePasses, RequiredPath, Maps, Sorting.Distinct;
    forall path ensures Mapped(req.source.value, req.rules, path) <==>
        exists r :: r in req.rules && Maps(req.source.value, r, path)
    {
      if Mapped(req.source.value, req.rules, path) {
        var i :| 0 <= i < |req.rules| && Maps(req.source.value, req.rules[i], path);
        assert req.rules[i] in req.rules;
      }
    }
  }

  /** Of a spec in normal form; drift is only a warning. */
  method CheckHeader(names: Names, req: Request) returns (issues: seq<Issue>)
    ensures HasErrors(issues) <==>
      !(SchemaValid(names, req.schema) && HeaderValid(names, req) && forall r :: r in req.spec.rules ==> HasPaths(r))
    ensures forall x :: x in issues <==> HeaderIssue(names, req, x)
  {
    hide HasErrors, Trim, ScopeValid, Drifted;
    issues := [];
    NoIssues();
    if !SchemaValid(names, req.schema) {
      issues := Reported(issues, Issue(InvalidSchema, ErrorIssue, "", "", ""));
    }
    var pathsGiven := true;
    for n := 0 to |req.spec.rules|
      invariant pathsGiven <==> forall i :: 0 <= i < n ==> HasPaths(req.spec.rules[i])
    {
      if Trim(req.spec.rules[n].sourcePath) == "" || Trim(req.spec.rules[n].targetPath) == "" {
        pathsGiven := false;
      }
    }
    if !HeaderValid(names, req) || !pathsGiven {
      issues := Reported(issues, Issue(InvalidSpec, ErrorIssue, "", "", ""));
    }
    if Drifted(req.schema, req.spec.schemaRef) {
      issues := Reported(issues, Issue(SchemaDrift, WarningIssue, "", "", ""));
    }
  }

  method CheckRequired(required: map<string, Field>, mapped: set<string>) returns (issues: seq<Issue>)
    requires forall p :: p in required ==> Trim(required[p].path) == p
    ensures HasErrors(issues) <==> !(required.Keys <= mapped)
    ensures forall x :: x in issues <==>
      x == Issue(RequiredFieldUnmapped, ErrorIssue, "", x.sourcePath, "")
      && x.sourcePath in required && x.sourcePath !in mapped
  {
    hide HasErrors;
    issues := [];
    NoIssues();
    var pending := required.Keys;
    ghost var checked: set<string> := {};
    while pending != {}
      invariant pending + checked == required.Keys
      invariant HasErrors(issues) <==> !(checked <= mapped)
      invariant forall x :: x in issues <==>
        x == Issue(RequiredFieldUnmapped, ErrorIssue, "", x.sourcePath, "")
        && x.sourcePath in checked && x.sourcePath !in mapped
    {
      var path :| path in pending;
      pending, checked := pending - {path}, checked + {path};
      if path !in mapped {
        issues := Reported(issues, Issue(RequiredFieldUnmapped, ErrorIssue, "", Trim(required[path].path), ""));
      }
    }
  }

  /** The first `n` rules raise no error among themselves. */
  ghost predicate CleanUpTo(lib: Library, fields: seq<Field>, rules: seq<Rule>, n: nat)
    requires n <= |rules|
  {
    NoRepeatUpTo(rules, n) && forall i :: 0 <= i < n ==> RulePasses(lib, fields, rules[i])
  }

  /** No target is given twice; a blank one is no target. */
  ghost predicate NoRepeatUpTo(rules: seq<Rule>, n: nat)
    requires n <= |rules|
  {
    forall i, j :: 0 <= i < j < n && Target(rules[i]) == Target(rules[j]) ==> Target(rules[i]) == ""
  }

  ghost predicate NoRepeat(rules: seq<Rule>) { NoRepeatUpTo(rules, |rules|) }

  ghost predicate TakenUpTo(rules: seq<Rule>, n: nat, target: string)
    requires n <= |rules|
  {
    exists i :: 0 <= i < n && Target(rules[i]) == target
  }

  ghost predicate MappedUpTo(fields: seq<Field>, rules: seq<Rule>, n: nat, path: string)
    requires n <= |rules|
  {
    exists i :: 0 <= i < n && Maps(fields, rules[i], path)
  }

  lemma CleanStep(lib: Library, fields: seq<Field>, rules: seq<Rule>, n: nat)
    requires n < |rules|
    ensures CleanUpTo(lib, fields, rules, n + 1) <==>
      && CleanUpTo(lib, fields, rules, n) && RulePasses(lib, fields, rules[n])
      && (TakenUpTo(rules, n, Target(rules[n])) ==> Target(rules[n]) == "")
    ensures forall t :: TakenUpTo(rules, n + 1, t) <==> TakenUpTo(rules, n, t) || t == Target(rules[n])
    ensures forall p :: MappedUpTo(fields, rules, n + 1, p) <==>
      MappedUpTo(fields, rules, n, p) || Maps(fields, rules[n], p)
  {
    hide RulePasses, Target, Maps;
    forall t ensures TakenUpTo(rules, n + 1, t) <==> TakenUpTo(rules, n, t) || t == Target(rules[n]) {
      TakenStep(rules, n, t);
    }
    forall p
      ensures MappedUpTo(fields, rules, n + 1, p) <==> MappedUpTo(fields, rules, n, p) || Maps(fields, rules[n], p)
    {
      MappedStep(fields, rules, n, p);
    }
    NoRepeatStep(rules, n);
  }

  lemma TakenStep(rules: seq<Rule>, n: nat, t: string)
    requires n < |rules|
    ensures TakenUpTo(rules, n + 1, t) <==> TakenUpTo(rules, n, t) || t == Target(rules[n])
  {
    hide Target;
    if TakenUpTo(rules, n, t) {
      var i :| 0 <= i < n && Target(rules[i]) == t;
      assert 0 <= i < n + 1;
    }
    if t == Target(rules[n]) { assert Target(rules[n]) == t; }
  }

  lemma MappedStep(fields: seq<Field>, rules: seq<Rule>, n: nat, p: string)
    requires n < |rules|
    ensures MappedUpTo(fields, rules, n + 1, p) <==> MappedUpTo(fields, rules, n, p) || Maps(fields, rules[n], p)
  {
    hide Maps;
    if MappedUpTo(fields, rules, n, p) {
      var i :| 0 <= i < n && Maps(fields, rules[i], p);
      assert 0 <= i < n + 1;
    }
  }

  lemma NoRepeatStep(rules: seq<Rule>, n: nat)
    requires n < |rules|
    ensures NoRepeatUpTo(rules, n + 1) <==>
      NoRepeatUpTo(rules, n) && (TakenUpTo(rules, n, Target(rules[n])) ==> Target(rules[n]) == "")
  {
    hide Target;
    if NoRepeatUpTo(rules, n + 1) && TakenUpTo(rules, n, Target(rules[n])) {
      var i :| 0 <= i < n && Target(rules[i]) == Target(rules[n]);
      assert Target(rules[i]) == "";
    }
  }

  method CompileRules(lib: Library, fields: seq<Field>, byPath: map<string, Field>, rules: seq<Rule>)
    returns (compiled: seq<CompiledRule>, issues: seq<Issue>, mapped: set<string>)
    requires forall p :: p in byPath <==> FieldAt(fields, p).Some?
    requires forall p :: p in byPath ==> FieldAt(fields, p) == Some(byPath[p])
    ensures compiled == CompileAll(lib, fields, rules)
    ensures HasErrors(issues) <==> !(NoRepeat(rules) && forall r :: r in rules ==> RulePasses(lib, fields, r))
    ensures forall path :: path in mapped <==> Mapped(fields, rules, path)
    ensures forall x :: x in issues <==> RulesIssue(lib, fields, rules, |rules|, x)
  {
    hide RulesIssue, RuleIssue, HasErrors, RulePasses, Compiled, FieldAt, Trim, CleanUpTo, TakenUpTo, MappedUpTo;
    compiled, issues, mapped := [], [], {};
    NoIssues();
    NothingUpTo(lib, fields, rules);
    var taken: set<string> := {};
    for n := 0 to |rules|
      invariant |compiled| == n && forall i :: 0 <= i < n ==> compiled[i] == Compiled(lib, fields, rules[i])
      invariant forall t :: t in taken <==> t != "" && TakenUpTo(rules, n, t)
      invariant HasErrors(issues) <==> !CleanUpTo(lib, fields, rules, n)
      invariant forall path :: path in mapped <==> MappedUpTo(fields, rules, n, path)
      invariant forall x :: x in issues <==> RulesIssue(lib, fields, rules, n, x)
    {
      CleanStep(lib, fields, rules, n);
      IssuesStep(lib, fields, rules, n);
      assert Target(rules[n]) in taken <==> RepeatsAt(rules, n);
      var one, more := CompileRule(lib, fields, byPath, taken, rules[n]);
      ErrorsAppend(issues, more);
      compiled, issues := compiled + [one], issues + more;
      var source, target := Trim(rules[n].sourcePath), Trim(rules[n].targetPath);
      if source in byPath && byPath[source].required {
        mapped := mapped + {source};
      }
      if target != "" {
        taken := taken + {target};
      }
    }
    EverythingUpTo(lib, fields, rules);
  }

  lemma IssuesStep(lib: Library, fields: seq<Field>, rules: seq<Rule>, n: nat)
    requires n < |rules|
    ensures forall x :: RulesIssue(lib, fields, rules, n + 1, x) <==>
      RulesIssue(lib, fields, rules, n, x) || RuleIssue(lib, fields, rules[n], RepeatsAt(rules, n), x)
  {
    hide RuleIssue, RepeatsAt;
    forall x
      ensures RulesIssue(lib, fields, rules, n + 1, x) <==>
        RulesIssue(lib, fields, rules, n, x) || RuleIssue(lib, fields, rules[n], RepeatsAt(rules, n), x)
    {
      if RulesIssue(lib, fields, rules, n, x) {
        var i: nat :| i < n && RuleIssue(lib, fields, rules[i], RepeatsAt(rules, i), x);
        assert i < n + 1;
      }
    }
  }

  lemma NothingUpTo(lib: Library, fields: seq<Field>, rules: seq<Rule>)
    ensures CleanUpTo(lib, fields, rules, 0)
    ensures forall t :: !TakenUpTo(rules, 0, t)
    ensures forall p :: !MappedUpTo(fields, rules, 0, p)
    ensures forall x :: !RulesIssue(lib, fields, rules, 0, x)
  {
  }

  lemma EverythingUpTo(lib: Library, fields: seq<Field>, rules: seq<Rule>)
    ensures CleanUpTo(lib, fields, rules, |rules|) <==>
      NoRepeat(rules) && forall r :: r in rules ==> RulePasses(lib, fields, r)
    ensures forall p :: MappedUpTo(fields, rules, |rules|, p) <==> Mapped(fields, rules, p)
  {
    hide NoRepeatUpTo, RulePasses, Maps;
    assert forall r :: r in rules ==> exists i :: 0 <= i < |rules| && rules[i] == r;
  }

  lemma DistinctAll(rules: seq<Rule>)
    requires forall r :: r in rules ==> HasPaths(r)
    ensures NoRepeat(rules) <==> DistinctTargets(rules)
  {
    var targets := Sorting.Map(Target, rules);
    assert forall i :: 0 <= i < |rules| ==> rules[i] in rules && Target(rules[i]) != "";
    hide Target, HasPaths;
    assert |targets| == |rules| && forall i :: 0 <= i < |rules| ==> targets[i] == Target(rules[i]);
    if !NoRepeat(rules) {
      var i, j :| 0 <= i < j < |rules| && Target(rules[i]) == Target(rules[j]) && Target(rules[i]) != "";
      assert targets[i] == targets[j];
    }
  }
}
