/**
 The mapping previewer: it looks values up in a sample by path, transforms them, and writes them into a fresh
 output, creating nested maps on the way. Maps are shared by reference, so what the writer may touch matters.
 */
module MappingPreviewer {
  import opened Text
  import opened MappingTransforms
  import opened MappingSpecs
  import opened MappingCompiler
  import Sorting

  type Path = seq<string>

  function Segments(path: string): (segments: Path)
    ensures segments != []
  {
    Sorting.Map(Trim, Split(Trim(path), '.'))
  }

  /** A path written with dots between bare segments reads back as these. */
  lemma SegmentsReadBack(path: Path)
    requires path != [] && forall i :: 0 <= i < |path| ==> Bare(path[i]) && '.' !in path[i]
    ensures Segments(Join(path, '.')) == path
  {
    JoinBare(path, '.');
    SplitJoin(path, '.');
    BareText(Join(path, '.'));
    forall i | 0 <= i < |path| ensures Trim(path[i]) == path[i] { BareText(path[i]); }
    hide Trim, Split, Join;
    assert Sorting.Map(Trim, path) == path;
  }

  predicate Clean(path: Path) { path != [] && forall i :: 0 <= i < |path| ==> path[i] != "" }

  function Child(p: Path, s: string): Path { p + [s] }

  lemma ChildSplits(p: Path)
    requires p != []
    ensures p == Child(p[..|p| - 1], p[|p| - 1])
  {
  }

  lemma ChildInjective(p: Path, s: string, q: Path, t: string)
    requires Child(p, s) == Child(q, t)
    ensures p == q && s == t
  {
    assert Child(p, s)[..|p|] == p && Child(q, t)[..|q|] == q;
    assert Child(p, s)[|p|] == s && Child(q, t)[|q|] == t;
  }

  // ---------------------------------------------------------------- reading

  /** Every nested map that a known map holds is known. */
  ghost predicate Closed(nodes: set<Node>)
    reads nodes
  {
    forall n, k :: n in nodes && k in n.fields && n.fields[k].Nested? ==> n.fields[k].node in nodes
  }

  /** The contents of known maps at some moment. */
  type Past = map<Node, map<string, Value>>

  ghost function PastOf(nodes: set<Node>): Past
    reads nodes
  {
    map n | n in nodes :: n.fields
  }

  ghost predicate ClosedPast(past: Past, nodes: set<Node>) {
    nodes <= past.Keys
    && forall n, k :: n in nodes && k in past[n] && past[n][k].Nested? ==> past[n][k].node in nodes
  }

  /** One step of a lookup: a blank segment, a value that is no map, or a missing key finds nothing. */
  ghost function Step(past: Past, value: Option<Value>, s: string): Option<Value> {
    if s != "" && value.Some? && value.value.Nested? && value.value.node in past && s in past[value.value.node]
    then Some(past[value.value.node][s]) else None
  }

  ghost function Find(past: Past, value: Value, path: Path): Option<Value> {
    if path == [] then Some(value)
    else Step(past, Find(past, value, path[..|path| - 1]), path[|path| - 1])
  }

  lemma {:induction false} FindStops(past: Past, value: Value, path: Path, i: nat)
    requires i <= |path| && Find(past, value, path[..i]).None?
    ensures Find(past, value, path).None?
    decreases |path|
  {
    if i == |path| {
      assert path[..i] == path;
    } else {
      assert path[..|path| - 1][..i] == path[..i];
      FindStops(past, value, path[..|path| - 1], i);
    }
  }

  method LookupPath(root: Node, path: string, ghost nodes: set<Node>) returns (found: Option<Value>)
    requires root in nodes && Closed(nodes)
    ensures found == Find(PastOf(nodes), Nested(root), Segments(path))
  {
    var parts := Segments(path);
    hide Segments;
    ghost var past := PastOf(nodes);
    var current := Nested(root);
    for i := 0 to |parts|
      invariant Find(past, Nested(root), parts[..i]) == Some(current)
      invariant current.Nested? ==> current.node in nodes
    {
      assert parts[..i + 1][..i] == parts[..i];
      var part := parts[i];
      if part == "" || !current.Nested? || part !in current.node.fields {
        FindStops(past, Nested(root), parts, i + 1);
        return None;
      }
      current := current.node.fields[part];
    }
    assert parts[..|parts|] == parts;
    return Some(current);
  }

  // ---------------------------------------------------------------- the shape of an output

  type Dirs = map<Path, Node>
  type Leaves = map<Path, Value>
  type Contents = map<Path, map<string, Value>>

  ghost function ContentsOf(dirs: Dirs): Contents
    reads dirs.Values
  {
    map p | p in dirs :: dirs[p].fields
  }

  ghost predicate SlotRight(dirs: Dirs, contents: Contents, leaves: Leaves, p: Path, s: string)
    requires p in contents
  {
    && (s in contents[p] <==> Child(p, s) in dirs || Child(p, s) in leaves)
    && (Child(p, s) in dirs ==> contents[p][s] == Nested(dirs[Child(p, s)]))
    && (Child(p, s) in leaves ==> contents[p][s] == leaves[Child(p, s)])
  }

  /** Own maps at the inner paths, each under one path only, and given values at the leaves. */
  ghost predicate Laid(dirs: Dirs, contents: Contents, leaves: Leaves) {
    && contents.Keys == dirs.Keys
    && [] in dirs && [] !in leaves && dirs.Keys !! leaves.Keys
    && (forall p, q :: p in dirs && q in dirs && dirs[p] == dirs[q] ==> p == q)
    && (forall p, s :: Child(p, s) in dirs || Child(p, s) in leaves ==> p in dirs)
    && (forall p, s :: p in dirs ==> SlotRight(dirs, contents, leaves, p, s))
  }

  ghost predicate Shape(dirs: Dirs, leaves: Leaves)
    reads dirs.Values
  {
    Laid(dirs, ContentsOf(dirs), leaves)
  }

  /** A fresh empty map under a slot that holds no own map; a leaf there gives way. */
  lemma LaidDir(dirs: Dirs, contents: Contents, leaves: Leaves, p: Path, s: string, child: Node)
    requires Laid(dirs, contents, leaves) && p in dirs && child !in dirs.Values && Child(p, s) !in dirs
    ensures Laid(dirs[Child(p, s) := child],
                 contents[p := contents[p][s := Nested(child)]][Child(p, s) := map[]], leaves - {Child(p, s)})
  {
    var q := Child(p, s);
    var dirs', leaves' := dirs[q := child], leaves - {q};
    var contents' := contents[p := contents[p][s := Nested(child)]][q := map[]];
    forall a, b | a in dirs' && b in dirs' && dirs'[a] == dirs'[b] ensures a == b {
      assert a != q ==> dirs[a] in dirs.Values;
      assert b != q ==> dirs[b] in dirs.Values;
    }
    forall a, t | Child(a, t) in dirs' || Child(a, t) in leaves' ensures a in dirs' {
      if Child(a, t) == q { ChildInjective(a, t, p, s); }
    }
    forall a, t | a in dirs' ensures SlotRight(dirs', contents', leaves', a, t) {
      if a == q {
        assert Child(q, t) !in dirs && Child(q, t) !in leaves;
        assert Child(q, t) != q;
      } else {
        assert SlotRight(dirs, contents, leaves, a, t);
        if Child(a, t) == q { ChildInjective(a, t, p, s); }
      }
    }
  }

  ghost function PrunedDirs(dirs: Dirs, t: Path): Dirs { map p | p in dirs && !(t <= p) :: dirs[p] }

  ghost function PrunedContents(contents: Contents, t: Path): Contents {
    map p | p in contents && !(t <= p) :: contents[p]
  }

  /** A value at `t`; whatever lay there or below gives way. */
  ghost function Planted(leaves: Leaves, t: Path, value: Value): Leaves {
    (map p | p in leaves && !(t <= p) :: leaves[p])[t := value]
  }

  lemma BelowChild(t: Path, a: Path, s: string)
    requires t != [] && !(t <= a)
    ensures t <= Child(a, s) <==> Child(a, s) == t
  {
    assert Child(a, s)[..|a|] == a;
    assert |t| <= |a| ==> (t <= Child(a, s) <==> t <= Child(a, s)[..|a|]);
  }

  lemma LaidLeaf(dirs: Dirs, contents: Contents, leaves: Leaves, p: Path, s: string, value: Value)
    requires Laid(dirs, contents, leaves) && p in dirs
    ensures var t := Child(p, s);
      Laid(PrunedDirs(dirs, t), PrunedContents(contents[p := contents[p][s := value]], t), Planted(leaves, t, value))
  {
    var t := Child(p, s);
    var dirs', leaves' := PrunedDirs(dirs, t), Planted(leaves, t, value);
    var contents' := PrunedContents(contents[p := contents[p][s := value]], t);
    assert !(t <= p) && !(t <= []);
    forall a, b | Child(a, b) in dirs' || Child(a, b) in leaves' ensures a in dirs' {
      if Child(a, b) == t { ChildInjective(a, b, p, s); }
      assert t <= a ==> t <= Child(a, b);
    }
    forall a, b | a in dirs' ensures SlotRight(dirs', contents', leaves', a, b) {
      assert SlotRight(dirs, contents, leaves, a, b);
      BelowChild(t, a, b);
      if Child(a, b) == t { ChildInjective(a, b, p, s); }
    }
  }

  // ---------------------------------------------------------------- writing

  /** How many segments the writer steps through: up to a blank one, or all but the last. */
  function WalkEnd(t: Path): (e: nat)
    requires t != []
    ensures e < |t| && forall i :: 0 <= i < e ==> t[i] != ""
    ensures e < |t| - 1 ==> t[e] == ""
    ensures Clean(t) <==> e == |t| - 1 && t[e] != ""
  {
    if |t| == 1 || t[0] == "" then 0 else 1 + WalkEnd(t[1..])
  }

  /** Some prefix of the target, up to length `i`, is an earlier target that holds a nested map. */
  ghost predicate MeetsUpTo(t: Path, leaves: Leaves, i: nat) {
    exists j :: 0 < j <= i && j < |t| && t[..j] in leaves && leaves[t[..j]].Nested?
  }

  /** The leaves that the maps along the first `i` segments leave in place. */
  ghost function Cut(leaves: Leaves, t: Path, i: nat): Leaves
    requires i <= |t|
  {
    map p | p in leaves && !(p <= t[..i]) :: leaves[p]
  }

  lemma CutStep(leaves: Leaves, t: Path, i: nat)
    requires i < |t|
    ensures Cut(leaves, t, i + 1) == Cut(leaves, t, i) - {t[..i + 1]}
  {
    forall p | p in leaves ensures p <= t[..i + 1] <==> p <= t[..i] || p == t[..i + 1] {
      assert t[..i + 1][..i] == t[..i];
      if |p| <= i { assert t[..i + 1][..|p|] == t[..i][..|p|]; }
    }
  }

  lemma CutStart(leaves: Leaves, t: Path)
    requires [] !in leaves
    ensures Cut(leaves, t, 0) == leaves
  {
    assert t[..0] == [];
  }

  ghost function Above(t: Path, i: nat): set<Path>
    requires i <= |t|
  {
    set j | 0 <= j <= i :: t[..j]
  }

  lemma {:induction false} BelowNothing(dirs: Dirs, contents: Contents, leaves: Leaves, t: Path, k: nat, j: nat)
    requires Laid(dirs, contents, leaves) && k < j <= |t| && t[..k] !in dirs
    ensures t[..j] !in dirs && t[..j] !in leaves
  {
    assert t[..j] == Child(t[..j - 1], t[j - 1]);
    if k < j - 1 { BelowNothing(dirs, contents, leaves, t, k, j - 1); }
  }

  /** A path crosses at most one leaf. */
  lemma OneLeaf(dirs: Dirs, contents: Contents, leaves: Leaves, t: Path, a: nat, b: nat)
    requires Laid(dirs, contents, leaves) && a <= |t| && b <= |t| && t[..a] in leaves && t[..b] in leaves
    ensures a == b
  {
    if a < b {
      BelowNothing(dirs, contents, leaves, t, a, b);
    } else if b < a {
      BelowNothing(dirs, contents, leaves, t, b, a);
    }
  }

  /** What one segment of the walk finds in an own map. */
  lemma WalkStep(dirs: Dirs, contents: Contents, leaves: Leaves, t: Path, i: nat)
    requires Laid(dirs, contents, leaves) && i + 1 < |t| && t[..i] in dirs && !MeetsUpTo(t, leaves, i)
    ensures var part, next := t[i], t[..i + 1];
      && (part in contents[t[..i]] && contents[t[..i]][part].Nested? ==>
            if next in dirs then contents[t[..i]][part].node == dirs[next] && !MeetsUpTo(t, leaves, i + 1)
            else next in leaves && contents[t[..i]][part] == leaves[next] && MeetsUpTo(t, leaves, i + 1))
      && (!(part in contents[t[..i]] && contents[t[..i]][part].Nested?) ==>
            next !in dirs && forall k :: i <= k ==> !MeetsUpTo(t, leaves, k))
  {
    var next := t[..i + 1];
    assert next == Child(t[..i], t[i]);
    assert SlotRight(dirs, contents, leaves, t[..i], t[i]);
    if next !in dirs {
      forall j | i + 1 < j <= |t| ensures t[..j] !in leaves { BelowNothing(dirs, contents, leaves, t, i + 1, j); }
    }
  }

  ghost predicate IsMap(value: Option<Value>) { value.Some? && value.value.Nested? }

  /** Step into the map under `part`, replacing whatever else is there by a fresh one. */
  method Enter(current: Node, part: string, ghost all: set<Node>) returns (child: Node, created: bool)
    requires current in all && Closed(all)
    modifies current
    ensures created <==> !(part in old(current.fields) && old(current.fields)[part].Nested?)
    ensures created ==>
      fresh(child) && child.fields == map[] && current.fields == old(current.fields)[part := Nested(child)]
    ensures !created ==> child == old(current.fields)[part].node && current.fields == old(current.fields)
    ensures child in With(all, created, child) && Closed(With(all, created, child))
  {
    if part in current.fields && current.fields[part].Nested? {
      return current.fields[part].node, false;
    }
    child := new Node();
    current.fields := current.fields[part := Nested(child)];
    return child, true;
  }

  ghost function With(all: set<Node>, created: bool, child: Node): set<Node> {
    if created then all + {child} else all
  }

  /** The own maps after the first `i` segments: those before, and one for each prefix. */
  ghost predicate Grown(dirs: Dirs, grown: Dirs, t: Path, i: nat)
    requires i <= |t|
  {
    grown.Keys == dirs.Keys + Above(t, i) && forall p :: p in dirs ==> grown[p] == dirs[p]
  }

  /** What one segment of the walk finds among the own maps, as long as no foreign map is met. */
  lemma OwnStep(grown: Dirs, contents: Contents, leaves: Leaves, t: Path, i: nat)
    requires i + 1 < |t| && Laid(grown, contents, Cut(leaves, t, i)) && t[..i] in grown && !MeetsUpTo(t, leaves, i + 1)
    ensures if t[..i + 1] in grown then t[i] in contents[t[..i]] && contents[t[..i]][t[i]] == Nested(grown[t[..i + 1]])
            else !(t[i] in contents[t[..i]] && contents[t[..i]][t[i]].Nested?)
    ensures t[..i + 1] == Child(t[..i], t[i])
    ensures t[..i + 1] in grown ==> Cut(leaves, t, i + 1) == Cut(leaves, t, i)
  {
    assert t[..i + 1] == Child(t[..i], t[i]);
    assert SlotRight(grown, contents, Cut(leaves, t, i), t[..i], t[i]);
    CutStep(leaves, t, i);
  }

  lemma GrownStart(dirs: Dirs, t: Path)
    requires [] in dirs
    ensures Grown(dirs, dirs, t, 0)
  {
    assert t[..0] == [];
    assert Above(t, 0) == {[]};
  }

  lemma GrownStep(dirs: Dirs, grown: Dirs, t: Path, i: nat, child: Node)
    requires i + 1 <= |t| && Grown(dirs, grown, t, i)
    ensures t[..i + 1] in grown && grown[t[..i + 1]] == child ==> Grown(dirs, grown, t, i + 1)
    ensures t[..i + 1] !in grown ==> Grown(dirs, grown[t[..i + 1] := child], t, i + 1)
  {
    assert Above(t, i + 1) == Above(t, i) + {t[..i + 1]};
  }

  lemma OneWritten(before: Contents, after: Contents, p: Path)
    requires p in before && after.Keys == before.Keys && forall q :: q in before && q != p ==> after[q] == before[q]
    ensures after == before[p := after[p]]
  {
  }

  lemma ContentsWith(dirs: Dirs, q: Path, child: Node)
    requires child.fields == map[]
    ensures ContentsOf(dirs[q := child]) == ContentsOf(dirs)[q := map[]]
  {
  }

  /** Everything the walk keeps true of the output after `i` segments, as long as no foreign map is met. */
  ghost predicate Walking(
    dirs: Dirs, grown: Dirs, newborn: set<Node>, leaves: Leaves, t: Path, i: nat, current: Node)
    requires i <= |t|
    reads grown.Values
  {
    && Grown(dirs, grown, t, i) && Shape(grown, Cut(leaves, t, i)) && t[..i] in grown && grown[t[..i]] == current
    && forall p :: p in grown && p !in dirs ==> grown[p] in newborn
  }

  /** One segment of the walk. */
  method Advance(
    current: Node, part: string, ghost all: set<Node>, ghost dirs: Dirs, ghost grown: Dirs, ghost newborn: set<Node>,
    ghost leaves: Leaves, ghost t: Path, ghost i: nat)
    returns (child: Node, created: bool, ghost further: Dirs, ghost newborn': set<Node>)
    requires i + 1 < |t| && part == t[i] && current in all && Closed(all)
    modifies current
    ensures created <==> !(part in old(current.fields) && old(current.fields)[part].Nested?)
    ensures created ==>
      fresh(child) && child.fields == map[] && current.fields == old(current.fields)[part := Nested(child)]
    ensures !created ==> child == old(current.fields)[part].node && current.fields == old(current.fields)
    ensures old(Walking(dirs, grown, newborn, leaves, t, i, current)) && !MeetsUpTo(t, leaves, i + 1) ==>
      Walking(dirs, further, newborn', leaves, t, i + 1, child)
    ensures newborn' == With(newborn, created, child)
    ensures child in With(all, created, child) && Closed(With(all, created, child))
  {
    ghost var walking := Walking(dirs, grown, newborn, leaves, t, i, current) && !MeetsUpTo(t, leaves, i + 1);
    ghost var contents := ContentsOf(grown);
    if walking {
      OwnStep(grown, contents, leaves, t, i);
      Injective(grown, contents, Cut(leaves, t, i), t[..i]);
    }
    assert walking ==> Grown(dirs, grown, t, i) && Laid(grown, contents, Cut(leaves, t, i));
    assert walking ==> forall p :: p in grown && p !in dirs ==> grown[p] in newborn;
    hide Laid, Grown, Walking, Closed, Cut, MeetsUpTo;
    child, created := Enter(current, part, all);
    further, newborn' := grown, With(newborn, created, child);
    if walking {
      assert forall q :: q in grown && q != t[..i] ==> grown[q].fields == contents[q];
      if created {
        further := grown[t[..i + 1] := child];
        AddedDir(dirs, grown, newborn, contents, leaves, t, i, child);
      } else {
        FoundDir(dirs, grown, newborn, contents, leaves, t, i);
      }
    }
  }

  lemma AddedDir(
    dirs: Dirs, grown: Dirs, newborn: set<Node>, contents: Contents, leaves: Leaves, t: Path, i: nat, child: Node)
    requires i + 1 < |t| && Grown(dirs, grown, t, i) && Laid(grown, contents, Cut(leaves, t, i)) && t[..i] in grown
    requires t[..i + 1] !in grown && child !in grown.Values && child.fields == map[]
    requires forall p :: p in grown && p !in dirs ==> grown[p] in newborn
    requires grown[t[..i]].fields == contents[t[..i]][t[i] := Nested(child)]
    requires forall q :: q in grown && q != t[..i] ==> grown[q].fields == contents[q]
    ensures Walking(dirs, grown[t[..i + 1] := child], newborn + {child}, leaves, t, i + 1, child)
  {
    assert t[..i + 1] == Child(t[..i], t[i]);
    CutStep(leaves, t, i);
    LaidDir(grown, contents, Cut(leaves, t, i), t[..i], t[i], child);
    GrownStep(dirs, grown, t, i, child);
    hide Laid, Grown, Cut;
    OneWritten(contents, ContentsOf(grown), t[..i]);
    ContentsWith(grown, t[..i + 1], child);
  }

  lemma FoundDir(dirs: Dirs, grown: Dirs, newborn: set<Node>, contents: Contents, leaves: Leaves, t: Path, i: nat)
    requires i + 1 < |t| && Grown(dirs, grown, t, i) && Laid(grown, contents, Cut(leaves, t, i)) && t[..i + 1] in grown
    requires Cut(leaves, t, i + 1) == Cut(leaves, t, i)
    requires forall p :: p in grown && p !in dirs ==> grown[p] in newborn
    requires forall q :: q in grown ==> grown[q].fields == contents[q]
    ensures Walking(dirs, grown, newborn, leaves, t, i + 1, grown[t[..i + 1]])
  {
    GrownStep(dirs, grown, t, i, grown[t[..i + 1]]);
    assert ContentsOf(grown) == contents;
  }

  lemma Injective(dirs: Dirs, contents: Contents, leaves: Leaves, p: Path)
    requires Laid(dirs, contents, leaves) && p in dirs
    ensures forall q :: q in dirs && q != p ==> dirs[q] != dirs[p]
  {
  }

  /** The last segment: the value goes in. */
  method Place(
    current: Node, value: Value, ghost all: set<Node>, ghost dirs: Dirs, ghost grown: Dirs, ghost newborn: set<Node>,
    ghost leaves: Leaves, t: Path)
    requires t != [] && current in all && Closed(all) && (value.Nested? ==> value.node in all)
    modifies current
    ensures Closed(all)
    ensures current.fields == old(current.fields)[t[|t| - 1] := value]
    ensures old(Walking(dirs, grown, newborn, leaves, t, |t| - 1, current)) ==>
      Shape(PrunedDirs(grown, t), Planted(Cut(leaves, t, |t| - 1), t, value))
  {
    ghost var walking := Walking(dirs, grown, newborn, leaves, t, |t| - 1, current);
    ghost var contents, kept := ContentsOf(grown), Cut(leaves, t, |t| - 1);
    ghost var p := t[..|t| - 1];
    assert walking ==> Laid(grown, contents, kept) && p in grown && grown[p] == current;
    if walking { Injective(grown, contents, kept, p); }
    hide Laid, Cut, Walking, Planted, PrunedDirs, Shape;
    current.fields := current.fields[t[|t| - 1] := value];
    if walking {
      PlacedShape(grown, contents, kept, t, value);
    }
  }

  lemma PlacedShape(grown: Dirs, contents: Contents, kept: Leaves, t: Path, value: Value)
    requires t != [] && Laid(grown, contents, kept) && t[..|t| - 1] in grown && contents.Keys == grown.Keys
    requires grown[t[..|t| - 1]].fields == contents[t[..|t| - 1]][t[|t| - 1] := value]
    requires forall q :: q in grown && q != t[..|t| - 1] ==> grown[q].fields == contents[q]
    ensures Shape(PrunedDirs(grown, t), Planted(kept, t, value))
  {
    var p := t[..|t| - 1];
    ChildSplits(t);
    LaidLeaf(grown, contents, kept, p, t[|t| - 1], value);
    hide Laid, Planted;
    OneWritten(contents, ContentsOf(grown), p);
    assert PrunedContents(ContentsOf(grown), t) == ContentsOf(PrunedDirs(grown, t));
  }

  /**
   The one write a walk makes to an existing map. `at` is the segment it is made under; `met` is the length of the
   prefix that led into a foreign map, or zero.
   */
  datatype Write = Write(done: bool, writer: Node, at: nat, put: Value, met: nat)

  /** The walk stands in a foreign map: the one that the segments since it met the leaf lead to. */
  ghost predicate Inside(past: Past, leaves: Leaves, t: Path, met: nat, at: nat, writer: Node) {
    && 0 < met <= at < |t| && t[..met] in leaves && leaves[t[..met]].Nested?
    && Find(past, leaves[t[..met]], t[met..at]) == Some(Nested(writer))
  }

  /** Beyond its write a walk finds no map that was there before. */
  ghost predicate Beyond(past: Past, leaves: Leaves, t: Path, write: Write) {
    if write.met == 0 then forall k: nat :: !MeetsUpTo(t, leaves, k)
    else write.met <= |t| && t[..write.met] in leaves
         && forall k :: write.at < k < |t| && write.met <= k ==>
              !IsMap(Find(past, leaves[t[..write.met]], t[write.met..k]))
  }

  /** Where the walk stands after `i` segments, in terms of the maps as they were. */
  ghost predicate Standing(
    past: Past, dirs: Dirs, foreign: set<Node>, leaves: Leaves, contents: Contents, t: Path, i: nat, write: Write)
    requires i < |t|
  {
    && past.Keys == dirs.Values + foreign && foreign !! dirs.Values && ClosedPast(past, foreign)
    && Laid(dirs, contents, leaves) && (forall p :: p in dirs ==> dirs[p] in past && contents[p] == past[dirs[p]])
    && (forall p :: p in leaves && leaves[p].Nested? ==> leaves[p].node in foreign)
    && write.writer in past && (write.writer in foreign <==> write.met > 0)
    && (write.met > 0 <==> MeetsUpTo(t, leaves, i))
    && write.met < |t| && (write.met > 0 ==> Inside(past, leaves, t, write.met, write.at, write.writer))
    && if write.done then write.at < i && Beyond(past, leaves, t, write)
       else write.at == i && (write.met == 0 ==> t[..i] in dirs && write.writer == dirs[t[..i]])
  }

  lemma FindBeyond(past: Past, value: Value, path: Path, n: nat)
    requires n < |path| && !IsMap(Find(past, value, path[..n]))
    ensures Find(past, value, path).None?
  {
    assert path[..n + 1][..n] == path[..n];
    FindStops(past, value, path, n + 1);
  }

  /** One segment from a foreign map. */
  lemma ForeignAhead(past: Past, leaves: Leaves, t: Path, i: nat, write: Write)
    requires i + 1 < |t| && t[i] != "" && write.at == i && write.writer in past
    requires Inside(past, leaves, t, write.met, i, write.writer)
    ensures var fields := past[write.writer];
      if t[i] in fields && fields[t[i]].Nested?
      then Inside(past, leaves, t, write.met, i + 1, fields[t[i]].node)
      else Beyond(past, leaves, t, write)
  {
    var met := write.met;
    var leaf := leaves[t[..met]];
    assert t[met..i + 1][..i - met] == t[met..i];
    forall k | i + 1 < k < |t| && !IsMap(Find(past, leaf, t[met..i + 1]))
      ensures !IsMap(Find(past, leaf, t[met..k]))
    {
      assert t[met..k][..i + 1 - met] == t[met..i + 1];
      FindBeyond(past, leaf, t[met..k], i + 1 - met);
    }
  }

  /** What the write of a walk becomes at its next segment; `met` if that segment leads into a foreign map. */
  ghost function NextWrite(write: Write, i: nat, meets: bool, created: bool, child: Node): Write {
    if write.done then write
    else if created then write.(done := true, put := Nested(child))
    else write.(writer := child, at := i + 1, met := if write.met == 0 && meets then i + 1 else write.met)
  }

  /** One segment of any walk. */
  lemma StandingNext(
    past: Past, dirs: Dirs, foreign: set<Node>, leaves: Leaves, contents: Contents, t: Path, i: nat, write: Write,
    child: Node)
    requires i + 1 < |t| && t[i] != "" && Standing(past, dirs, foreign, leaves, contents, t, i, write)
    ensures var fields := past[write.writer];
      var found := t[i] in fields && fields[t[i]].Nested?;
      var meets := MeetsUpTo(t, leaves, i + 1);
      && (write.done ==> Standing(past, dirs, foreign, leaves, contents, t, i + 1, write))
      && (!write.done && !found ==>
            Standing(past, dirs, foreign, leaves, contents, t, i + 1, NextWrite(write, i, meets, true, child)))
      && (!write.done && found ==>
            Standing(past, dirs, foreign, leaves, contents, t, i + 1,
                     NextWrite(write, i, meets, false, fields[t[i]].node)))
  {
    assert MeetsUpTo(t, leaves, i) ==> MeetsUpTo(t, leaves, i + 1);
    if !write.done {
      if write.met > 0 {
        ForeignAhead(past, leaves, t, i, write);
        hide Laid, Find;
      } else {
        WalkStep(dirs, contents, leaves, t, i);
        hide Laid;
        assert t[i + 1..i + 1] == [];
      }
    }
  }

  /** An output under construction: its own maps, and the values of others that it refers to. */
  ghost predicate Owned(root: Node, dirs: Dirs, leaves: Leaves, foreign: set<Node>)
    reads dirs.Values, foreign
  {
    && Shape(dirs, leaves) && dirs[[]] == root && foreign !! dirs.Values && Closed(foreign)
    && forall p :: p in leaves && leaves[p].Nested? ==> leaves[p].node in foreign
  }

  /**
   The heap of a walk: before its write every existing map is as it was and the walk stands on one of them; after
   its write it stands on a fresh map, and one existing map has one new entry.
   */
  ghost predicate Tracked(past: Past, t: Path, current: Node, write: Write)
    reads past.Keys, current
  {
    && write.writer in past && write.at < |t|
    && (forall n :: n in past && !(write.done && n == write.writer) ==> n.fields == past[n])
    && if write.done then
         && current !in past && current.fields == map[] && write.put.Nested?
         && write.writer.fields == past[write.writer][t[write.at] := write.put]
       else current == write.writer
  }

  ghost function NodesOf(chain: seq<Node>): set<Node> { set c | c in chain }

  /** What the j-th fresh map of a walk holds: the next one, or nothing yet. */
  ghost function LinkFields(chain: seq<Node>, t: Path, at: nat, j: nat): map<string, Value>
    requires j < |chain| && at + |chain| < |t|
  {
    if j + 1 < |chain| then map[t[at + 1 + j] := Nested(chain[j + 1])] else map[]
  }

  /** The maps that a walk has made since its write: each holds the next, and the walk stands on the last. */
  ghost predicate Linked(past: Past, t: Path, i: nat, current: Node, write: Write, chain: seq<Node>)
    reads NodesOf(chain)
  {
    if !write.done then chain == []
    else
      && |chain| > 0 && write.at + |chain| == i < |t| && chain[|chain| - 1] == current && write.put == Nested(chain[0])
      && Sorting.Distinct(chain) && (forall c :: c in chain ==> c !in past)
      && (forall j :: 0 <= j < |chain| ==> chain[j].fields == LinkFields(chain, t, write.at, j))
  }

  lemma LinkedNext(
    past: Past, t: Path, i: nat, current: Node, child: Node, created: bool, write: Write, write': Write,
    chain: seq<Node>)
    requires i + 1 < |t|
    requires write' == NextWrite(write, i, true, created, child) || write' == NextWrite(write, i, false, created, child)
    requires !write.done ==> chain == [] && write.at == i
    requires write.done ==>
      && created && |chain| > 0 && write.at + |chain| == i && chain[|chain| - 1] == current
      && write.put == Nested(chain[0]) && Sorting.Distinct(chain) && (forall c :: c in chain ==> c !in past)
      && (forall j :: 0 <= j < |chain| - 1 ==> chain[j].fields == LinkFields(chain, t, write.at, j))
      && current.fields == map[t[i] := Nested(child)]
    requires created ==> child !in chain && child !in past && child.fields == map[]
    ensures Linked(past, t, i + 1, child, write', if created then chain + [child] else chain)
  {
    if write.done {
      var longer := chain + [child];
      ApartSnoc(past, chain, child);
      hide Sorting.Distinct;
      forall j | 0 <= j < |longer| ensures longer[j].fields == LinkFields(longer, t, write.at, j) {
        if j < |chain| { assert longer[j] == chain[j]; }
      }
    }
  }

  lemma ApartSnoc(past: Past, chain: seq<Node>, child: Node)
    requires Sorting.Distinct(chain) && child !in chain && child !in past && forall c :: c in chain ==> c !in past
    ensures Sorting.Distinct(chain + [child]) && forall c :: c in chain + [child] ==> c !in past
  {
  }

  /** One segment of the walk, with its effect on existing maps. */
  method AdvanceTracked(
    current: Node, part: string, ghost all: set<Node>, ghost past: Past, ghost dirs: Dirs, ghost grown: Dirs,
    ghost newborn: set<Node>, ghost foreign: set<Node>, ghost leaves: Leaves, ghost t: Path, ghost i: nat,
    ghost write: Write, ghost contents: Contents, ghost chain: seq<Node>)
    returns (child: Node, ghost created: bool, ghost further: Dirs, ghost newborn': set<Node>, ghost write': Write)
    requires i + 1 < |t| && part == t[i] != "" && current in all && Closed(all)
    modifies current
    ensures old(current.fields).Keys <= current.fields.Keys
    ensures Standing(past, dirs, foreign, leaves, contents, t, i, write) && old(Tracked(past, t, current, write))
            && old(Linked(past, t, i, current, write, chain)) ==>
      && Standing(past, dirs, foreign, leaves, contents, t, i + 1, write') && Tracked(past, t, child, write')
      && Linked(past, t, i + 1, child, write', if created then chain + [child] else chain)
    ensures old(Walking(dirs, grown, newborn, leaves, t, i, current)) && !MeetsUpTo(t, leaves, i + 1) ==>
      Walking(dirs, further, newborn', leaves, t, i + 1, child)
    ensures newborn' == With(newborn, created, child) && (created ==> fresh(child))
    ensures child in With(all, created, child) && Closed(With(all, created, child))
  {
    hide *;
    ghost var ready := Standing(past, dirs, foreign, leaves, contents, t, i, write) && Tracked(past, t, current, write)
                       && Linked(past, t, i, current, write, chain);
    if ready {
      TrackedMeans(past, t, current, write);
      OnlyLast(past, t, i, current, write, chain);
      StandingAt(past, dirs, foreign, leaves, contents, t, i, write);
    }
    child, created, further, newborn' := Advance(current, part, all, dirs, grown, newborn, leaves, t, i);
    write' := NextWrite(write, i, MeetsUpTo(t, leaves, i + 1), created, child);
    if ready {
      NextWriteMeans(write, i, MeetsUpTo(t, leaves, i + 1), created, child);
      StandingNext(past, dirs, foreign, leaves, contents, t, i, write, child);
      StandingAt(past, dirs, foreign, leaves, contents, t, i + 1, write');
      TrackedNext(past, t, i, current, child, created, write, write');
      LinkedNext(past, t, i, current, child, created, write, write', chain);
    }
  }

  lemma StandingAt(
    past: Past, dirs: Dirs, foreign: set<Node>, leaves: Leaves, contents: Contents, t: Path, i: nat, write: Write)
    requires i < |t| && Standing(past, dirs, foreign, leaves, contents, t, i, write)
    ensures write.writer in past && (!write.done ==> write.at == i)
  {
  }

  lemma NextWriteMeans(write: Write, i: nat, meets: bool, created: bool, child: Node)
    ensures write.done ==> NextWrite(write, i, meets, created, child) == write
    ensures !write.done && !created ==> NextWrite(write, i, meets, created, child).writer == child
  {
  }

  /** The heap after one more segment. */
  lemma TrackedNext(past: Past, t: Path, i: nat, current: Node, child: Node, created: bool, write: Write, write': Write)
    requires i + 1 < |t| && (!write.done ==> write.at == i)
    requires write' == NextWrite(write, i, true, created, child) || write' == NextWrite(write, i, false, created, child)
    requires write.writer in past && write.at < |t| && write'.writer in past
    requires forall n :: n in past && n != write.writer ==> n.fields == past[n]
    requires write.done ==>
      current !in past && created && write.put.Nested?
      && write.writer.fields == past[write.writer][t[write.at] := write.put]
    requires !write.done && created ==> write.writer.fields == past[write.writer][t[i] := Nested(child)]
    requires !write.done && !created ==> write.writer.fields == past[write.writer] && child in past
    requires created ==> child !in past && child.fields == map[]
    ensures Tracked(past, t, child, write')
  {
  }

  lemma OnlyLast(past: Past, t: Path, i: nat, current: Node, write: Write, chain: seq<Node>)
    requires Linked(past, t, i, current, write, chain) && (write.done ==> current.fields == map[])
    ensures !write.done ==> chain == []
    ensures write.done ==>
      && |chain| > 0 && write.at + |chain| == i < |t| && chain[|chain| - 1] == current
      && write.put == Nested(chain[0]) && Sorting.Distinct(chain) && (forall c :: c in chain ==> c !in past)
      && (forall j :: 0 <= j < |chain| - 1 ==>
            chain[j] != current && chain[j].fields == LinkFields(chain, t, write.at, j))
  {
  }

  lemma WalkStart(root: Node, t: Path, past: Past, dirs: Dirs, leaves: Leaves, foreign: set<Node>)
    requires t != [] && past == PastOf(dirs.Values + foreign)
    ensures Owned(root, dirs, leaves, foreign) ==>
      && Standing(past, dirs, foreign, leaves, ContentsOf(dirs), t, 0, Write(false, root, 0, Nil, 0))
      && Tracked(past, t, root, Write(false, root, 0, Nil, 0))
      && Linked(past, t, 0, root, Write(false, root, 0, Nil, 0), [])
      && Walking(dirs, dirs, {}, leaves, t, 0, root)
  {
    if Owned(root, dirs, leaves, foreign) {
      assert t[..0] == [];
      GrownStart(dirs, t);
      CutStart(leaves, t);
      assert forall p :: p in dirs ==> dirs[p] in dirs.Values;
    }
  }

  /** All segments that the writer steps through. */
  method Walk(
    root: Node, t: Path, ghost reach: set<Node>, ghost past: Past, ghost dirs: Dirs, ghost leaves: Leaves,
    ghost foreign: set<Node>)
    returns (end: nat, current: Node, ghost grown: Dirs, ghost newborn: set<Node>, ghost write: Write,
             ghost chain: seq<Node>)
    requires t != [] && root in reach && Closed(reach) && past == PastOf(dirs.Values + foreign)
    modifies reach
    ensures end == WalkEnd(t)
    ensures newborn == NodesOf(chain) && fresh(newborn) && current in reach + newborn && Closed(reach + newborn)
    ensures forall n :: n in reach ==> old(n.fields).Keys <= n.fields.Keys
    ensures old(Owned(root, dirs, leaves, foreign)) ==>
      && Standing(past, dirs, foreign, leaves, old(ContentsOf(dirs)), t, WalkEnd(t), write)
      && Tracked(past, t, current, write) && Linked(past, t, WalkEnd(t), current, write, chain)
      && (!MeetsUpTo(t, leaves, WalkEnd(t)) ==> Walking(dirs, grown, newborn, leaves, t, WalkEnd(t), current))
  {
    hide *;
    grown, newborn, current, write, chain := dirs, {}, root, Write(false, root, 0, Nil, 0), [];
    NoNodes();
    end := 0;
    ghost var contents := ContentsOf(dirs);
    ghost var owned := Owned(root, dirs, leaves, foreign);
    WalkStart(root, t, past, dirs, leaves, foreign);
    assert reach + newborn == reach;
    while end < |t| - 1 && t[end] != ""
      invariant 0 <= end < |t| && forall i :: 0 <= i < end ==> t[i] != ""
      invariant newborn == NodesOf(chain) && fresh(newborn) && current in reach + newborn && Closed(reach + newborn)
      invariant forall n :: n in reach ==> old(n.fields).Keys <= n.fields.Keys
      invariant owned ==>
        && Standing(past, dirs, foreign, leaves, contents, t, end, write) && Tracked(past, t, current, write)
        && Linked(past, t, end, current, write, chain)
      invariant owned && !MeetsUpTo(t, leaves, end) ==> Walking(dirs, grown, newborn, leaves, t, end, current)
    {
      MeetsMore(t, leaves, end);
      ghost var created;
      ghost var all, before := reach + newborn, newborn;
      current, created, grown, newborn, write :=
        AdvanceTracked(current, t[end], all, past, dirs, grown, newborn, foreign, leaves, t, end, write, contents,
                       chain);
      WithUnion(reach, before, created, current);
      MoreNodes(chain, created, current);
      chain := if created then chain + [current] else chain;
      end := end + 1;
    }
    WalkEndIs(t, end);
  }

  lemma NoNodes()
    ensures NodesOf([]) == {}
  {
  }

  lemma MoreNodes(chain: seq<Node>, created: bool, child: Node)
    ensures NodesOf(if created then chain + [child] else chain) == With(NodesOf(chain), created, child)
  {
  }

  lemma MeetsMore(t: Path, leaves: Leaves, i: nat)
    ensures MeetsUpTo(t, leaves, i) ==> MeetsUpTo(t, leaves, i + 1)
  {
  }

  lemma {:induction false} WalkEndIs(t: Path, e: nat)
    requires e < |t| && (forall i :: 0 <= i < e ==> t[i] != "") && (e < |t| - 1 ==> t[e] == "")
    ensures WalkEnd(t) == e
  {
  }

  lemma WithUnion(reach: set<Node>, newborn: set<Node>, created: bool, child: Node)
    ensures With(reach + newborn, created, child) == reach + With(newborn, created, child)
    ensures With(newborn, created, child) <= newborn + {child}
    ensures !created ==> With(newborn, created, child) == newborn
  {
  }

  // ---------------------------------------------------------------- what a write does

  /**
   The write reaches a foreign map: an earlier target on the way holds a nested map, and the target either has a last
   segment to assign or leads, before its blank segment, to something in there that is no map yet.
   */
  ghost predicate Touches(past: Past, leaves: Leaves, t: Path)
    requires t != []
  {
    exists j :: 0 < j <= WalkEnd(t) && t[..j] in leaves && leaves[t[..j]].Nested?
                && (Clean(t) || !IsMap(Find(past, leaves[t[..j]], t[j..WalkEnd(t)])))
  }

  /** The leaves after a write that reaches no foreign map. */
  ghost function Written(leaves: Leaves, t: Path, value: Value): Leaves
    requires t != []
  {
    if MeetsUpTo(t, leaves, WalkEnd(t)) then leaves
    else if Clean(t) then Planted(Cut(leaves, t, WalkEnd(t)), t, value)
    else Cut(leaves, t, WalkEnd(t))
  }

  /** The one entry that a write reaching a foreign map makes there. */
  ghost predicate Strikes(past: Past, leaves: Leaves, t: Path, value: Value, write: Write) {
    && Inside(past, leaves, t, write.met, write.at, write.writer)
    && (if write.at == |t| - 1 then write.put == value
        else write.put.Nested? && !IsMap(Find(past, leaves[t[..write.met]], t[write.met..write.at + 1])))
  }

  lemma TouchesMeans(
    past: Past, dirs: Dirs, foreign: set<Node>, leaves: Leaves, contents: Contents, t: Path, write: Write)
    requires t != [] && Standing(past, dirs, foreign, leaves, contents, t, WalkEnd(t), write)
    ensures Touches(past, leaves, t) <==> write.met > 0 && (Clean(t) || write.done)
  {
    var e := WalkEnd(t);
    forall j | 0 < j <= e && t[..j] in leaves && leaves[t[..j]].Nested? ensures write.met == j {
      assert MeetsUpTo(t, leaves, e);
      OneLeaf(dirs, contents, leaves, t, j, write.met);
    }
    if write.met > 0 {
      var k :| 0 < k <= e && k < |t| && t[..k] in leaves && leaves[t[..k]].Nested?;
      assert write.met == k;
    }
  }

  /** The maps of an output after a write: none below the target, and one on each step to it. */
  ghost predicate NextDirs(dirs: Dirs, dirs': Dirs, t: Path)
    requires t != []
  {
    forall p :: p in dirs' <==> (p in dirs || p in Above(t, |t| - 1)) && !(t <= p)
  }

  /** What the j-th fresh map of a finished write holds: the next, or the value, or nothing before a blank segment. */
  ghost function ChainFields(chain: seq<Node>, t: Path, at: nat, value: Value, j: nat): map<string, Value>
    requires t != [] && j < |chain| && at + |chain| < |t|
  {
    if j + 1 < |chain| then map[t[at + 1 + j] := Nested(chain[j + 1])]
    else if Clean(t) then map[t[|t| - 1] := value] else map[]
  }

  /** The fresh maps that a write hangs under its entry, one for each segment that led nowhere. */
  ghost predicate Chained(t: Path, value: Value, write: Write, chain: seq<Node>, fields: Past) {
    && t != [] && write.at + |chain| == WalkEnd(t) && Sorting.Distinct(chain)
    && (if chain == [] then Clean(t) else write.put == Nested(chain[0]))
    && (forall j :: 0 <= j < |chain| ==>
          chain[j] in fields && fields[chain[j]] == ChainFields(chain, t, write.at, value, j))
  }

  /** The foreign maps after a write that reached one of them: one new entry, and the maps that hang under it. */
  ghost predicate Struck(
    past: Past, after: Past, leaves: Leaves, t: Path, value: Value, write: Write, chain: seq<Node>)
  {
    && Strikes(past, leaves, t, value, write) && write.writer in past && write.at < |t|
    && after.Keys == past.Keys + NodesOf(chain) && (forall c :: c in chain ==> c !in past)
    && after[write.writer] == past[write.writer][t[write.at] := write.put]
    && (forall n :: n in past && n != write.writer ==> after[n] == past[n])
    && Chained(t, value, write, chain, after)
  }

  /**
   What a write does to an output and to the foreign maps that it refers to. If it reaches a foreign map it makes one
   entry there and changes no other existing map; if not, the foreign maps stay as they were and the output holds
   exactly the leaves that the write leaves.
   */
  ghost predicate Effect(
    past: Past, root: Node, dirs: Dirs, dirs': Dirs, leaves: Leaves, foreign: set<Node>, t: Path, value: Value,
    write: Write, chain: seq<Node>)
    requires t != []
    reads past.Keys, dirs.Values, dirs'.Values, foreign, NodesOf(chain)
  {
    if Touches(past, leaves, t) then
      && write.writer in foreign && dirs' == dirs
      && Struck(past, PastOf(past.Keys + NodesOf(chain)), leaves, t, value, write, chain)
      && ((value.Nested? ==> value.node in foreign) ==> Owned(root, dirs, leaves, foreign + NodesOf(chain)))
    else
      && (forall n :: n in foreign ==> n in past && n.fields == past[n])
      && ((value.Nested? ==> value.node in foreign) ==> Owned(root, dirs', Written(leaves, t, value), foreign))
      && (Clean(t) ==> NextDirs(dirs, dirs', t))
  }

  /** The writer, on every target, with or without blank segments, overlapping or not. */
  method SetPath(
    root: Node, t: Path, value: Value, ghost reach: set<Node>, ghost dirs: Dirs, ghost leaves: Leaves,
    ghost foreign: set<Node>)
    returns (ghost reach': set<Node>, ghost dirs': Dirs, ghost write: Write, ghost chain: seq<Node>)
    requires t != [] && root in reach && Closed(reach) && (value.Nested? ==> value.node in reach)
    modifies reach
    ensures reach <= reach' && fresh(reach' - reach) && Closed(reach') && NodesOf(chain) <= reach' - reach
    ensures forall n :: n in reach ==> old(n.fields).Keys <= n.fields.Keys
    ensures old(Owned(root, dirs, leaves, foreign)) ==>
      && Effect(old(PastOf(dirs.Values + foreign)), root, dirs, dirs', leaves, foreign, t, value, write, chain)
      && (forall p :: p in dirs' ==> (p in dirs && dirs'[p] == dirs[p]) || fresh(dirs'[p]))
  {
    hide *;
    ghost var past, owned := PastOf(dirs.Values + foreign), Owned(root, dirs, leaves, foreign);
    ghost var contents, newborn := ContentsOf(dirs), {};
    ghost var grown;
    var end, current;
    RootOf(root, dirs, leaves, foreign);
    end, current, grown, newborn, write, chain := Walk(root, t, reach, past, dirs, leaves, foreign);
    reach', dirs' := reach + newborn, dirs;
    if end < |t| - 1 || t[end] == "" {
      if owned {
        dirs' := Stopped(root, dirs, grown, newborn, leaves, foreign, contents, t, value, past, current, write, chain);
      }
      return;
    }
    dirs', write := Land(root, t, value, current, owned, reach', dirs, grown, newborn, leaves, foreign, contents, past,
                         write, chain);
  }

  /** The last segment of a clean target. */
  method Land(
    ghost root: Node, t: Path, value: Value, current: Node, ghost owned: bool, ghost all: set<Node>, ghost dirs: Dirs,
    ghost grown: Dirs, ghost newborn: set<Node>, ghost leaves: Leaves, ghost foreign: set<Node>,
    ghost contents: Contents, ghost past: Past, ghost write: Write, ghost chain: seq<Node>)
    returns (ghost dirs': Dirs, ghost write': Write)
    requires t != [] && Clean(t) && current in all && Closed(all) && (value.Nested? ==> value.node in all)
    requires owned ==>
      && [] in dirs && dirs[[]] == root && newborn !! foreign
      && Standing(past, dirs, foreign, leaves, contents, t, WalkEnd(t), write) && Tracked(past, t, current, write)
      && Linked(past, t, WalkEnd(t), current, write, chain)
      && (!MeetsUpTo(t, leaves, WalkEnd(t)) ==> Walking(dirs, grown, newborn, leaves, t, WalkEnd(t), current))
    modifies current
    ensures Closed(all) && old(current.fields).Keys <= current.fields.Keys
    ensures owned ==>
      && Effect(past, root, dirs, dirs', leaves, foreign, t, value, write', chain)
      && (forall p :: p in dirs' ==> (p in dirs && dirs'[p] == dirs[p]) || dirs'[p] in newborn)
  {
    hide *;
    dirs', write' := dirs, Final(write, value);
    FinalMeans(write, value);
    if owned {
      WalkingGrown(dirs, grown, newborn, leaves, t, current);
      StandingAtEnd(past, dirs, foreign, leaves, contents, t, write);
      TrackedMeans(past, t, current, write);
      OnlyLast(past, t, WalkEnd(t), current, write, chain);
      ChainApart(past, current, write, chain);
    }
    Place(current, value, all, dirs, grown, newborn, leaves, t);
    if owned {
      ChainLanded(past, t, value, current, write, chain);
      dirs' := Landed(root, dirs, grown, newborn, leaves, foreign, contents, t, value, past, write, chain);
    }
  }

  lemma FinalMeans(write: Write, value: Value)
    ensures Final(write, value).at == write.at && Final(write, value).writer == write.writer
    ensures Final(write, value).put == if write.done then write.put else value
  {
  }

  lemma TrackedMeans(past: Past, t: Path, current: Node, write: Write)
    requires Tracked(past, t, current, write)
    ensures write.writer in past && write.at < |t|
    ensures forall n :: n in past && n != write.writer ==> n.fields == past[n]
    ensures if write.done
      then current !in past && current.fields == map[] && write.put.Nested?
           && write.writer.fields == past[write.writer][t[write.at] := write.put]
      else current == write.writer && current.fields == past[write.writer]
  {
  }

  lemma ChainApart(past: Past, current: Node, write: Write, chain: seq<Node>)
    requires write.done ==> forall c :: c in chain ==> c !in past
    requires !write.done ==> chain == []
    ensures forall c :: c in chain ==> c !in past
  {
  }

  /** The chain of a walk is what hangs under its entry once the value is placed. */
  lemma ChainLanded(past: Past, t: Path, value: Value, current: Node, write: Write, chain: seq<Node>)
    requires t != [] && Clean(t)
    requires !write.done ==> chain == [] && write.at == WalkEnd(t)
    requires write.done ==>
      && |chain| > 0 && write.at + |chain| == WalkEnd(t) && chain[|chain| - 1] == current
      && write.put == Nested(chain[0]) && Sorting.Distinct(chain)
      && (forall j :: 0 <= j < |chain| - 1 ==> chain[j].fields == LinkFields(chain, t, write.at, j))
      && current.fields == map[t[|t| - 1] := value]
    ensures Chained(t, value, Final(write, value), chain, PastOf(NodesOf(chain)))
  {
    forall j | 0 <= j < |chain| ensures chain[j] in NodesOf(chain) {}
  }

  /** A chain that was never given its value, because the target has a blank segment. */
  lemma ChainStopped(past: Past, t: Path, value: Value, current: Node, write: Write, chain: seq<Node>)
    requires t != [] && !Clean(t) && Linked(past, t, WalkEnd(t), current, write, chain) && write.done
    ensures Chained(t, value, write, chain, PastOf(NodesOf(chain)))
  {
    forall j | 0 <= j < |chain| ensures chain[j] in NodesOf(chain) {}
  }

  /** A write that reaches a foreign map keeps the output as it is and the foreign maps closed. */
  lemma StrikeEffect(
    root: Node, dirs: Dirs, leaves: Leaves, foreign: set<Node>, contents: Contents, t: Path, value: Value, past: Past,
    before: Write, write: Write, chain: seq<Node>)
    requires t != [] && Standing(past, dirs, foreign, leaves, contents, t, WalkEnd(t), before)
    requires [] in dirs && dirs[[]] == root && Strikes(past, leaves, t, value, write)
    requires write.writer in foreign && write.writer in past && write.at < |t|
    requires write.writer.fields == past[write.writer][t[write.at] := write.put]
    requires forall n :: n in past && n != write.writer ==> n.fields == past[n]
    requires (forall c :: c in chain ==> c !in past) && Chained(t, value, write, chain, PastOf(NodesOf(chain)))
    ensures Struck(past, PastOf(past.Keys + NodesOf(chain)), leaves, t, value, write, chain)
    ensures (value.Nested? ==> value.node in foreign) ==> Owned(root, dirs, leaves, foreign + NodesOf(chain))
  {
    StandingOwned(root, dirs, leaves, foreign, contents, t, past, before, write);
    hide Standing, Owned, Strikes, Shape, ChainFields;
    StrikeClosed(foreign, t, value, past, write, chain, leaves);
    MakeOwned(root, dirs, leaves, foreign, NodesOf(chain));
    StruckIs(past, leaves, t, value, write, chain);
  }

  lemma StandingOwned(
    root: Node, dirs: Dirs, leaves: Leaves, foreign: set<Node>, contents: Contents, t: Path, past: Past, before: Write,
    write: Write)
    requires t != [] && Standing(past, dirs, foreign, leaves, contents, t, WalkEnd(t), before)
    requires [] in dirs && dirs[[]] == root && write.writer in foreign
    requires forall n :: n in past && n != write.writer ==> n.fields == past[n]
    ensures Shape(dirs, leaves) && foreign !! dirs.Values && ClosedPast(past, foreign) && dirs.Values <= past.Keys
    ensures forall p :: p in leaves && leaves[p].Nested? ==> leaves[p].node in foreign
  {
    hide Find, MeetsUpTo, Inside, Beyond;
    assert ContentsOf(dirs) == contents;
    hide Laid;
  }

  lemma MakeOwned(root: Node, dirs: Dirs, leaves: Leaves, foreign: set<Node>, more: set<Node>)
    requires Shape(dirs, leaves) && [] in dirs && dirs[[]] == root && foreign !! dirs.Values && more !! dirs.Values
    requires forall p :: p in leaves && leaves[p].Nested? ==> leaves[p].node in foreign
    ensures Closed(foreign + more) ==> Owned(root, dirs, leaves, foreign + more)
  {
    hide Laid;
  }

  lemma StruckIs(past: Past, leaves: Leaves, t: Path, value: Value, write: Write, chain: seq<Node>)
    requires t != [] && Strikes(past, leaves, t, value, write) && write.writer in past && write.at < |t|
    requires write.writer.fields == past[write.writer][t[write.at] := write.put]
    requires forall n :: n in past && n != write.writer ==> n.fields == past[n]
    requires (forall c :: c in chain ==> c !in past) && Chained(t, value, write, chain, PastOf(NodesOf(chain)))
    ensures Struck(past, PastOf(past.Keys + NodesOf(chain)), leaves, t, value, write, chain)
  {
    hide Strikes, ChainFields;
    forall j | 0 <= j < |chain| ensures chain[j] in NodesOf(chain) {}
  }

  lemma StrikeClosed(
    foreign: set<Node>, t: Path, value: Value, past: Past, write: Write, chain: seq<Node>, leaves: Leaves)
    requires t != [] && ClosedPast(past, foreign) && write.writer in foreign && write.at < |t|
    requires Strikes(past, leaves, t, value, write)
    requires write.writer.fields == past[write.writer][t[write.at] := write.put]
    requires forall n :: n in foreign && n != write.writer ==> n.fields == past[n]
    requires Chained(t, value, write, chain, PastOf(NodesOf(chain)))
    ensures (value.Nested? ==> value.node in foreign) ==> Closed(foreign + NodesOf(chain))
  {
    hide Find, Inside, IsMap;
    var all := foreign + NodesOf(chain);
    if value.Nested? ==> value.node in foreign {
      forall n, k | n in all && k in n.fields && n.fields[k].Nested? ensures n.fields[k].node in all {
        if n in chain {
          var j :| 0 <= j < |chain| && chain[j] == n;
          assert j + 1 < |chain| ==> chain[j + 1] in chain;
        } else if n == write.writer && k == t[write.at] {
          assert chain != [] ==> chain[0] in chain;
        }
      }
    }
  }

  ghost function Final(write: Write, value: Value): Write {
    if write.done then write else write.(done := true, put := value)
  }

  lemma RootOf(root: Node, dirs: Dirs, leaves: Leaves, foreign: set<Node>)
    ensures Owned(root, dirs, leaves, foreign) ==> [] in dirs && dirs[[]] == root
  {
  }

  /** What standing at the end of the walk says of the write. */
  lemma StandingAtEnd(
    past: Past, dirs: Dirs, foreign: set<Node>, leaves: Leaves, contents: Contents, t: Path, write: Write)
    requires t != [] && Standing(past, dirs, foreign, leaves, contents, t, WalkEnd(t), write)
    ensures past.Keys == dirs.Values + foreign && write.writer in past && (write.writer in foreign <==> write.met > 0)
    ensures write.met > 0 <==> MeetsUpTo(t, leaves, WalkEnd(t))
    ensures write.met > 0 ==> Inside(past, leaves, t, write.met, write.at, write.writer)
    ensures if write.done then write.at < WalkEnd(t) && Beyond(past, leaves, t, write) else write.at == WalkEnd(t)
  {
    hide Laid, Find, MeetsUpTo, Inside, Beyond;
  }

  lemma StrikesLanded(past: Past, leaves: Leaves, t: Path, value: Value, write: Write)
    requires t != [] && write.met > 0 && Inside(past, leaves, t, write.met, write.at, write.writer)
    requires write.done ==> write.at < |t| - 1 && Beyond(past, leaves, t, write) && write.put.Nested?
    requires !write.done ==> write.at == |t| - 1
    ensures Strikes(past, leaves, t, value, Final(write, value))
  {
    hide Find;
  }

  lemma ForeignClosed(
    past: Past, dirs: Dirs, foreign: set<Node>, leaves: Leaves, contents: Contents, t: Path, write: Write)
    requires t != [] && Standing(past, dirs, foreign, leaves, contents, t, WalkEnd(t), write)
    requires forall n :: n in foreign ==> n in past && n.fields == past[n]
    ensures Closed(foreign) && foreign !! dirs.Values
    ensures forall p :: p in leaves && leaves[p].Nested? ==> leaves[p].node in foreign
  {
  }

  lemma WalkingGrown(dirs: Dirs, grown: Dirs, newborn: set<Node>, leaves: Leaves, t: Path, current: Node)
    requires t != []
    ensures Walking(dirs, grown, newborn, leaves, t, |t| - 1, current) ==>
      Grown(dirs, grown, t, |t| - 1) && forall p :: p in grown && p !in dirs ==> grown[p] in newborn
  {
  }

  lemma PlantedOwned(
    root: Node, dirs: Dirs, grown: Dirs, newborn: set<Node>, leaves: Leaves, foreign: set<Node>, t: Path, value: Value)
    requires t != [] && [] in dirs && dirs[[]] == root && Grown(dirs, grown, t, |t| - 1) && newborn !! foreign
    requires forall p :: p in grown && p !in dirs ==> grown[p] in newborn
    requires Shape(PrunedDirs(grown, t), Planted(Cut(leaves, t, |t| - 1), t, value))
    requires Closed(foreign) && foreign !! dirs.Values
    requires forall p :: p in leaves && leaves[p].Nested? ==> leaves[p].node in foreign
    ensures (value.Nested? ==> value.node in foreign) ==>
      Owned(root, PrunedDirs(grown, t), Planted(Cut(leaves, t, |t| - 1), t, value), foreign)
    ensures NextDirs(dirs, PrunedDirs(grown, t), t)
    ensures forall p :: p in PrunedDirs(grown, t) ==>
      (p in dirs && PrunedDirs(grown, t)[p] == dirs[p]) || PrunedDirs(grown, t)[p] in newborn
  {
    hide Laid;
    var after := PrunedDirs(grown, t);
    forall n | n in after.Values ensures n in dirs.Values || n in newborn {
      var p :| p in after && after[p] == n;
      assert p in dirs ==> n == dirs[p];
    }
  }

  /** After the last segment of a clean target. */
  lemma Landed(
    root: Node, dirs: Dirs, grown: Dirs, newborn: set<Node>, leaves: Leaves, foreign: set<Node>, contents: Contents,
    t: Path, value: Value, past: Past, write: Write, chain: seq<Node>)
    returns (dirs': Dirs)
    requires t != [] && Clean(t) && [] in dirs && dirs[[]] == root && newborn !! foreign
    requires Standing(past, dirs, foreign, leaves, contents, t, WalkEnd(t), write) && (write.done ==> write.put.Nested?)
    requires !MeetsUpTo(t, leaves, WalkEnd(t)) ==>
      && Grown(dirs, grown, t, |t| - 1) && Shape(PrunedDirs(grown, t), Planted(Cut(leaves, t, |t| - 1), t, value))
      && (forall p :: p in grown && p !in dirs ==> grown[p] in newborn)
    requires write.writer in past && Final(write, value).at < |t|
    requires write.writer.fields == past[write.writer][t[write.at] := Final(write, value).put]
    requires forall n :: n in past && n != write.writer ==> n.fields == past[n]
    requires forall c :: c in chain ==> c !in past
    requires Chained(t, value, Final(write, value), chain, PastOf(NodesOf(chain)))
    ensures Effect(past, root, dirs, dirs', leaves, foreign, t, value, Final(write, value), chain)
    ensures forall p :: p in dirs' ==> (p in dirs && dirs'[p] == dirs[p]) || dirs'[p] in newborn
  {
    TouchesMeans(past, dirs, foreign, leaves, contents, t, write);
    StandingAtEnd(past, dirs, foreign, leaves, contents, t, write);
    hide *;
    if write.met > 0 {
      dirs' := dirs;
      StrikesLanded(past, leaves, t, value, write);
      StrikeEffect(root, dirs, leaves, foreign, contents, t, value, past, write, Final(write, value), chain);
      StruckEffect(past, root, dirs, leaves, foreign, t, value, Final(write, value), chain);
    } else {
      dirs' := PrunedDirs(grown, t);
      assert forall n :: n in foreign ==> n in past && n.fields == past[n];
      ForeignClosed(past, dirs, foreign, leaves, contents, t, write);
      PlantedOwned(root, dirs, grown, newborn, leaves, foreign, t, value);
      ClearEffect(past, root, dirs, dirs', leaves, foreign, t, value, Final(write, value), chain);
    }
  }

  lemma StruckEffect(
    past: Past, root: Node, dirs: Dirs, leaves: Leaves, foreign: set<Node>, t: Path, value: Value, write: Write,
    chain: seq<Node>)
    requires t != [] && Touches(past, leaves, t) && write.writer in foreign
    requires Struck(past, PastOf(past.Keys + NodesOf(chain)), leaves, t, value, write, chain)
    requires (value.Nested? ==> value.node in foreign) ==> Owned(root, dirs, leaves, foreign + NodesOf(chain))
    ensures Effect(past, root, dirs, dirs, leaves, foreign, t, value, write, chain)
  {
    hide Touches, Struck, Owned;
  }

  lemma ClearEffect(
    past: Past, root: Node, dirs: Dirs, dirs': Dirs, leaves: Leaves, foreign: set<Node>, t: Path, value: Value,
    write: Write, chain: seq<Node>)
    requires t != [] && Clean(t) && !Touches(past, leaves, t) && !MeetsUpTo(t, leaves, WalkEnd(t))
    requires forall n :: n in foreign ==> n in past && n.fields == past[n]
    requires (value.Nested? ==> value.node in foreign) ==>
      Owned(root, dirs', Planted(Cut(leaves, t, |t| - 1), t, value), foreign)
    requires NextDirs(dirs, dirs', t)
    ensures Effect(past, root, dirs, dirs', leaves, foreign, t, value, write, chain)
  {
    hide Touches, Struck, Owned, Planted, Cut, MeetsUpTo, NextDirs;
  }

  /** After a target with a blank segment. */
  lemma Stopped(
    root: Node, dirs: Dirs, grown: Dirs, newborn: set<Node>, leaves: Leaves, foreign: set<Node>, contents: Contents,
    t: Path, value: Value, past: Past, current: Node, write: Write, chain: seq<Node>)
    returns (dirs': Dirs)
    requires t != [] && !Clean(t) && [] in dirs && dirs[[]] == root && newborn !! foreign
    requires Standing(past, dirs, foreign, leaves, contents, t, WalkEnd(t), write) && Tracked(past, t, current, write)
    requires Linked(past, t, WalkEnd(t), current, write, chain)
    requires !MeetsUpTo(t, leaves, WalkEnd(t)) ==> Walking(dirs, grown, newborn, leaves, t, WalkEnd(t), current)
    ensures Effect(past, root, dirs, dirs', leaves, foreign, t, value, write, chain)
    ensures forall p :: p in dirs' ==> (p in dirs && dirs'[p] == dirs[p]) || dirs'[p] in newborn
  {
    TouchesMeans(past, dirs, foreign, leaves, contents, t, write);
    StandingAtEnd(past, dirs, foreign, leaves, contents, t, write);
    hide Touches, Inside, Beyond, Find, MeetsUpTo, Standing, Effect, Walking;
    if write.met > 0 && write.done {
      StrikesLanded(past, leaves, t, value, write);
      dirs' := dirs;
      ChainStopped(past, t, value, current, write, chain);
      assert forall c :: c in chain ==> c !in past;
      hide Linked, Chained, Owned, Struck, Strikes;
      StrikeEffect(root, dirs, leaves, foreign, contents, t, value, past, write, write, chain);
      StruckEffect(past, root, dirs, leaves, foreign, t, value, write, chain);
    } else {
      assert forall n :: n in foreign ==> n in past && n.fields == past[n];
      assert write.met > 0 ==> forall n :: n in past ==> n.fields == past[n];
      hide Linked, Tracked;
      ForeignClosed(past, dirs, foreign, leaves, contents, t, write);
      if write.met == 0 {
        dirs' := grown;
        GrownOwned(root, dirs, grown, newborn, leaves, foreign, t, WalkEnd(t), current);
        BlankEffect(past, root, dirs, dirs', leaves, foreign, t, value, write, chain);
      } else {
        dirs' := dirs;
        StillOwned(root, dirs, leaves, foreign, contents, t, past, write);
        BlankEffect(past, root, dirs, dirs', leaves, foreign, t, value, write, chain);
      }
    }
  }

  lemma StillOwned(
    root: Node, dirs: Dirs, leaves: Leaves, foreign: set<Node>, contents: Contents, t: Path, past: Past, write: Write)
    requires t != [] && Standing(past, dirs, foreign, leaves, contents, t, WalkEnd(t), write)
    requires [] in dirs && dirs[[]] == root && Closed(foreign) && forall n :: n in past ==> n.fields == past[n]
    ensures Owned(root, dirs, leaves, foreign)
  {
    hide Find, MeetsUpTo, Inside, Beyond;
    assert ContentsOf(dirs) == contents;
    hide Laid;
  }

  lemma BlankEffect(
    past: Past, root: Node, dirs: Dirs, dirs': Dirs, leaves: Leaves, foreign: set<Node>, t: Path, value: Value,
    write: Write, chain: seq<Node>)
    requires t != [] && !Clean(t) && !Touches(past, leaves, t)
    requires forall n :: n in foreign ==> n in past && n.fields == past[n]
    requires Owned(root, dirs', if MeetsUpTo(t, leaves, WalkEnd(t)) then leaves else Cut(leaves, t, WalkEnd(t)),
                   foreign)
    ensures Effect(past, root, dirs, dirs', leaves, foreign, t, value, write, chain)
  {
    hide Touches, Struck, Owned, Cut, MeetsUpTo, NextDirs;
  }

  lemma GrownOwned(
    root: Node, dirs: Dirs, grown: Dirs, newborn: set<Node>, leaves: Leaves, foreign: set<Node>, t: Path, i: nat,
    current: Node)
    requires i <= |t| && [] in dirs && dirs[[]] == root && Walking(dirs, grown, newborn, leaves, t, i, current)
    requires newborn !! foreign && Closed(foreign) && foreign !! dirs.Values
    requires forall p :: p in leaves && leaves[p].Nested? ==> leaves[p].node in foreign
    ensures Owned(root, grown, Cut(leaves, t, i), foreign)
    ensures forall p :: p in grown ==> (p in dirs && grown[p] == dirs[p]) || grown[p] in newborn
  {
    hide Laid;
    forall n | n in grown.Values ensures n in dirs.Values || n in newborn {
      var p :| p in grown && grown[p] == n;
      assert p in dirs ==> n == dirs[p];
    }
  }

  // ---------------------------------------------------------------- reading back what was written

  ghost predicate CleanLeaves(leaves: Leaves) { forall p :: p in leaves ==> Clean(p) }

  /** Looking up an inner path finds the map there; one more segment reads that map. */
  lemma {:induction false} FindDir(past: Past, dirs: Dirs, leaves: Leaves, p: Path)
    requires Shape(dirs, leaves) && p in dirs && Holds(past, dirs)
    requires forall i :: 0 <= i < |p| ==> p[i] != ""
    ensures Find(past, Nested(dirs[[]]), p) == Some(Nested(dirs[p]))
  {
    if p != [] {
      var q, s := p[..|p| - 1], p[|p| - 1];
      ChildSplits(p);
      assert SlotRight(dirs, ContentsOf(dirs), leaves, q, s);
      FindDir(past, dirs, leaves, q);
    }
  }

  /** The snapshot covers an output. */
  ghost predicate Holds(past: Past, dirs: Dirs)
    reads dirs.Values
  {
    forall p :: p in dirs ==> dirs[p] in past && past[dirs[p]] == dirs[p].fields
  }

  /** Get after set: looking up an applied target gives its value. */
  lemma FindLeaf(past: Past, dirs: Dirs, leaves: Leaves, p: Path)
    requires Shape(dirs, leaves) && Holds(past, dirs) && p in leaves && CleanLeaves(leaves)
    ensures Find(past, Nested(dirs[[]]), p) == Some(leaves[p])
  {
    var q, s := p[..|p| - 1], p[|p| - 1];
    ChildSplits(p);
    assert SlotRight(dirs, ContentsOf(dirs), leaves, q, s);
    FindDir(past, dirs, leaves, q);
  }

  /** The inner paths are just those that lead to a leaf. */
  ghost predicate Tight(dirs: Dirs, leaves: Leaves) {
    forall p :: p in dirs <==> p == [] || exists q :: q in leaves && p < q
  }

  /**
   Two outputs with the same leaves read the same: at every path both find a map of their own, or both find
   the same value, or both find nothing.
   */
  lemma {:induction false} SameLeavesReadSame(past: Past, one: Dirs, two: Dirs, leaves: Leaves, p: Path)
    requires Shape(one, leaves) && Shape(two, leaves) && Tight(one, leaves) && Tight(two, leaves)
    requires Holds(past, one) && Holds(past, two) && CleanLeaves(leaves)
    ensures p in one <==> p in two
    ensures p !in one ==> Find(past, Nested(one[[]]), p) == Find(past, Nested(two[[]]), p)
  {
    if p != [] {
      var q, s := p[..|p| - 1], p[|p| - 1];
      ChildSplits(p);
      if q in one && p !in one {
        InnerIsClean(one, leaves, q);
        FindDir(past, one, leaves, q);
        FindDir(past, two, leaves, q);
        assert SlotRight(one, ContentsOf(one), leaves, q, s);
        assert SlotRight(two, ContentsOf(two), leaves, q, s);
      } else if p !in one {
        SameLeavesReadSame(past, one, two, leaves, q);
      }
    }
  }

  lemma InnerIsClean(dirs: Dirs, leaves: Leaves, p: Path)
    requires Tight(dirs, leaves) && CleanLeaves(leaves) && p in dirs
    ensures forall i :: 0 <= i < |p| ==> p[i] != ""
  {
    if p != [] {
      var q :| q in leaves && p < q;
      assert Clean(q);
    }
  }

  /** A clean target that reaches no foreign map keeps the inner paths to those that lead to a leaf. */
  lemma TightNext(dirs: Dirs, dirs': Dirs, leaves: Leaves, t: Path, value: Value)
    requires Clean(t) && Tight(dirs, leaves) && NextDirs(dirs, dirs', t) && !MeetsUpTo(t, leaves, WalkEnd(t))
    ensures Tight(dirs', Written(leaves, t, value))
  {
    var after := Written(leaves, t, value);
    assert forall q :: q in after <==> q == t || (q in leaves && !(q <= t[..|t| - 1]) && !(t <= q));
    hide Written;
    forall p ensures p in dirs' <==> p == [] || exists q :: q in after && p < q {
      if p in Above(t, |t| - 1) { assert p < t && t in after; }
      if p in dirs' && p !in Above(t, |t| - 1) && p != [] {
        var q :| q in leaves && p < q;
        Crossing(p, q, t);
        assert q in after;
      }
      if q :| q in after && p < q {
        if q == t {
          assert p == t[..|p|];
          assert p in Above(t, |t| - 1);
        } else {
          assert p in dirs;
        }
        NotBelow(p, q, t);
      }
    }
    assert t[..0] == [] && [] in Above(t, |t| - 1);
  }

  /** What lies below a path that leads to the target, or at or below the target, if anything there meets it. */
  lemma Crossing(p: Path, q: Path, t: Path)
    requires t != [] && p < q
    ensures q <= t[..|t| - 1] || t <= q ==> t <= p || p in Above(t, |t| - 1)
  {
    if q <= t[..|t| - 1] || t <= q {
      if |p| < |t| {
        assert p == t[..|p|];
      } else {
        assert t == q[..|t|] == p[..|t|];
      }
    }
  }

  lemma NotBelow(p: Path, q: Path, t: Path)
    requires p < q && (q == t || !(t <= q))
    ensures !(t <= p)
  {
  }

  // ---------------------------------------------------------------- previewing one sample

  function TargetPath(rule: CompiledRule): (t: Path)
    ensures t != []
  {
    Segments(rule.rule.targetPath)
  }

  /** Clean targets, none of them a segment-prefix of another. */
  ghost predicate PrefixFree(rules: seq<CompiledRule>) {
    && (forall i :: 0 <= i < |rules| ==> Clean(TargetPath(rules[i])))
    && (forall i, j :: 0 <= i < |rules| && 0 <= j < |rules| && i != j ==>
          !(TargetPath(rules[i]) <= TargetPath(rules[j])))
  }

  /** What a rule makes of a sample: nothing if the source is missing or the transform fails. */
  ghost function Outcome(past: Past, lib: Library, sample: Node, rule: CompiledRule): Option<Value> {
    match Find(past, Nested(sample), Segments(rule.rule.sourcePath))
    case None => None
    case Some(value) => Apply(lib, rule.transform, value)
  }

  /** The leaves are exactly the targets of the rules that apply, each with its transformed value. */
  ghost predicate LeavesOf(past: Past, lib: Library, sample: Node, rules: seq<CompiledRule>, n: nat, leaves: Leaves)
    requires n <= |rules|
  {
    && (forall i :: 0 <= i < n && Outcome(past, lib, sample, rules[i]).Some? ==>
          TargetPath(rules[i]) in leaves && leaves[TargetPath(rules[i])] == Outcome(past, lib, sample, rules[i]).value)
    && (forall p :: p in leaves ==>
          exists i :: 0 <= i < n && TargetPath(rules[i]) == p && Outcome(past, lib, sample, rules[i]).Some?)
  }

  /** Every order of the rules has the same leaves. */
  lemma LeavesOrderFree(
    past: Past, lib: Library, sample: Node, one: seq<CompiledRule>, two: seq<CompiledRule>,
    first: Leaves, second: Leaves)
    requires multiset(one) == multiset(two)
    requires LeavesOf(past, lib, sample, one, |one|, first) && LeavesOf(past, lib, sample, two, |two|, second)
    ensures first == second
  {
    hide TargetPath, Outcome;
    Sorting.PermutationKeepsElements(one, two);
    forall p | p in first ensures p in second && first[p] == second[p] {
      var i :| 0 <= i < |one| && TargetPath(one[i]) == p && Outcome(past, lib, sample, one[i]).Some?;
      assert one[i] in two;
    }
    forall p | p in second ensures p in first {
      var i :| 0 <= i < |two| && TargetPath(two[i]) == p && Outcome(past, lib, sample, two[i]).Some?;
      assert two[i] in one;
    }
  }

  /** A closed part of the known maps is enough to look up what starts in it. */
  lemma {:induction false} FindWithin(few: Past, many: Past, value: Value, path: Path)
    requires forall n :: n in few ==> n in many && many[n] == few[n]
    requires ClosedPast(few, few.Keys) && (value.Nested? ==> value.node in few)
    ensures Find(few, value, path) == Find(many, value, path)
    ensures Find(few, value, path).Some? && Find(few, value, path).value.Nested? ==>
      Find(few, value, path).value.node in few
  {
    if path != [] { FindWithin(few, many, value, path[..|path| - 1]); }
  }

  /** A transform hands on a nested map only by passing its input through. */
  lemma ApplyMakesNoMaps(lib: Library, transform: Transform, value: Value)
    ensures Apply(lib, transform, value).Some? && Apply(lib, transform, value).value.Nested? ==>
      Apply(lib, transform, value).value == value
  {
  }

  datatype Report = Applied(input: Value, output: Value) | SourceMissing | TransformFailed(input: Value)

  /** What a report says of a rule: what the sample held at its source, and what its transform made of it. */
  ghost predicate Tells(past: Past, lib: Library, sample: Node, rule: CompiledRule, report: Report) {
    var found := Find(past, Nested(sample), Segments(rule.rule.sourcePath));
    match report
    case Applied(input, output) => found == Some(input) && Means(lib, rule.transform, input, output)
    case SourceMissing => found == None
    case TransformFailed(input) => found == Some(input) && Fails(lib, rule.transform, input)
  }

  /** One rule on one sample: the value to write, or what went wrong. */
  method ApplyRule(lib: Library, sample: Node, rule: CompiledRule, ghost nodes: set<Node>)
    returns (report: Report, output: Option<Value>)
    requires sample in nodes && Closed(nodes)
    ensures Tells(PastOf(nodes), lib, sample, rule, report)
    ensures report.Applied? <==> output.Some?
    ensures output == Outcome(PastOf(nodes), lib, sample, rule)
    ensures output.Some? && output.value.Nested? ==> output.value.node in nodes
  {
    var input := LookupPath(sample, rule.rule.sourcePath, nodes);
    FindWithin(PastOf(nodes), PastOf(nodes), Nested(sample), Segments(rule.rule.sourcePath));
    if input.None? {
      return SourceMissing, None;
    }
    ApplyMakesNoMaps(lib, rule.transform, input.value);
    FailsExactly(lib, rule.transform, input.value);
    hide Apply, Means, Fails;
    output := Apply(lib, rule.transform, input.value);
    if output.None? {
      return TransformFailed(input.value), None;
    }
    AppliesExactly(lib, rule.transform, input.value, output.value);
    report := Applied(input.value, output.value);
  }

  // ---------------------------------------------------------------- the leaves of a preview

  /** The leaves of the output after the first `n` rules, as long as no sample is written. */
  ghost function LeavesAfter(past: Past, lib: Library, sample: Node, rules: seq<CompiledRule>, n: nat): Leaves
    requires n <= |rules|
  {
    if n == 0 then map[]
    else
      var before := LeavesAfter(past, lib, sample, rules, n - 1);
      match Outcome(past, lib, sample, rules[n - 1])
      case None => before
      case Some(value) => Written(before, TargetPath(rules[n - 1]), value)
  }

  /** What an applying rule writes. */
  ghost function Produced(past: Past, lib: Library, sample: Node, rule: CompiledRule): Value {
    var outcome := Outcome(past, lib, sample, rule);
    if outcome.Some? then outcome.value else Nil
  }

  /** Rule `j` applies and its target reaches a map of the sample. */
  ghost predicate TouchesAt(past: Past, lib: Library, sample: Node, rules: seq<CompiledRule>, j: nat)
    requires j < |rules|
  {
    && Outcome(past, lib, sample, rules[j]).Some?
    && Touches(past, LeavesAfter(past, lib, sample, rules, j), TargetPath(rules[j]))
  }

  ghost predicate AllClean(rules: seq<CompiledRule>, n: nat) {
    forall i :: 0 <= i < n && i < |rules| ==> Clean(TargetPath(rules[i]))
  }

  /** A target that neither extends nor leads to an earlier one reaches nothing and only adds its leaf. */
  lemma Unrelated(past: Past, leaves: Leaves, t: Path, value: Value)
    requires Clean(t) && forall q :: q in leaves ==> !(q <= t) && !(t <= q)
    ensures !Touches(past, leaves, t) && !MeetsUpTo(t, leaves, WalkEnd(t))
    ensures Written(leaves, t, value) == leaves[t := value]
  {
    forall j | 0 <= j <= |t| ensures t[..j] !in leaves { assert t[..j] <= t; }
    KeptWhole(leaves, t, value);
    hide Cut, Planted, Find;
  }

  lemma KeptWhole(leaves: Leaves, t: Path, value: Value)
    requires t != [] && forall q :: q in leaves ==> !(q <= t) && !(t <= q)
    ensures Cut(leaves, t, |t| - 1) == leaves && Planted(leaves, t, value) == leaves[t := value]
  {
    forall q | q in leaves ensures !(q <= t[..|t| - 1]) {
      assert q <= t[..|t| - 1] ==> q <= t;
    }
  }

  lemma PrefixFreeStep(
    past: Past, lib: Library, sample: Node, rules: seq<CompiledRule>, n: nat, leaves: Leaves, value: Value)
    requires PrefixFree(rules) && n < |rules| && LeavesOf(past, lib, sample, rules, n, leaves)
    ensures var t := TargetPath(rules[n]);
      !Touches(past, leaves, t) && Written(leaves, t, value) == leaves[t := value]
  {
    hide TargetPath, Outcome, Touches, Written;
    var t := TargetPath(rules[n]);
    forall q | q in leaves ensures !(t <= q) && !(q <= t) {
      var i :| 0 <= i < n && TargetPath(rules[i]) == q && Outcome(past, lib, sample, rules[i]).Some?;
      assert !(TargetPath(rules[n]) <= TargetPath(rules[i])) && !(TargetPath(rules[i]) <= TargetPath(rules[n]));
    }
    Unrelated(past, leaves, t, value);
  }

  lemma PrefixFreeRule(past: Past, lib: Library, sample: Node, rules: seq<CompiledRule>, n: nat)
    requires PrefixFree(rules) && n < |rules|
    requires LeavesOf(past, lib, sample, rules, n, LeavesAfter(past, lib, sample, rules, n))
    ensures LeavesOf(past, lib, sample, rules, n + 1, LeavesAfter(past, lib, sample, rules, n + 1))
    ensures !TouchesAt(past, lib, sample, rules, n)
  {
    hide TargetPath, Outcome, Touches, Written, LeavesOf, PrefixFree;
    var leaves := LeavesAfter(past, lib, sample, rules, n);
    PrefixFreeStep(past, lib, sample, rules, n, leaves, Produced(past, lib, sample, rules[n]));
    LeavesStep(past, lib, sample, rules, n, leaves);
  }

  lemma NoLeavesYet(past: Past, lib: Library, sample: Node, rules: seq<CompiledRule>)
    ensures LeavesAfter(past, lib, sample, rules, 0) == map[]
    ensures LeavesOf(past, lib, sample, rules, 0, LeavesAfter(past, lib, sample, rules, 0))
  {
  }

  /** With prefix-free targets no rule reaches a sample, and the leaves are the applied targets with their values. */
  lemma {:induction false} PrefixFreeTouchesNothing(
    past: Past, lib: Library, sample: Node, rules: seq<CompiledRule>, n: nat)
    requires PrefixFree(rules) && n <= |rules|
    ensures LeavesOf(past, lib, sample, rules, n, LeavesAfter(past, lib, sample, rules, n))
    ensures forall j :: 0 <= j < n ==> !TouchesAt(past, lib, sample, rules, j)
  {
    hide *;
    if n == 0 {
      NoLeavesYet(past, lib, sample, rules);
    } else {
      PrefixFreeTouchesNothing(past, lib, sample, rules, n - 1);
      PrefixFreeRule(past, lib, sample, rules, n - 1);
    }
  }

  lemma LeavesStep(
    past: Past, lib: Library, sample: Node, rules: seq<CompiledRule>, n: nat, leaves: Leaves)
    requires PrefixFree(rules) && n < |rules| && LeavesOf(past, lib, sample, rules, n, leaves)
    ensures match Outcome(past, lib, sample, rules[n])
      case None => LeavesOf(past, lib, sample, rules, n + 1, leaves)
      case Some(value) => LeavesOf(past, lib, sample, rules, n + 1, leaves[TargetPath(rules[n]) := value])
  {
    hide TargetPath, Outcome;
    forall i | 0 <= i < n ensures TargetPath(rules[i]) != TargetPath(rules[n]) {
      assert !(TargetPath(rules[i]) <= TargetPath(rules[n]));
    }
  }

  // ---------------------------------------------------------------- previewing

  /** The maps of the sample, with those that writes have hung under them, and the leaves of the output. */
  datatype Stage = Stage(past: Past, leaves: Leaves)

  datatype Strike = Strike(write: Write, chain: seq<Node>)

  /** What one rule makes of a stage. */
  ghost predicate Evolves(lib: Library, sample: Node, rule: CompiledRule, a: Stage, b: Stage, strike: Strike) {
    match Outcome(a.past, lib, sample, rule)
    case None => b == a
    case Some(value) =>
      if Touches(a.past, a.leaves, TargetPath(rule))
      then b.leaves == a.leaves
           && Struck(a.past, b.past, a.leaves, TargetPath(rule), value, strike.write, strike.chain)
      else b == Stage(a.past, Written(a.leaves, TargetPath(rule), value))
  }

  ghost predicate IsTrace(
    lib: Library, sample: Node, rules: seq<CompiledRule>, stages: seq<Stage>, strikes: seq<Strike>, n: nat)
  {
    && n <= |rules| && |stages| == n + 1 && |strikes| == n
    && forall i :: 0 <= i < n ==> Evolves(lib, sample, rules[i], stages[i], stages[i + 1], strikes[i])
  }

  /** The heap is at this stage. */
  ghost predicate Stands(stage: Stage, output: Node, sample: Node, dirs: Dirs)
    reads stage.past.Keys, dirs.Values
  {
    && PastOf(stage.past.Keys) == stage.past && ClosedPast(stage.past, stage.past.Keys) && sample in stage.past
    && Owned(output, dirs, stage.leaves, stage.past.Keys)
  }

  ghost predicate PartOf(few: Past, many: Past) { forall n :: n in few ==> n in many && many[n] == few[n] }

  ghost predicate LeavesIn(leaves: Leaves, nodes: set<Node>) {
    forall p :: p in leaves && leaves[p].Nested? ==> leaves[p].node in nodes
  }

  /** Only the foreign maps matter for what a write reaches. */
  lemma TouchesWithin(few: Past, many: Past, leaves: Leaves, t: Path)
    requires t != [] && PartOf(few, many) && ClosedPast(few, few.Keys) && LeavesIn(leaves, few.Keys)
    ensures Touches(few, leaves, t) <==> Touches(many, leaves, t)
  {
    var e := WalkEnd(t);
    forall j | 0 < j <= e && t[..j] in leaves && leaves[t[..j]].Nested?
      ensures Find(few, leaves[t[..j]], t[j..e]) == Find(many, leaves[t[..j]], t[j..e])
    {
      FindWithin(few, many, leaves[t[..j]], t[j..e]);
    }
  }

  lemma StrikesWithin(few: Past, many: Past, leaves: Leaves, t: Path, value: Value, write: Write)
    requires PartOf(few, many) && ClosedPast(few, few.Keys) && LeavesIn(leaves, few.Keys)
    requires Strikes(many, leaves, t, value, write)
    ensures Strikes(few, leaves, t, value, write)
  {
    FindWithin(few, many, leaves[t[..write.met]], t[write.met..write.at]);
    if write.at < |t| - 1 { FindWithin(few, many, leaves[t[..write.met]], t[write.met..write.at + 1]); }
  }

  lemma StruckWithin(
    few: Past, many: Past, after: Past, less: Past, leaves: Leaves, t: Path, value: Value, write: Write,
    chain: seq<Node>)
    requires PartOf(few, many) && ClosedPast(few, few.Keys) && LeavesIn(leaves, few.Keys)
    requires Struck(many, after, leaves, t, value, write, chain) && write.writer in few
    requires less.Keys == few.Keys + NodesOf(chain) && forall n :: n in less ==> n in after && after[n] == less[n]
    ensures Struck(few, less, leaves, t, value, write, chain)
  {
    StrikesWithin(few, many, leaves, t, value, write);
    hide Strikes, ChainFields, ClosedPast, LeavesIn;
    forall j | 0 <= j < |chain| ensures chain[j] in NodesOf(chain) {}
  }

  /** The writer as a preview uses it: the foreign maps are those of the stage. */
  method SetTarget(
    output: Node, t: Path, value: Value, ghost sample: Node, ghost reach: set<Node>, ghost dirs: Dirs,
    ghost stage: Stage)
    returns (ghost reach': set<Node>, ghost dirs': Dirs, ghost stage': Stage, ghost strike: Strike)
    requires t != [] && output in reach && Closed(reach) && (value.Nested? ==> value.node in reach)
    requires stage.past.Keys <= reach
    modifies reach
    ensures reach <= reach' && fresh(reach' - reach) && Closed(reach') && stage'.past.Keys <= reach'
    ensures old(Stands(stage, output, sample, dirs)) && (value.Nested? ==> value.node in stage.past) ==>
      && Stands(stage', output, sample, dirs')
      && (forall p :: p in dirs' ==> (p in dirs && dirs'[p] == dirs[p]) || fresh(dirs'[p]))
      && if Touches(stage.past, stage.leaves, t) then
           && stage'.leaves == stage.leaves && dirs' == dirs
           && Struck(stage.past, stage'.past, stage.leaves, t, value, strike.write, strike.chain)
         else
           && stage' == Stage(stage.past, Written(stage.leaves, t, value))
           && (Clean(t) ==> NextDirs(dirs, dirs', t))
  {
    hide *;
    ghost var past, leaves := stage.past, stage.leaves;
    ghost var good := Stands(stage, output, sample, dirs) && (value.Nested? ==> value.node in past);
    ghost var many := PastOf(dirs.Values + past.Keys);
    if good { StandsMeans(stage, output, sample, dirs, many); }
    ghost var write, chain;
    reach', dirs', write, chain := SetPath(output, t, value, reach, dirs, leaves, past.Keys);
    stage', strike := stage, Strike(write, chain);
    if good {
      if Touches(past, leaves, t) {
        stage' := StageStruck(stage, many, output, sample, dirs, dirs', t, value, write, chain);
      } else {
        stage' := StageClear(stage, many, output, sample, dirs, dirs', t, value, write, chain);
      }
    }
  }

  lemma StandsMeans(stage: Stage, output: Node, sample: Node, dirs: Dirs, many: Past)
    requires Stands(stage, output, sample, dirs) && many == PastOf(dirs.Values + stage.past.Keys)
    ensures Owned(output, dirs, stage.leaves, stage.past.Keys) && PartOf(stage.past, many)
    ensures LeavesIn(stage.leaves, stage.past.Keys) && ClosedPast(stage.past, stage.past.Keys) && sample in stage.past
  {
    hide Shape, Closed;
    forall n | n in stage.past ensures n in many && many[n] == stage.past[n] {
      assert PastOf(stage.past.Keys)[n] == n.fields;
    }
  }

  lemma StageStruck(
    stage: Stage, many: Past, output: Node, sample: Node, dirs: Dirs, dirs': Dirs, t: Path, value: Value, write: Write,
    chain: seq<Node>)
    returns (stage': Stage)
    requires t != [] && PartOf(stage.past, many) && LeavesIn(stage.leaves, stage.past.Keys)
    requires ClosedPast(stage.past, stage.past.Keys) && sample in stage.past
    requires value.Nested? ==> value.node in stage.past
    requires Touches(stage.past, stage.leaves, t)
    requires Effect(many, output, dirs, dirs', stage.leaves, stage.past.Keys, t, value, write, chain)
    ensures stage'.leaves == stage.leaves && dirs' == dirs && stage'.past.Keys == stage.past.Keys + NodesOf(chain)
    ensures Struck(stage.past, stage'.past, stage.leaves, t, value, write, chain)
    ensures Stands(stage', output, sample, dirs)
  {
    TouchesWithin(stage.past, many, stage.leaves, t);
    hide Touches;
    var after := PastOf(many.Keys + NodesOf(chain));
    var less := PastOf(stage.past.Keys + NodesOf(chain));
    stage' := Stage(less, stage.leaves);
    assert less.Keys == stage.past.Keys + NodesOf(chain);
    hide Struck, Owned, LeavesIn;
    StruckWithin(stage.past, many, after, less, stage.leaves, t, value, write, chain);
    OwnedCloses(output, dirs, stage.leaves, less.Keys);
  }

  lemma OwnedCloses(output: Node, dirs: Dirs, leaves: Leaves, foreign: set<Node>)
    requires Owned(output, dirs, leaves, foreign)
    ensures ClosedPast(PastOf(foreign), foreign) && PastOf(foreign).Keys == foreign
  {
    hide Shape;
  }

  lemma StageClear(
    stage: Stage, many: Past, output: Node, sample: Node, dirs: Dirs, dirs': Dirs, t: Path, value: Value, write: Write,
    chain: seq<Node>)
    returns (stage': Stage)
    requires t != [] && PartOf(stage.past, many) && LeavesIn(stage.leaves, stage.past.Keys)
    requires ClosedPast(stage.past, stage.past.Keys) && sample in stage.past
    requires value.Nested? ==> value.node in stage.past
    requires !Touches(stage.past, stage.leaves, t)
    requires Effect(many, output, dirs, dirs', stage.leaves, stage.past.Keys, t, value, write, chain)
    ensures stage' == Stage(stage.past, Written(stage.leaves, t, value)) && Stands(stage', output, sample, dirs')
    ensures Clean(t) ==> NextDirs(dirs, dirs', t)
  {
    TouchesWithin(stage.past, many, stage.leaves, t);
    stage' := Stage(stage.past, Written(stage.leaves, t, value));
    hide Touches, Owned, LeavesIn, Struck, Written, NextDirs, Clean;
    assert PastOf(stage.past.Keys) == stage.past;
  }

  /** One rule of a preview. */
  method PreviewRule(
    lib: Library, sample: Node, output: Node, rule: CompiledRule, ghost reach: set<Node>, ghost dirs: Dirs,
    ghost stage: Stage)
    returns (report: Report, ghost reach': set<Node>, ghost dirs': Dirs, ghost stage': Stage, ghost strike: Strike)
    requires sample in reach && output in reach && Closed(reach) && stage.past.Keys <= reach
    modifies reach
    ensures reach <= reach' && fresh(reach' - reach) && Closed(reach') && stage'.past.Keys <= reach'
    ensures old(Stands(stage, output, sample, dirs)) ==>
      && Stands(stage', output, sample, dirs') && Evolves(lib, sample, rule, stage, stage', strike)
      && (report.Applied? <==> Outcome(stage.past, lib, sample, rule).Some?)
      && Tells(stage.past, lib, sample, rule, report)
      && (forall p :: p in dirs' ==> (p in dirs && dirs'[p] == dirs[p]) || fresh(dirs'[p]))
      && (Clean(TargetPath(rule)) && Tight(dirs, stage.leaves) ==> Tight(dirs', stage'.leaves))
  {
    hide *;
    ghost var good := Stands(stage, output, sample, dirs);
    RuleReady(stage, reach, output, lib, sample, rule, dirs);
    var value;
    report, value := ApplyRule(lib, sample, rule, reach);
    if good { ToldAlike(stage.past, PastOf(reach), lib, sample, rule, report); }
    reach', dirs', stage', strike := reach, dirs, stage, Strike(Write(false, output, 0, Nil, 0), []);
    if value.None? {
      if good { RuleSkipped(lib, sample, rule, stage, strike); }
    } else {
      reach', dirs', stage', strike :=
        SetTarget(output, TargetPath(rule), value.value, sample, reach, dirs, stage);
      if good { RuleWritten(lib, sample, rule, stage, stage', strike, dirs, dirs', value.value); }
    }
  }

  /** What the next rule may rely on. */
  lemma RuleReady(
    stage: Stage, reach: set<Node>, output: Node, lib: Library, sample: Node, rule: CompiledRule, dirs: Dirs)
    requires stage.past.Keys <= reach
    ensures Stands(stage, output, sample, dirs) ==>
      var value := Outcome(stage.past, lib, sample, rule);
      && value == Outcome(PastOf(reach), lib, sample, rule)
      && Find(stage.past, Nested(sample), Segments(rule.rule.sourcePath))
         == Find(PastOf(reach), Nested(sample), Segments(rule.rule.sourcePath))
      && (value.Some? && value.value.Nested? ==> value.value.node in stage.past)
  {
    hide Owned;
    if Stands(stage, output, sample, dirs) {
      assert forall m :: m in stage.past ==> PastOf(stage.past.Keys)[m] == PastOf(reach)[m];
      OutcomeWithin(stage.past, PastOf(reach), lib, sample, rule);
    }
  }

  lemma ToldAlike(few: Past, many: Past, lib: Library, sample: Node, rule: CompiledRule, report: Report)
    requires Find(few, Nested(sample), Segments(rule.rule.sourcePath))
          == Find(many, Nested(sample), Segments(rule.rule.sourcePath))
    ensures Tells(few, lib, sample, rule, report) <==> Tells(many, lib, sample, rule, report)
  {
    hide Find, Segments, Means, Fails;
  }

  lemma RuleSkipped(lib: Library, sample: Node, rule: CompiledRule, stage: Stage, strike: Strike)
    requires Outcome(stage.past, lib, sample, rule).None?
    ensures Evolves(lib, sample, rule, stage, stage, strike)
  {
    hide Outcome;
  }

  lemma RuleWritten(
    lib: Library, sample: Node, rule: CompiledRule, a: Stage, b: Stage, strike: Strike, dirs: Dirs, dirs': Dirs,
    value: Value)
    requires Outcome(a.past, lib, sample, rule) == Some(value)
    requires var t := TargetPath(rule);
      if Touches(a.past, a.leaves, t) then
        && b.leaves == a.leaves && dirs' == dirs
        && Struck(a.past, b.past, a.leaves, t, value, strike.write, strike.chain)
      else
        && b == Stage(a.past, Written(a.leaves, t, value)) && (Clean(t) ==> NextDirs(dirs, dirs', t))
    ensures Evolves(lib, sample, rule, a, b, strike)
    ensures Clean(TargetPath(rule)) && Tight(dirs, a.leaves) ==> Tight(dirs', b.leaves)
  {
    var t := TargetPath(rule);
    CleanTouches(a.past, a.leaves, t);
    hide Outcome, TargetPath, Touches, Struck, Tight, NextDirs, Written, Clean, MeetsUpTo;
    if Clean(t) && Tight(dirs, a.leaves) && !Touches(a.past, a.leaves, t) {
      TightNext(dirs, dirs', a.leaves, t, value);
    }
  }

  /** A clean target reaches a sample exactly when an earlier target on its way holds a nested map. */
  lemma CleanTouches(past: Past, leaves: Leaves, t: Path)
    requires t != []
    ensures Clean(t) ==> (Touches(past, leaves, t) <==> MeetsUpTo(t, leaves, WalkEnd(t)))
  {
  }

  /**
   A preview of one sample, for every list of rules. The stages say what each rule does: whether it applies, given
   the sample as it then is; whether its target reaches a map of the sample, and which entry it then makes there; and
   which leaves the output has otherwise. The heap ends at the last stage.
   */
  method PreviewRecord(lib: Library, sample: Node, rules: seq<CompiledRule>, ghost samples: set<Node>)
    returns (output: Node, reports: seq<Report>, ghost dirs: Dirs, ghost stages: seq<Stage>, ghost strikes: seq<Strike>)
    requires sample in samples && Closed(samples)
    modifies samples
    ensures fresh(output) && |reports| == |rules| && |stages| == |rules| + 1
    ensures IsTrace(lib, sample, rules, stages, strikes, |rules|) && stages[0] == Stage(old(PastOf(samples)), map[])
    ensures forall i :: 0 <= i < |rules| ==>
      && (reports[i].Applied? <==> Outcome(stages[i].past, lib, sample, rules[i]).Some?)
      && Tells(stages[i].past, lib, sample, rules[i], reports[i])
    ensures Stands(stages[|rules|], output, sample, dirs) && fresh(dirs.Values)
    ensures fresh(stages[|rules|].past.Keys - samples)
    ensures AllClean(rules, |rules|) ==> Tight(dirs, stages[|rules|].leaves)
    // With prefix-free targets each of them reads what its transform means.
    ensures PrefixFree(rules) ==>
      forall i :: 0 <= i < |rules| ==>
        ReadsTransformed(old(PastOf(samples)), PastOf(samples + dirs.Values), lib, sample, output, rules[i])
  {
    hide *;
    ghost var past := PastOf(samples);
    output := new Node();
    reports, dirs, stages, strikes := [], map[[] := output], [Stage(past, map[])], [];
    ghost var reach := samples + {output};
    ReachOutput(samples, output);
    StandsAtStart(samples, output, sample);
    TraceStart(lib, sample, rules, stages[0]);
    for n := 0 to |rules|
      invariant samples <= reach && output in reach && fresh(reach - samples) && Closed(reach)
      invariant |reports| == n && IsTrace(lib, sample, rules, stages, strikes, n) && |stages| == n + 1
      invariant stages[0] == Stage(past, map[])
      invariant forall i :: 0 <= i < n ==>
        && (reports[i].Applied? <==> Outcome(stages[i].past, lib, sample, rules[i]).Some?)
        && Tells(stages[i].past, lib, sample, rules[i], reports[i])
      invariant Stands(stages[n], output, sample, dirs) && stages[n].past.Keys <= reach
      invariant forall p :: p in dirs ==> fresh(dirs[p])
      invariant AllClean(rules, n) ==> Tight(dirs, stages[n].leaves)
    {
      var report;
      ghost var stage', strike;
      AllCleanStep(rules, n);
      report, reach, dirs, stage', strike := PreviewRule(lib, sample, output, rules[n], reach, dirs, stages[n]);
      TraceNext(lib, sample, rules, stages, strikes, n, stage', strike);
      reports, stages, strikes := reports + [report], stages + [stage'], strikes + [strike];
    }
    if PrefixFree(rules) {
      PreviewReads(past, lib, sample, rules, output, dirs, stages, strikes);
    }
  }

  lemma StandsAtStart(samples: set<Node>, output: Node, sample: Node)
    requires sample in samples && output !in samples && output.fields == map[] && Closed(samples)
    ensures Stands(Stage(PastOf(samples), map[]), output, sample, map[[] := output])
    ensures PastOf(samples).Keys == samples && Tight(map[[] := output], map[])
  {
    assert PastOf(samples).Keys == samples;
    EmptyOwned(output, samples);
  }

  lemma EmptyOwned(output: Node, foreign: set<Node>)
    requires output !in foreign && output.fields == map[] && Closed(foreign)
    ensures Owned(output, map[[] := output], map[], foreign) && Tight(map[[] := output], map[])
  {
    var dirs: Dirs := map[[] := output];
    assert forall p, s :: Child(p, s) != [];
    assert ContentsOf(dirs) == map[[] := map[]];
  }

  lemma ReachOutput(samples: set<Node>, output: Node)
    requires Closed(samples) && output.fields == map[]
    ensures Closed(samples + {output})
  {
  }

  lemma AllCleanStep(rules: seq<CompiledRule>, n: nat)
    requires n < |rules|
    ensures AllClean(rules, n + 1) <==> AllClean(rules, n) && Clean(TargetPath(rules[n]))
  {
    hide Clean, TargetPath;
  }

  lemma TraceStart(lib: Library, sample: Node, rules: seq<CompiledRule>, stage: Stage)
    ensures IsTrace(lib, sample, rules, [stage], [], 0)
  {
  }

  lemma TraceNext(
    lib: Library, sample: Node, rules: seq<CompiledRule>, stages: seq<Stage>, strikes: seq<Strike>, n: nat,
    stage: Stage, strike: Strike)
    requires n < |rules| && IsTrace(lib, sample, rules, stages, strikes, n) && |stages| == n + 1
    requires Evolves(lib, sample, rules[n], stages[n], stage, strike)
    ensures IsTrace(lib, sample, rules, stages + [stage], strikes + [strike], n + 1)
  {
    hide Evolves;
  }

  lemma OutcomeWithin(few: Past, many: Past, lib: Library, sample: Node, rule: CompiledRule)
    requires forall n :: n in few ==> n in many && many[n] == few[n]
    requires ClosedPast(few, few.Keys) && sample in few
    ensures Find(few, Nested(sample), Segments(rule.rule.sourcePath))
         == Find(many, Nested(sample), Segments(rule.rule.sourcePath))
    ensures Outcome(few, lib, sample, rule) == Outcome(many, lib, sample, rule)
    ensures Outcome(few, lib, sample, rule).Some? && Outcome(few, lib, sample, rule).value.Nested? ==>
      Outcome(few, lib, sample, rule).value.node in few
  {
    FindWithin(few, many, Nested(sample), Segments(rule.rule.sourcePath));
    if v :| Find(few, Nested(sample), Segments(rule.rule.sourcePath)) == Some(v) {
      ApplyMakesNoMaps(lib, rule.transform, v);
    }
  }

  // ---------------------------------------------------------------- when a sample is written

  /** Rule `i` of a run writes into a map of the sample. */
  ghost predicate WritesAt(lib: Library, sample: Node, rules: seq<CompiledRule>, stages: seq<Stage>, i: nat)
    requires i < |rules| && i < |stages|
  {
    && Outcome(stages[i].past, lib, sample, rules[i]).Some?
    && Touches(stages[i].past, stages[i].leaves, TargetPath(rules[i]))
  }

  /** As long as no rule writes into the sample, the stages are the sample as it was and the fold over the rules. */
  lemma {:induction false} UntouchedStages(
    past: Past, lib: Library, sample: Node, rules: seq<CompiledRule>, stages: seq<Stage>, strikes: seq<Strike>, n: nat,
    k: nat)
    requires IsTrace(lib, sample, rules, stages, strikes, n) && stages[0] == Stage(past, map[]) && k <= n
    requires forall j :: 0 <= j < k ==> !TouchesAt(past, lib, sample, rules, j)
    ensures stages[k] == Stage(past, LeavesAfter(past, lib, sample, rules, k))
  {
    hide *;
    if k == 0 {
      NoLeavesYet(past, lib, sample, rules);
    } else {
      TraceAt(lib, sample, rules, stages, strikes, n, k - 1);
      UntouchedStages(past, lib, sample, rules, stages, strikes, n, k - 1);
      UntouchedStep(past, lib, sample, rules, k - 1, stages[k], strikes[k - 1]);
    }
  }

  lemma TraceSize(
    lib: Library, sample: Node, rules: seq<CompiledRule>, stages: seq<Stage>, strikes: seq<Strike>, n: nat)
    requires IsTrace(lib, sample, rules, stages, strikes, n)
    ensures n <= |rules| && |stages| == n + 1 && |strikes| == n
  {
    hide Evolves;
  }

  lemma TraceAt(
    lib: Library, sample: Node, rules: seq<CompiledRule>, stages: seq<Stage>, strikes: seq<Strike>, n: nat, i: nat)
    requires IsTrace(lib, sample, rules, stages, strikes, n) && i < n
    ensures n <= |rules| && |stages| == n + 1 && |strikes| == n
    ensures Evolves(lib, sample, rules[i], stages[i], stages[i + 1], strikes[i])
  {
    hide Evolves;
  }

  lemma UntouchedStep(
    past: Past, lib: Library, sample: Node, rules: seq<CompiledRule>, k: nat, next: Stage, strike: Strike)
    requires k < |rules| && !TouchesAt(past, lib, sample, rules, k)
    requires Evolves(lib, sample, rules[k], Stage(past, LeavesAfter(past, lib, sample, rules, k)), next, strike)
    ensures next == Stage(past, LeavesAfter(past, lib, sample, rules, k + 1))
  {
    hide Outcome, TargetPath, Touches, Struck, Written;
  }

  lemma FirstTouch(past: Past, lib: Library, sample: Node, rules: seq<CompiledRule>, i: nat) returns (j: nat)
    requires i < |rules| && TouchesAt(past, lib, sample, rules, i)
    ensures j <= i && TouchesAt(past, lib, sample, rules, j)
    ensures forall k :: 0 <= k < j ==> !TouchesAt(past, lib, sample, rules, k)
  {
    hide TouchesAt;
    j := 0;
    while !TouchesAt(past, lib, sample, rules, j)
      invariant j <= i && forall k :: 0 <= k < j ==> !TouchesAt(past, lib, sample, rules, k)
      decreases i - j
    {
      j := j + 1;
    }
  }

  /**
   A run writes into the sample if and only if some rule applies to the sample as it was and its target reaches one of
   its maps, given the leaves of the rules before it.
   */
  lemma SampleWrittenExactly(
    past: Past, lib: Library, sample: Node, rules: seq<CompiledRule>, stages: seq<Stage>, strikes: seq<Strike>)
    requires IsTrace(lib, sample, rules, stages, strikes, |rules|) && stages[0] == Stage(past, map[])
    ensures (exists i :: 0 <= i < |rules| && WritesAt(lib, sample, rules, stages, i))
      <==> exists j :: 0 <= j < |rules| && TouchesAt(past, lib, sample, rules, j)
    ensures (forall j :: 0 <= j < |rules| ==> !TouchesAt(past, lib, sample, rules, j)) ==>
      stages[|rules|] == Stage(past, LeavesAfter(past, lib, sample, rules, |rules|))
  {
    if i :| 0 <= i < |rules| && TouchesAt(past, lib, sample, rules, i) {
      var j := FirstTouch(past, lib, sample, rules, i);
      UntouchedStages(past, lib, sample, rules, stages, strikes, |rules|, j);
      assert WritesAt(lib, sample, rules, stages, j) by { hide Outcome, Touches, TargetPath; }
    } else {
      forall i | 0 <= i < |rules| ensures !WritesAt(lib, sample, rules, stages, i) {
        UntouchedStages(past, lib, sample, rules, stages, strikes, |rules|, i);
        assert !TouchesAt(past, lib, sample, rules, i);
        hide Outcome, Touches, TargetPath, LeavesAfter;
      }
      UntouchedStages(past, lib, sample, rules, stages, strikes, |rules|, |rules|);
    }
  }

  /** No map goes, and no entry of one. */
  ghost predicate Grows(a: Past, b: Past) { forall m :: m in a ==> m in b && a[m].Keys <= b[m].Keys }

  lemma EvolvesGrows(lib: Library, sample: Node, rule: CompiledRule, a: Stage, b: Stage, strike: Strike)
    requires Evolves(lib, sample, rule, a, b, strike)
    ensures Grows(a.past, b.past)
  {
    hide Outcome, TargetPath, Touches, Strikes, Written, Chained;
  }

  lemma GrowsTransitive(a: Past, b: Past, c: Past)
    requires Grows(a, b) && Grows(b, c)
    ensures Grows(a, c)
  {
  }

  lemma GrowsItself(a: Past)
    ensures Grows(a, a)
  {
  }

  /** No entry of a map is ever taken out, so what a write put under a key that was free is there at the end. */
  lemma {:induction false} EntriesStay(
    lib: Library, sample: Node, rules: seq<CompiledRule>, stages: seq<Stage>, strikes: seq<Strike>, n: nat, i: nat,
    k: nat)
    requires IsTrace(lib, sample, rules, stages, strikes, n) && i <= k <= n
    ensures Grows(stages[i].past, stages[k].past)
  {
    hide *;
    TraceSize(lib, sample, rules, stages, strikes, n);
    if i == k {
      GrowsItself(stages[i].past);
    } else {
      TraceAt(lib, sample, rules, stages, strikes, n, k - 1);
      EntriesStay(lib, sample, rules, stages, strikes, n, i, k - 1);
      EvolvesGrows(lib, sample, rules[k - 1], stages[k - 1], stages[k], strikes[k - 1]);
      GrowsTransitive(stages[i].past, stages[k - 1].past, stages[k].past);
    }
  }

  // ---------------------------------------------------------------- what a preview shows

  lemma LeavesAreClean(past: Past, lib: Library, sample: Node, rules: seq<CompiledRule>, leaves: Leaves)
    requires PrefixFree(rules) && LeavesOf(past, lib, sample, rules, |rules|, leaves)
    ensures CleanLeaves(leaves)
  {
    hide TargetPath, Outcome;
    forall p | p in leaves ensures Clean(p) {
      var i :| 0 <= i < |rules| && TargetPath(rules[i]) == p && Outcome(past, lib, sample, rules[i]).Some?;
    }
  }

  lemma {:induction false} LeavesAfterClean(past: Past, lib: Library, sample: Node, rules: seq<CompiledRule>, n: nat)
    requires n <= |rules|
    ensures CleanLeaves(LeavesAfter(past, lib, sample, rules, n))
  {
    hide Written, TargetPath, Outcome, CleanLeaves;
    if n == 0 {
      WrittenClean(map[], ["a"], Nil);
    } else {
      LeavesAfterClean(past, lib, sample, rules, n - 1);
      WrittenClean(LeavesAfter(past, lib, sample, rules, n - 1), TargetPath(rules[n - 1]),
                   Produced(past, lib, sample, rules[n - 1]));
    }
  }

  lemma WrittenClean(leaves: Leaves, t: Path, value: Value)
    requires t != []
    ensures CleanLeaves(map[]) && (CleanLeaves(leaves) ==> CleanLeaves(Written(leaves, t, value)))
  {
    hide Clean, MeetsUpTo;
  }

  /** Looking up a leaf that the writes left gives its value, whatever the targets: of overlapping ones the later. */
  lemma LeavesRead(
    past: Past, now: Past, lib: Library, sample: Node, rules: seq<CompiledRule>, dirs: Dirs, p: Path)
    requires Shape(dirs, LeavesAfter(past, lib, sample, rules, |rules|)) && Holds(now, dirs)
    requires p in LeavesAfter(past, lib, sample, rules, |rules|)
    ensures Find(now, Nested(dirs[[]]), p) == Some(LeavesAfter(past, lib, sample, rules, |rules|)[p])
  {
    LeavesAfterClean(past, lib, sample, rules, |rules|);
    hide LeavesAfter, Shape;
    FindLeaf(now, dirs, LeavesAfter(past, lib, sample, rules, |rules|), p);
  }

  /** Looking up each applied target in the output gives its transformed value. */
  lemma AppliedTargetsRead(
    past: Past, now: Past, lib: Library, sample: Node, rules: seq<CompiledRule>, dirs: Dirs, leaves: Leaves, i: nat)
    requires PrefixFree(rules) && LeavesOf(past, lib, sample, rules, |rules|, leaves)
    requires Shape(dirs, leaves) && Holds(now, dirs)
    requires i < |rules| && Outcome(past, lib, sample, rules[i]).Some?
    ensures Find(now, Nested(dirs[[]]), TargetPath(rules[i])) == Outcome(past, lib, sample, rules[i])
  {
    LeavesAreClean(past, lib, sample, rules, leaves);
    hide Shape, Outcome, TargetPath;
    FindLeaf(now, dirs, leaves, TargetPath(rules[i]));
  }

  /** Off the leaves and the inner maps there is nothing to find. */
  lemma {:induction false} FindNothing(past: Past, dirs: Dirs, leaves: Leaves, p: Path)
    requires Shape(dirs, leaves) && Tight(dirs, leaves) && Holds(past, dirs) && CleanLeaves(leaves)
    requires p !in dirs && forall q :: q in leaves ==> !(q <= p)
    ensures Find(past, Nested(dirs[[]]), p) == None
  {
    var q, s := p[..|p| - 1], p[|p| - 1];
    ChildSplits(p);
    if q in dirs {
      InnerIsClean(dirs, leaves, q);
      FindDir(past, dirs, leaves, q);
      assert SlotRight(dirs, ContentsOf(dirs), leaves, q, s);
    } else {
      FindNothing(past, dirs, leaves, q);
    }
  }

  lemma UnappliedTargetsMissing(
    past: Past, now: Past, lib: Library, sample: Node, rules: seq<CompiledRule>, dirs: Dirs, leaves: Leaves, i: nat)
    requires PrefixFree(rules) && LeavesOf(past, lib, sample, rules, |rules|, leaves)
    requires Shape(dirs, leaves) && Tight(dirs, leaves) && Holds(now, dirs)
    requires i < |rules| && Outcome(past, lib, sample, rules[i]).None?
    ensures Find(now, Nested(dirs[[]]), TargetPath(rules[i])) == None
  {
    LeavesAreClean(past, lib, sample, rules, leaves);
    hide Shape, Outcome, TargetPath, Holds, Find;
    var p := TargetPath(rules[i]);
    forall q | q in leaves ensures !(q <= p) && !(p <= q) {
      var j :| 0 <= j < |rules| && TargetPath(rules[j]) == q && Outcome(past, lib, sample, rules[j]).Some?;
    }
    FindNothing(now, dirs, leaves, p);
  }

  /**
   What is to be found at a rule's target: the meaning of its transform for what the sample held at its source; and
   nothing, if the sample held nothing there or the transform can make nothing of it.
   */
  ghost predicate ReadsTransformed(
    past: Past, now: Past, lib: Library, sample: Node, output: Node, rule: CompiledRule)
  {
    var value := Find(past, Nested(sample), Segments(rule.rule.sourcePath));
    match Find(now, Nested(output), Segments(rule.rule.targetPath))
    case Some(result) => value.Some? && Means(lib, rule.transform, value.value, result)
    case None => value.None? || Fails(lib, rule.transform, value.value)
  }

  lemma TargetsReadExactly(
    past: Past, now: Past, lib: Library, sample: Node, rules: seq<CompiledRule>, dirs: Dirs, leaves: Leaves, i: nat)
    requires PrefixFree(rules) && LeavesOf(past, lib, sample, rules, |rules|, leaves)
    requires Shape(dirs, leaves) && Tight(dirs, leaves) && Holds(now, dirs) && i < |rules|
    ensures ReadsTransformed(past, now, lib, sample, dirs[[]], rules[i])
  {
    hide PrefixFree, LeavesOf, Shape, Tight, Holds, Segments, Find, Apply, Means, Fails;
    var rule := rules[i];
    if Outcome(past, lib, sample, rule).Some? {
      AppliedTargetsRead(past, now, lib, sample, rules, dirs, leaves, i);
    } else {
      UnappliedTargetsMissing(past, now, lib, sample, rules, dirs, leaves, i);
    }
    var value := Find(past, Nested(sample), Segments(rule.rule.sourcePath));
    if value.Some? {
      FailsExactly(lib, rule.transform, value.value);
      if Apply(lib, rule.transform, value.value).Some? {
        AppliesExactly(lib, rule.transform, value.value, Apply(lib, rule.transform, value.value).value);
      }
    }
  }

  lemma PreviewReads(
    past: Past, lib: Library, sample: Node, rules: seq<CompiledRule>, output: Node, dirs: Dirs, stages: seq<Stage>,
    strikes: seq<Strike>)
    requires PrefixFree(rules) && IsTrace(lib, sample, rules, stages, strikes, |rules|)
    requires |stages| == |rules| + 1 && stages[0] == Stage(past, map[])
    requires Stands(stages[|rules|], output, sample, dirs)
    requires AllClean(rules, |rules|) ==> Tight(dirs, stages[|rules|].leaves)
    ensures forall i :: 0 <= i < |rules| ==>
      ReadsTransformed(past, PastOf(past.Keys + dirs.Values), lib, sample, output, rules[i])
  {
    var now := PastOf(past.Keys + dirs.Values);
    assert Holds(now, dirs);
    hide *;
    PrefixFreeStages(past, lib, sample, rules, stages, strikes);
    StandsCloses(stages[|rules|], output, sample, dirs);
    forall i | 0 <= i < |rules| ensures ReadsTransformed(past, now, lib, sample, output, rules[i]) {
      TargetsReadExactly(past, now, lib, sample, rules, dirs, stages[|rules|].leaves, i);
    }
  }

  /** Every order of the rules builds an output that reads the same at every path. */
  lemma OutputIsOrderFree(
    past: Past, now: Past, lib: Library, sample: Node, one: seq<CompiledRule>, two: seq<CompiledRule>,
    dirs1: Dirs, leaves1: Leaves, dirs2: Dirs, leaves2: Leaves, p: Path)
    requires multiset(one) == multiset(two) && PrefixFree(one)
    requires LeavesOf(past, lib, sample, one, |one|, leaves1) && LeavesOf(past, lib, sample, two, |two|, leaves2)
    requires Shape(dirs1, leaves1) && Tight(dirs1, leaves1) && Holds(now, dirs1)
    requires Shape(dirs2, leaves2) && Tight(dirs2, leaves2) && Holds(now, dirs2)
    ensures leaves1 == leaves2
    ensures p in dirs1 <==> p in dirs2
    ensures p !in dirs1 ==> Find(now, Nested(dirs1[[]]), p) == Find(now, Nested(dirs2[[]]), p)
  {
    LeavesOrderFree(past, lib, sample, one, two, leaves1, leaves2);
    LeavesAreClean(past, lib, sample, one, leaves1);
    SameLeavesReadSame(now, dirs1, dirs2, leaves1, p);
  }

  /** Prefix-freedom in terms of the rules rather than their places. */
  lemma PrefixFreeMeans(rules: seq<CompiledRule>)
    ensures PrefixFree(rules) <==>
      && (forall r :: r in rules ==> Clean(TargetPath(r)))
      && Sorting.Distinct(Sorting.Map(TargetPath, rules))
      && (forall a, b :: a in rules && b in rules && TargetPath(a) <= TargetPath(b) ==> TargetPath(a) == TargetPath(b))
  {
    hide TargetPath, Clean;
    var targets := Sorting.Map(TargetPath, rules);
    assert forall i :: 0 <= i < |rules| ==> rules[i] in rules && targets[i] == TargetPath(rules[i]);
    if PrefixFree(rules) {
      forall a, b | a in rules && b in rules && TargetPath(a) <= TargetPath(b) ensures TargetPath(a) == TargetPath(b) {
        var i :| 0 <= i < |rules| && rules[i] == a;
        var j :| 0 <= j < |rules| && rules[j] == b;
      }
      forall i, j | 0 <= i < j < |targets| ensures targets[i] != targets[j] {
        assert !(TargetPath(rules[i]) <= TargetPath(rules[j]));
      }
    }
  }

  lemma PermutationKeepsPrefixFree(one: seq<CompiledRule>, two: seq<CompiledRule>)
    requires multiset(one) == multiset(two) && PrefixFree(one)
    ensures PrefixFree(two)
  {
    PrefixFreeMeans(one);
    PrefixFreeMeans(two);
    hide PrefixFree, TargetPath, Clean, Sorting.Map, Sorting.Distinct;
    Sorting.PermutationKeepsElements(one, two);
    Sorting.MapPermutes(TargetPath, one, two);
    Sorting.PermutationKeepsDistinct(Sorting.Map(TargetPath, one), Sorting.Map(TargetPath, two));
  }

  /** With prefix-free targets a run ends with the sample as it was and the applied targets as leaves. */
  lemma PrefixFreeStages(
    past: Past, lib: Library, sample: Node, rules: seq<CompiledRule>, stages: seq<Stage>, strikes: seq<Strike>)
    requires PrefixFree(rules) && IsTrace(lib, sample, rules, stages, strikes, |rules|)
    requires stages[0] == Stage(past, map[])
    ensures stages[|rules|].past == past && AllClean(rules, |rules|)
    ensures LeavesOf(past, lib, sample, rules, |rules|, stages[|rules|].leaves)
  {
    PrefixFreeTouchesNothing(past, lib, sample, rules, |rules|);
    hide TouchesAt, LeavesOf, TargetPath, Clean, IsTrace;
    UntouchedStages(past, lib, sample, rules, stages, strikes, |rules|, |rules|);
  }

  /** The two outputs, read in the same heap, are the same at every path. */
  ghost predicate ReadAlike(now: Past, one: Dirs, two: Dirs) {
    && [] in one && [] in two
    && forall p: Path :: (p in one <==> p in two)
         && (p !in one ==> Find(now, Nested(one[[]]), p) == Find(now, Nested(two[[]]), p))
  }

  /**
   Previewing a sample with the rules in one order and then in another: with prefix-free targets neither writes into
   the sample, and the two outputs read the same.
   */
  method PreviewBothOrders(
    lib: Library, sample: Node, one: seq<CompiledRule>, two: seq<CompiledRule>, ghost samples: set<Node>)
    returns (first: Node, second: Node, ghost dirs1: Dirs, ghost dirs2: Dirs)
    requires sample in samples && Closed(samples) && multiset(one) == multiset(two)
    modifies samples
    ensures PrefixFree(one) ==>
      && (forall n :: n in samples ==> n.fields == old(n.fields))
      && ReadAlike(PastOf(samples + dirs1.Values + dirs2.Values), dirs1, dirs2)
      && dirs1[[]] == first && dirs2[[]] == second
  {
    hide *;
    ghost var past := PastOf(samples);
    PastMeans(samples);
    var reports;
    ghost var stages1, strikes1, stages2, strikes2;
    first, reports, dirs1, stages1, strikes1 := PreviewRecord(lib, sample, one, samples);
    ghost var now := stages1[|one|];
    StandsCloses(now, first, sample, dirs1);
    StagesKeep(lib, sample, one, stages1, strikes1);
    second, reports, dirs2, stages2, strikes2 := PreviewRecord(lib, sample, two, now.past.Keys);
    if PrefixFree(one) {
      PermutationKeepsPrefixFree(one, two);
      PrefixFreeStages(past, lib, sample, one, stages1, strikes1);
      PrefixFreeStages(now.past, lib, sample, two, stages2, strikes2);
      AtStage(stages2[|two|], second, sample, dirs2);
      StandsCloses(stages2[|two|], second, sample, dirs2);
      BothOrders(past, lib, sample, one, two, first, second, dirs1, now.leaves, dirs2, stages2[|two|].leaves);
    }
  }

  /** What is at a stage can be previewed again. */
  lemma StandsCloses(stage: Stage, output: Node, sample: Node, dirs: Dirs)
    requires Stands(stage, output, sample, dirs)
    ensures sample in stage.past && Closed(stage.past.Keys) && PastOf(stage.past.Keys) == stage.past
    ensures Shape(dirs, stage.leaves) && [] in dirs && dirs[[]] == output && dirs.Values !! stage.past.Keys
  {
    hide SlotRight;
  }

  lemma StagesKeep(
    lib: Library, sample: Node, rules: seq<CompiledRule>, stages: seq<Stage>, strikes: seq<Strike>)
    requires IsTrace(lib, sample, rules, stages, strikes, |rules|)
    ensures stages[0].past.Keys <= stages[|rules|].past.Keys
  {
    EntriesStay(lib, sample, rules, stages, strikes, |rules|, 0, |rules|);
  }

  lemma BothOrders(
    past: Past, lib: Library, sample: Node, one: seq<CompiledRule>, two: seq<CompiledRule>, first: Node, second: Node,
    dirs1: Dirs, leaves1: Leaves, dirs2: Dirs, leaves2: Leaves)
    requires multiset(one) == multiset(two) && PrefixFree(one)
    requires LeavesOf(past, lib, sample, one, |one|, leaves1) && LeavesOf(past, lib, sample, two, |two|, leaves2)
    requires Shape(dirs1, leaves1) && Tight(dirs1, leaves1) && Shape(dirs2, leaves2) && Tight(dirs2, leaves2)
    ensures ReadAlike(PastOf(past.Keys + dirs1.Values + dirs2.Values), dirs1, dirs2)
  {
    var now := PastOf(past.Keys + dirs1.Values + dirs2.Values);
    assert Holds(now, dirs1) && Holds(now, dirs2);
    assert [] in dirs1 && [] in dirs2;
    hide Shape, Tight, LeavesOf, PrefixFree, Holds, Find;
    forall p: Path
      ensures (p in dirs1 <==> p in dirs2)
      ensures p !in dirs1 ==> Find(now, Nested(dirs1[[]]), p) == Find(now, Nested(dirs2[[]]), p)
    {
      OutputIsOrderFree(past, now, lib, sample, one, two, dirs1, leaves1, dirs2, leaves2, p);
    }
  }

  /**
   Type soundness in a preview: on a sample whose value at the source path has the declared type, a rule of an
   accepted spec with both types declared applies and gives the target type, or fails on an unparsable string.
   */
  lemma PreviewIsTypeSound(
    lib: Library, other: (FieldType, Value) -> bool, req: Prepared, past: Past, sample: Node, rule: CompiledRule)
    requires Lawful(lib) && Accepted(lib, req) && rule in CompiledRules(lib, req)
    requires !rule.sourceType.Blank? && !rule.targetType.Blank?
    requires Find(past, Nested(sample), Segments(rule.rule.sourcePath)).Some?
    requires HasType(lib, other, Find(past, Nested(sample), Segments(rule.rule.sourcePath)).value, rule.sourceType)
    ensures match Outcome(past, lib, sample, rule)
      case Some(result) => HasType(lib, other, result, rule.targetType)
      case None => Unparsable(lib, rule.transform, Find(past, Nested(sample), Segments(rule.rule.sourcePath)).value)
  {
    var fields := req.source.value;
    var all := CompileAll(lib, fields, req.rules);
    Sorting.SortPermutes(all, Before);
    assert rule in multiset(Sorting.Sort(all, Before));
    var i :| 0 <= i < |all| && all[i] == rule;
    assert req.rules[i] in req.rules;
    assert RuleAccepted(lib, fields, req.rules[i]);
    hide Sorting.Sort, Compatible, HasType, Apply, Unparsable, Find, Segments;
    TypeSoundness(lib, other, rule.sourceType, rule.targetType, rule.transform,
                  Find(past, Nested(sample), Segments(rule.rule.sourcePath)).value);
  }

  // ---------------------------------------------------------------- overlapping targets

  function Plain(source: string, target: string): CompiledRule {
    CompiledRule(Rule("", source, target, "identity", map[], ""), Blank, Blank, Identity)
  }

  /** One rule hands the nested map under "m" on as "a"; the other writes below "a". */
  const OVERLAP := [Plain("m", "a"), Plain("s", "a.b")]

  lemma OneSegment(s: string)
    requires s in ["a", "m", "s"]
    ensures Segments(s) == [s]
  {
    assert Trim(s) == s;
    SplitWithout(s, '.');
  }

  lemma TwoSegments()
    ensures Segments("a.b") == ["a", "b"]
  {
    assert Trim("a.b") == "a.b" && Trim("a") == "a" && Trim("b") == "b";
    assert "a.b" == "a" + ['.'] + "b";
    SplitSnoc("a", "b", '.');
    SplitWithout("a", '.');
  }

  lemma OverlapPaths()
    ensures |OVERLAP| == 2 && TargetPath(OVERLAP[0]) == ["a"] && TargetPath(OVERLAP[1]) == ["a", "b"]
    ensures Segments(OVERLAP[0].rule.sourcePath) == ["m"] && Segments(OVERLAP[1].rule.sourcePath) == ["s"]
  {
    OneSegment("a");
    OneSegment("m");
    OneSegment("s");
    TwoSegments();
    hide Segments;
  }

  lemma FindOne(past: Past, sample: Node, s: string)
    requires sample in past && s != "" && s in past[sample]
    ensures Find(past, Nested(sample), [s]) == Some(past[sample][s])
  {
    assert [s][..0] == [];
    assert Find(past, Nested(sample), [s][..0]) == Some(Nested(sample));
  }

  /** On every sample with a nested map under "m" and something under "s", the second rule reaches that map. */
  lemma OverlapTouches(lib: Library, past: Past, sample: Node, inner: Node)
    requires sample in past && "m" in past[sample] && past[sample]["m"] == Nested(inner) && "s" in past[sample]
    ensures !TouchesAt(past, lib, sample, OVERLAP, 0) && TouchesAt(past, lib, sample, OVERLAP, 1)
    ensures LeavesAfter(past, lib, sample, OVERLAP, 1) == map[["a"] := Nested(inner)]
    ensures Produced(past, lib, sample, OVERLAP[1]) == past[sample]["s"]
  {
    OverlapPaths();
    FindOne(past, sample, "m");
    FindOne(past, sample, "s");
    assert Outcome(past, lib, sample, OVERLAP[0]) == Some(Nested(inner));
    assert Outcome(past, lib, sample, OVERLAP[1]) == Some(past[sample]["s"]);
    hide TargetPath, Outcome, Find;
    Unrelated(past, map[], ["a"], Nested(inner));
    assert LeavesAfter(past, lib, sample, OVERLAP, 0) == map[];
    assert ["a", "b"][..1] == ["a"] && WalkEnd(["a", "b"]) == 1;
  }

  /** The entry that the second rule makes is "b" in the nested map itself, with nothing hung under it. */
  lemma OverlapStrike(past: Past, after: Past, inner: Node, value: Value, write: Write, chain: seq<Node>)
    requires Struck(past, after, map[["a"] := Nested(inner)], ["a", "b"], value, write, chain)
    ensures inner in past && after == past[inner := past[inner]["b" := value]]
  {
    var t: Path := ["a", "b"];
    assert t[..write.met] in {["a"]};
    assert |t[..write.met]| == write.met == 1;
    assert t[1..1] == [];
    assert WalkEnd(t) == 1;
    assert chain == [];
    hide Find, Chained;
  }

  /** Overlapping targets do write into the sample, on every sample of that form: a preview leaves its entry there. */
  method OverlapWritesSample(lib: Library, sample: Node, inner: Node, ghost samples: set<Node>) returns (output: Node)
    requires sample in samples && inner in samples && Closed(samples)
    requires "m" in sample.fields && sample.fields["m"] == Nested(inner) && "s" in sample.fields
    modifies samples
    ensures inner.fields == old(inner.fields)["b" := old(sample.fields["s"])]
    ensures forall n :: n in samples && n != inner ==> n.fields == old(n.fields)
  {
    hide *;
    ghost var past := PastOf(samples);
    PastMeans(samples);
    OverlapPaths();
    var reports;
    ghost var dirs, stages, strikes;
    output, reports, dirs, stages, strikes := PreviewRecord(lib, sample, OVERLAP, samples);
    OverlapStages(lib, past, sample, inner, stages, strikes);
    AtStage(stages[2], output, sample, dirs);
  }

  lemma PastMeans(nodes: set<Node>)
    ensures PastOf(nodes).Keys == nodes && forall n :: n in nodes ==> PastOf(nodes)[n] == n.fields
  {
  }

  lemma AtStage(stage: Stage, output: Node, sample: Node, dirs: Dirs)
    requires Stands(stage, output, sample, dirs)
    ensures forall n :: n in stage.past ==> n.fields == stage.past[n]
  {
    hide Owned;
    PastMeans(stage.past.Keys);
  }

  lemma OverlapStages(
    lib: Library, past: Past, sample: Node, inner: Node, stages: seq<Stage>, strikes: seq<Strike>)
    requires sample in past && "m" in past[sample] && past[sample]["m"] == Nested(inner) && "s" in past[sample]
    requires IsTrace(lib, sample, OVERLAP, stages, strikes, |OVERLAP|) && stages[0] == Stage(past, map[])
    ensures |stages| == 3 && inner in past
    ensures stages[2].past == past[inner := past[inner]["b" := past[sample]["s"]]]
  {
    hide *;
    OverlapTouches(lib, past, sample, inner);
    OverlapPaths();
    TraceAt(lib, sample, OVERLAP, stages, strikes, 2, 1);
    UntouchedStages(past, lib, sample, OVERLAP, stages, strikes, 2, 1);
    TouchStrikes(past, lib, sample, OVERLAP, 1, stages[2], strikes[1]);
    OverlapStrike(past, stages[2].past, inner, past[sample]["s"], strikes[1].write, strikes[1].chain);
  }

  /** The first rule that reaches the sample makes its entry there. */
  lemma TouchStrikes(
    past: Past, lib: Library, sample: Node, rules: seq<CompiledRule>, j: nat, next: Stage, strike: Strike)
    requires j < |rules| && TouchesAt(past, lib, sample, rules, j)
    requires Evolves(lib, sample, rules[j], Stage(past, LeavesAfter(past, lib, sample, rules, j)), next, strike)
    ensures next.leaves == LeavesAfter(past, lib, sample, rules, j)
    ensures Struck(past, next.past, LeavesAfter(past, lib, sample, rules, j), TargetPath(rules[j]),
                   Produced(past, lib, sample, rules[j]), strike.write, strike.chain)
  {
    hide Outcome, TargetPath, Touches, Struck, Written, LeavesAfter;
  }
}
