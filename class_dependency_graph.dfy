/**
 * `ClassDependencyGraph`: for every class, the classes it depends on (split into internal
 * and exposed uses), and the reverse map of dependants built from it.
 */
module DependencyGraph {
  import opened Wrappers
  import opened Abi

  /** The classes one class uses internally and in its ABI. */
  datatype ClassDependency = ClassDependency(internal: set<ClassName>, exposed: set<ClassName>)

  /** `ClassDependency.all`. */
  function All(d: ClassDependency): (r: set<ClassName>)
    ensures forall c :: c in r <==> c in d.internal || c in d.exposed
    ensures d.internal <= r && d.exposed <= r
  {
    d.internal + d.exposed
  }

  /** `adjacencyMap` states on which classes a class depends. */
  datatype ClassDependencyGraph = ClassDependencyGraph(adjacencyMap: map<ClassName, ClassDependency>)

  // ---------------------------------------------------------------- the reverse map, specified

  /** The classes among `keys` that use `d` internally. */
  function InternalDependants(adj: map<ClassName, ClassDependency>, keys: set<ClassName>, d: ClassName): set<ClassName>
    requires keys <= adj.Keys
  {
    set c | c in keys && d in adj[c].internal
  }

  /** The classes among `keys` that expose `d`. */
  function ExposedDependants(adj: map<ClassName, ClassDependency>, keys: set<ClassName>, d: ClassName): set<ClassName>
    requires keys <= adj.Keys
  {
    set c | c in keys && d in adj[c].exposed
  }

  /** Every class some class among `keys` depends on. */
  function Targets(adj: map<ClassName, ClassDependency>, keys: set<ClassName>): set<ClassName>
    requires keys <= adj.Keys
  {
    set c, d | c in keys && d in All(adj[c]) :: d
  }

  /** The reverse of the adjacency entries of `keys`: for each dependency, who uses it and how. */
  function PartialReverse(adj: map<ClassName, ClassDependency>, keys: set<ClassName>): map<ClassName, ClassDependency>
    requires keys <= adj.Keys
  {
    map d | d in Targets(adj, keys) :: ClassDependency(InternalDependants(adj, keys, d), ExposedDependants(adj, keys, d))
  }

  /** `reverseAdjacencyMap`. */
  function ReverseOf(adj: map<ClassName, ClassDependency>): map<ClassName, ClassDependency> {
    PartialReverse(adj, adj.Keys)
  }

  lemma TargetsMembership(adj: map<ClassName, ClassDependency>, keys: set<ClassName>, d: ClassName)
    requires keys <= adj.Keys
    ensures d in Targets(adj, keys) <==> exists c :: c in keys && d in All(adj[c])
  {
    if exists c :: c in keys && d in All(adj[c]) {
      var c :| c in keys && d in All(adj[c]);
      assert d in Targets(adj, keys);
    }
  }

  // ---------------------------------------------------------------- the reverse map, built

  /** `getOrPut(dep) { empty to empty }`: the entry of `dep`, or an empty pair. */
  function EntryOrEmpty(r: map<ClassName, ClassDependency>, dep: ClassName): ClassDependency {
    if dep in r then r[dep] else ClassDependency({}, {})
  }

  /** The reverse entries of `done + {c}` are those of `done` with `c` added where it uses the dependency. */
  lemma PartialReverseStep(adj: map<ClassName, ClassDependency>, done: set<ClassName>, c: ClassName, d: ClassName)
    requires done <= adj.Keys && c in adj && c !in done
    ensures InternalDependants(adj, done + {c}, d) ==
      InternalDependants(adj, done, d) + (if d in adj[c].internal then {c} else {})
    ensures ExposedDependants(adj, done + {c}, d) ==
      ExposedDependants(adj, done, d) + (if d in adj[c].exposed then {c} else {})
    ensures d in Targets(adj, done + {c}) <==> d in Targets(adj, done) || d in All(adj[c])
    ensures d !in Targets(adj, done) ==> InternalDependants(adj, done, d) == {} && ExposedDependants(adj, done, d) == {}
  {
    TargetsMembership(adj, done, d);
    TargetsMembership(adj, done + {c}, d);
  }

  /** The first inner loop of `reverseAdjacencyMap`: `className` joins the internal dependants of each of `deps`. */
  method AddInternalDependant(r: map<ClassName, ClassDependency>, className: ClassName, deps: set<ClassName>)
    returns (r': map<ClassName, ClassDependency>)
    ensures r'.Keys == r.Keys + deps
    ensures forall d :: d in r' ==>
      r'[d] == ClassDependency(EntryOrEmpty(r, d).internal + (if d in deps then {className} else {}), EntryOrEmpty(r, d).exposed)
  {
    r' := r;
    var todo := deps;
    while todo != {}
      invariant todo <= deps
      invariant r'.Keys == r.Keys + (deps - todo)
      invariant forall d :: d in r' ==>
        r'[d] == ClassDependency(EntryOrEmpty(r, d).internal + (if d in deps - todo then {className} else {}), EntryOrEmpty(r, d).exposed)
      decreases todo
    {
      var dep :| dep in todo;
      var entry := EntryOrEmpty(r', dep);
      r' := r'[dep := entry.(internal := entry.internal + {className})];
      todo := todo - {dep};
    }
  }

  /** The second inner loop of `reverseAdjacencyMap`: `className` joins the exposed dependants of each of `deps`. */
  method AddExposedDependant(r: map<ClassName, ClassDependency>, className: ClassName, deps: set<ClassName>)
    returns (r': map<ClassName, ClassDependency>)
    ensures r'.Keys == r.Keys + deps
    ensures forall d :: d in r' ==>
      r'[d] == ClassDependency(EntryOrEmpty(r, d).internal, EntryOrEmpty(r, d).exposed + (if d in deps then {className} else {}))
  {
    r' := r;
    var todo := deps;
    while todo != {}
      invariant todo <= deps
      invariant r'.Keys == r.Keys + (deps - todo)
      invariant forall d :: d in r' ==>
        r'[d] == ClassDependency(EntryOrEmpty(r, d).internal, EntryOrEmpty(r, d).exposed + (if d in deps - todo then {className} else {}))
      decreases todo
    {
      var dep :| dep in todo;
      var entry := EntryOrEmpty(r', dep);
      r' := r'[dep := entry.(exposed := entry.exposed + {className})];
      todo := todo - {dep};
    }
  }

  /** `reverseAdjacencyMap`, built by visiting the adjacency entries one by one. */
  method BuildReverse(adj: map<ClassName, ClassDependency>) returns (r: map<ClassName, ClassDependency>)
    ensures r == ReverseOf(adj)
  {
    r := map[];
    var done: set<ClassName> := {};
    while adj.Keys - done != {}
      invariant done <= adj.Keys
      invariant r == PartialReverse(adj, done)
      decreases adj.Keys - done
    {
      var className :| className in adj.Keys - done;
      var withInternal := AddInternalDependant(r, className, adj[className].internal);
      var r' := AddExposedDependant(withInternal, className, adj[className].exposed);
      forall d ensures d in r' <==> d in PartialReverse(adj, done + {className}) {
        PartialReverseStep(adj, done, className, d);
      }
      forall d | d in r' ensures r'[d] == PartialReverse(adj, done + {className})[d] {
        PartialReverseStep(adj, done, className, d);
        assert EntryOrEmpty(withInternal, d).exposed == EntryOrEmpty(r, d).exposed;
      }
      r := r';
      done := done + {className};
    }
    forall k | k in adj.Keys ensures k in done {
      assert k !in adj.Keys - done;
    }
    assert done == adj.Keys;
  }

  // ---------------------------------------------------------------- lookups

  /** `dependenciesOf`: the adjacency entry, `null` for an unknown class. */
  function DependenciesOf(g: ClassDependencyGraph, className: ClassName): (r: Option<ClassDependency>)
    ensures r.Some? <==> className in g.adjacencyMap
    ensures r.Some? ==> r.value == g.adjacencyMap[className]
  {
    if className in g.adjacencyMap then Some(g.adjacencyMap[className]) else None
  }

  /** `dependantsOf`: the reverse entry, `null` when nothing depends on the class. */
  function DependantsOf(g: ClassDependencyGraph, className: ClassName): Option<ClassDependency> {
    var rev := ReverseOf(g.adjacencyMap);
    if className in rev then Some(rev[className]) else None
  }

  /** `fromAbiMap`: each class depends on the internal and exposed sets of its ABI. */
  function FromAbiMap(abiMap: map<ClassName, ClassAbi>): (g: ClassDependencyGraph)
    ensures g.adjacencyMap.Keys == abiMap.Keys
    ensures forall c :: c in abiMap ==>
      g.adjacencyMap[c].internal == abiMap[c].internal && g.adjacencyMap[c].exposed == abiMap[c].exposed
  {
    ClassDependencyGraph(map c | c in abiMap :: ClassDependency(abiMap[c].internal, abiMap[c].exposed))
  }

  /** A class is an internal dependant of `d` exactly when `d` is among its internal dependencies; likewise for exposed. */
  lemma DependantsAreReverseDependencies(g: ClassDependencyGraph, c: ClassName, d: ClassName)
    ensures (DependantsOf(g, d).Some? && c in DependantsOf(g, d).value.internal) <==>
            (DependenciesOf(g, c).Some? && d in DependenciesOf(g, c).value.internal)
    ensures (DependantsOf(g, d).Some? && c in DependantsOf(g, d).value.exposed) <==>
            (DependenciesOf(g, c).Some? && d in DependenciesOf(g, c).value.exposed)
  {
    var adj := g.adjacencyMap;
    TargetsMembership(adj, adj.Keys, d);
    if c in adj && d in All(adj[c]) {
      assert d in Targets(adj, adj.Keys);
    }
  }

  /** `dependantsOf(d)` is non-null exactly when some class depends on `d`. */
  lemma DependantsDefinedIffUsed(g: ClassDependencyGraph, d: ClassName)
    ensures DependantsOf(g, d).Some? <==> exists c :: c in g.adjacencyMap && d in All(g.adjacencyMap[c])
  {
    TargetsMembership(g.adjacencyMap, g.adjacencyMap.Keys, d);
  }

  /** A non-null `dependantsOf` entry is never empty: its class is used by someone. */
  lemma DependantsEntryNotEmpty(g: ClassDependencyGraph, d: ClassName)
    requires DependantsOf(g, d).Some?
    ensures All(DependantsOf(g, d).value) != {}
  {
    var adj := g.adjacencyMap;
    TargetsMembership(adj, adj.Keys, d);
    var c :| c in adj && d in All(adj[c]);
    assert c in All(DependantsOf(g, d).value);
  }

  /** The reverse map may have keys the adjacency map lacks: a dependency that is not itself a known class. */
  lemma ReverseKeysNeedNotBeClasses()
    ensures var g := ClassDependencyGraph(map["A" := ClassDependency({"B"}, {})]);
      DependantsOf(g, "B").Some? && DependenciesOf(g, "B").None?
  {
    var g := ClassDependencyGraph(map["A" := ClassDependency({"B"}, {})]);
    assert "B" in All(g.adjacencyMap["A"]);
    DependantsDefinedIffUsed(g, "B");
  }
}
