/**
 * The Java instance of the stateful pipeline: metadata that records, per source, the sources
 * it depends on and the reverse map of dependants; a source reader that picks stale sources
 * and their dependants; and the adapter that turns javac's diagnostics into per-unit results.
 *
 * The file system (listing, lookups and modification times), the parser and javac are inputs.
 */
module JavaIncrementalCompilation {
  import Wrappers
  import opened CompilationPipeline

  type RelativeSourcePath = string

  /** `IncrementalCompilationMetadata`; `sourceFileAstHash` is carried along unused. */
  datatype Metadata = Metadata(lastCompileTime: int,
                               dependencies: map<RelativeSourcePath, set<RelativeSourcePath>>,
                               dependants: map<RelativeSourcePath, set<RelativeSourcePath>>,
                               sourceFileAstHash: map<string, string>)

  /** `JavaCompilationUnit`: the path in the source set, the source file, and the class file if it exists. */
  datatype JavaCompilationUnit = JavaCompilationUnit(pathInSourceSet: RelativeSourcePath, sourceFile: string,
                                                     classFile: Wrappers.Option<string>)

  /**
   * `JavaCompilationContext`: the current time, and the source set as seen from the file
   * system: its listing, `findSingle`, file modification times, and the order in which a
   * stored set of dependants is iterated.
   */
  datatype JavaCompilationContext = JavaCompilationContext(
    currentTime: int,
    sourceFiles: seq<JavaCompilationUnit>,
    findSingle: RelativeSourcePath -> Wrappers.Option<JavaCompilationUnit>,
    lastModified: string -> int,
    iterationOrder: set<RelativeSourcePath> -> seq<RelativeSourcePath>)

  /** What the parser reports for a source file: the paths of the sources it uses, or `null`. */
  type Parser = (JavaCompilationContext, string) -> Wrappers.Option<seq<RelativeSourcePath>>

  // ---------------------------------------------------------------- updating the metadata

  function EntryOrEmpty(m: map<RelativeSourcePath, set<RelativeSourcePath>>, key: RelativeSourcePath): set<RelativeSourcePath> {
    if key in m then m[key] else {}
  }

  /** The unit's new dependencies: the parsed ones without the unit itself; none when parsing gave nothing. */
  function NewUnitDependencies(parsed: Wrappers.Option<seq<RelativeSourcePath>>, self: RelativeSourcePath): (r: set<RelativeSourcePath>)
    ensures self !in r
    ensures parsed.None? ==> r == {}
    ensures parsed.Some? ==> forall p :: p in r <==> p in parsed.value && p != self
  {
    if parsed.None? then {} else set p | p in parsed.value && p != self
  }

  /** Every entry of `keys` replaced by `f` of it, an absent entry counting as empty. */
  function UpdateEntries(m: map<RelativeSourcePath, set<RelativeSourcePath>>, keys: set<RelativeSourcePath>,
                         f: set<RelativeSourcePath> -> set<RelativeSourcePath>): map<RelativeSourcePath, set<RelativeSourcePath>> {
    map d | d in m.Keys + keys :: if d in keys then f(EntryOrEmpty(m, d)) else m[d]
  }

  /** The `fold` of the source over the keys, visited in the order `order`. */
  function FoldEntries(m: map<RelativeSourcePath, set<RelativeSourcePath>>, order: seq<RelativeSourcePath>,
                       f: set<RelativeSourcePath> -> set<RelativeSourcePath>): map<RelativeSourcePath, set<RelativeSourcePath>>
    decreases |order|
  {
    if order == [] then m
    else
      var prev := FoldEntries(m, order[..|order| - 1], f);
      var d := order[|order| - 1];
      prev[d := f(EntryOrEmpty(prev, d))]
  }

  function Elements(xs: seq<RelativeSourcePath>): set<RelativeSourcePath> {
    set x | x in xs
  }

  lemma ElementsSnoc(xs: seq<RelativeSourcePath>, x: RelativeSourcePath)
    ensures Elements(xs + [x]) == Elements(xs) + {x}
  {
    forall y ensures y in xs + [x] <==> y in xs || y == x {
    }
  }

  /** Adding one key to an update: the new key's entry is computed from the map as it was. */
  lemma UpdateEntriesSnoc(m: map<RelativeSourcePath, set<RelativeSourcePath>>, keys: set<RelativeSourcePath>, d: RelativeSourcePath,
                          f: set<RelativeSourcePath> -> set<RelativeSourcePath>)
    requires forall s :: f(f(s)) == f(s)
    ensures var prev := UpdateEntries(m, keys, f);
      prev[d := f(EntryOrEmpty(prev, d))] == UpdateEntries(m, keys + {d}, f)
  {
    var prev := UpdateEntries(m, keys, f);
    var lhs := prev[d := f(EntryOrEmpty(prev, d))];
    var rhs := UpdateEntries(m, keys + {d}, f);
    assert lhs.Keys == rhs.Keys;
    if d in keys {
      assert EntryOrEmpty(prev, d) == f(EntryOrEmpty(m, d));
    }
    assert lhs[d] == rhs[d];
    assert lhs == rhs;
  }

  /**
   * With an idempotent step (taking the unit out, or putting it in), the fold gives the same
   * map whatever order the set is iterated in, repeats included.
   */
  lemma {:induction false} FoldEntriesIsOrderFree(m: map<RelativeSourcePath, set<RelativeSourcePath>>, order: seq<RelativeSourcePath>,
                                                  f: set<RelativeSourcePath> -> set<RelativeSourcePath>)
    requires forall s :: f(f(s)) == f(s)
    ensures FoldEntries(m, order, f) == UpdateEntries(m, Elements(order), f)
    decreases |order|
  {
    if order == [] {
      assert UpdateEntries(m, {}, f) == m;
    } else {
      var init := order[..|order| - 1];
      var d := order[|order| - 1];
      FoldEntriesIsOrderFree(m, init, f);
      assert order == init + [d];
      ElementsSnoc(init, d);
      UpdateEntriesSnoc(m, Elements(init), d, f);
    }
  }

  /** The fold steps of the source: taking the unit out of an entry, and putting it in. */
  function Without(path: RelativeSourcePath): set<RelativeSourcePath> -> set<RelativeSourcePath> {
    s => s - {path}
  }

  function With(path: RelativeSourcePath): set<RelativeSourcePath> -> set<RelativeSourcePath> {
    s => s + {path}
  }

  /**
   * `updateMetadataWithParser`: a failed unit leaves the metadata alone; otherwise the unit's
   * dependencies become the parsed ones, and the unit leaves the dependants of the dependencies
   * it lost and joins those of the dependencies it gained.
   */
  function UpdateMetadata(parse: Parser, ctx: JavaCompilationContext, metadata: Metadata,
                          currentUnit: JavaCompilationUnit, result: CompilationResult): Metadata
  {
    if result.Failed? then metadata
    else
      var path := currentUnit.pathInSourceSet;
      var newUnitDependencies := NewUnitDependencies(parse(ctx, currentUnit.sourceFile), path);
      var oldUnitDependencies := EntryOrEmpty(metadata.dependencies, path);
      var dependantsAfterRemoving := UpdateEntries(metadata.dependants, oldUnitDependencies - newUnitDependencies, Without(path));
      var newDependants := UpdateEntries(dependantsAfterRemoving, newUnitDependencies - oldUnitDependencies, With(path));
      metadata.(dependencies := metadata.dependencies[path := newUnitDependencies], dependants := newDependants)
  }

  /** A failed unit leaves the metadata alone. */
  lemma FailedUpdateKeepsMetadata(parse: Parser, ctx: JavaCompilationContext, metadata: Metadata,
                                  currentUnit: JavaCompilationUnit, errors: seq<string>)
    ensures UpdateMetadata(parse, ctx, metadata, currentUnit, Failed(errors)) == metadata
  {
  }

  /**
   * A successful update replaces the unit's dependency entry by its parsed dependencies and
   * no other entry, and keeps the compile time and the hashes.
   */
  lemma UpdateReplacesDependencies(parse: Parser, ctx: JavaCompilationContext, metadata: Metadata, currentUnit: JavaCompilationUnit)
    ensures var r := UpdateMetadata(parse, ctx, metadata, currentUnit, Success);
      var path := currentUnit.pathInSourceSet;
      && r.lastCompileTime == metadata.lastCompileTime && r.sourceFileAstHash == metadata.sourceFileAstHash
      && path in r.dependencies && r.dependencies[path] == NewUnitDependencies(parse(ctx, currentUnit.sourceFile), path)
      && (forall p :: p != path ==> (p in r.dependencies <==> p in metadata.dependencies))
      && (forall p :: p != path && p in metadata.dependencies ==> r.dependencies[p] == metadata.dependencies[p])
  {
  }

  /** One entry of the dependants after a successful update. */
  lemma DependantsEntryAfterUpdate(parse: Parser, ctx: JavaCompilationContext, metadata: Metadata,
                                   currentUnit: JavaCompilationUnit, d: RelativeSourcePath)
    ensures var r := UpdateMetadata(parse, ctx, metadata, currentUnit, Success);
      var path := currentUnit.pathInSourceSet;
      var newDeps := NewUnitDependencies(parse(ctx, currentUnit.sourceFile), path);
      var oldDeps := EntryOrEmpty(metadata.dependencies, path);
      var before := EntryOrEmpty(metadata.dependants, d);
      && (d in r.dependants <==> d in metadata.dependants || d in oldDeps - newDeps || d in newDeps - oldDeps)
      && EntryOrEmpty(r.dependants, d)
         == if d in oldDeps - newDeps then before - {path} else if d in newDeps - oldDeps then before + {path} else before
  {
    var path := currentUnit.pathInSourceSet;
    var newDeps := NewUnitDependencies(parse(ctx, currentUnit.sourceFile), path);
    var oldDeps := EntryOrEmpty(metadata.dependencies, path);
    var afterRemoving := UpdateEntries(metadata.dependants, oldDeps - newDeps, Without(path));
    assert EntryOrEmpty(afterRemoving, d) == if d in oldDeps - newDeps then EntryOrEmpty(metadata.dependants, d) - {path}
                                             else EntryOrEmpty(metadata.dependants, d);
  }

  /**
   * A successful update takes the unit out of the dependants of every lost dependency and
   * puts it in those of every gained one; emptied entries stay and every other entry is
   * untouched.
   */
  lemma UpdateMovesDependants(parse: Parser, ctx: JavaCompilationContext, metadata: Metadata, currentUnit: JavaCompilationUnit)
    ensures var r := UpdateMetadata(parse, ctx, metadata, currentUnit, Success);
      var path := currentUnit.pathInSourceSet;
      var newDeps := NewUnitDependencies(parse(ctx, currentUnit.sourceFile), path);
      var oldDeps := EntryOrEmpty(metadata.dependencies, path);
      && r.dependants.Keys == metadata.dependants.Keys + (oldDeps - newDeps) + (newDeps - oldDeps)
      && (forall d :: d in oldDeps - newDeps ==> r.dependants[d] == EntryOrEmpty(metadata.dependants, d) - {path})
      && (forall d :: d in newDeps - oldDeps ==> r.dependants[d] == EntryOrEmpty(metadata.dependants, d) + {path})
      && (forall d :: d in metadata.dependants && d !in oldDeps - newDeps && d !in newDeps - oldDeps ==>
            r.dependants[d] == metadata.dependants[d])
  {
    forall d {
      DependantsEntryAfterUpdate(parse, ctx, metadata, currentUnit, d);
    }
  }

  /**
   * The update is what the source's two folds compute, whatever order they visit the lost
   * and the gained dependencies in.
   */
  lemma UpdateIsAnyFoldOrder(parse: Parser, ctx: JavaCompilationContext, metadata: Metadata, currentUnit: JavaCompilationUnit,
                             removedOrder: seq<RelativeSourcePath>, addedOrder: seq<RelativeSourcePath>)
    requires var path := currentUnit.pathInSourceSet;
      var newDeps := NewUnitDependencies(parse(ctx, currentUnit.sourceFile), path);
      var oldDeps := EntryOrEmpty(metadata.dependencies, path);
      Elements(removedOrder) == oldDeps - newDeps && Elements(addedOrder) == newDeps - oldDeps
    ensures var path := currentUnit.pathInSourceSet;
      UpdateMetadata(parse, ctx, metadata, currentUnit, Success).dependants
        == FoldEntries(FoldEntries(metadata.dependants, removedOrder, Without(path)), addedOrder, With(path))
  {
    var path := currentUnit.pathInSourceSet;
    FoldEntriesIsOrderFree(metadata.dependants, removedOrder, Without(path));
    FoldEntriesIsOrderFree(FoldEntries(metadata.dependants, removedOrder, Without(path)), addedOrder, With(path));
  }

  /** Every source's dependencies and the dependants map describe the same relation. */
  ghost predicate IsReverseIndex(dependencies: map<RelativeSourcePath, set<RelativeSourcePath>>,
                                 dependants: map<RelativeSourcePath, set<RelativeSourcePath>>) {
    forall p, d :: (p in dependencies && d in dependencies[p]) <==> (d in dependants && p in dependants[d])
  }

  /** An update keeps the dependants map the exact reverse of the dependencies. */
  lemma UpdateKeepsReverseIndex(parse: Parser, ctx: JavaCompilationContext, metadata: Metadata,
                                currentUnit: JavaCompilationUnit, result: CompilationResult)
    requires IsReverseIndex(metadata.dependencies, metadata.dependants)
    ensures var r := UpdateMetadata(parse, ctx, metadata, currentUnit, result);
      IsReverseIndex(r.dependencies, r.dependants)
  {
    if result.Success? {
      var r := UpdateMetadata(parse, ctx, metadata, currentUnit, result);
      var path := currentUnit.pathInSourceSet;
      var oldDeps := EntryOrEmpty(metadata.dependencies, path);
      UpdateReplacesDependencies(parse, ctx, metadata, currentUnit);
      forall p, d ensures (p in r.dependencies && d in r.dependencies[p]) <==> (d in r.dependants && p in r.dependants[d]) {
        DependantsEntryAfterUpdate(parse, ctx, metadata, currentUnit, d);
        if p == path {
          assert (d in oldDeps) <==> (d in metadata.dependants && path in metadata.dependants[d]);
        } else {
          assert (p in metadata.dependencies && d in metadata.dependencies[p]) <==> (d in metadata.dependants && p in metadata.dependants[d]);
        }
      }
    }
  }

  /** `updateMetadataOnStart`: the compile time becomes the current time, everything else stays. */
  function OnStart(ctx: JavaCompilationContext, metadata: Metadata): (r: Metadata)
    ensures r.lastCompileTime == ctx.currentTime
    ensures r.dependencies == metadata.dependencies && r.dependants == metadata.dependants
    ensures r.sourceFileAstHash == metadata.sourceFileAstHash
  {
    metadata.(lastCompileTime := ctx.currentTime)
  }

  function JavaUpdate(parse: Parser): (JavaCompilationContext, Metadata, JavaCompilationUnit, CompilationResult) -> Metadata {
    (c, m, u, r) => UpdateMetadata(parse, c, m, u, r)
  }

  /**
   * What the Java pipeline stores: the current time as the compile time, a reverse index that
   * stays exact when it was, and only the successful units taken into account.
   */
  lemma JavaStoredMetadata(parse: Parser, ctx: JavaCompilationContext, loaded: Metadata, results: seq<(JavaCompilationUnit, CompilationResult)>)
    ensures var m := FoldResults(JavaUpdate(parse), ctx, OnStart(ctx, loaded), results);
      && m.lastCompileTime == ctx.currentTime
      && (IsReverseIndex(loaded.dependencies, loaded.dependants) ==> IsReverseIndex(m.dependencies, m.dependants))
      && m == FoldResults(JavaUpdate(parse), ctx, OnStart(ctx, loaded), Successes(results))
  {
    var update := JavaUpdate(parse);
    var start := OnStart(ctx, loaded);
    forall m: Metadata, u, r ensures update(ctx, m, u, r).lastCompileTime == m.lastCompileTime {
      if r.Success? {
        UpdateReplacesDependencies(parse, ctx, m, u);
      }
    }
    FoldResultsKeeps(update, ctx, start, results, (m: Metadata) => m.lastCompileTime == ctx.currentTime);
    if IsReverseIndex(loaded.dependencies, loaded.dependants) {
      forall m: Metadata, u, r | IsReverseIndex(m.dependencies, m.dependants)
        ensures IsReverseIndex(update(ctx, m, u, r).dependencies, update(ctx, m, u, r).dependants)
      {
        UpdateKeepsReverseIndex(parse, ctx, m, u, r);
      }
      FoldResultsKeeps(update, ctx, start, results, (m: Metadata) => IsReverseIndex(m.dependencies, m.dependants));
    }
    FoldIgnoresFailures(update, ctx, start, results);
  }

  // ---------------------------------------------------------------- the source reader

  /** The keys of the elements of `xs`. */
  function KeysOf<U>(xs: seq<U>, key: U -> string): set<string> {
    set i | 0 <= i < |xs| :: key(xs[i])
  }

  /** `distinctBy`: the first element of each key, in order. */
  function DistinctBy<U>(xs: seq<U>, key: U -> string): seq<U>
    decreases |xs|
  {
    if xs == [] then []
    else
      var init := DistinctBy(xs[..|xs| - 1], key);
      var last := xs[|xs| - 1];
      if key(last) in KeysOf(init, key) then init else init + [last]
  }

  lemma KeysOfSnoc<U>(xs: seq<U>, x: U, key: U -> string)
    ensures KeysOf(xs + [x], key) == KeysOf(xs, key) + {key(x)}
  {
    var ys := xs + [x];
    forall k ensures k in KeysOf(ys, key) <==> k in KeysOf(xs, key) || k == key(x) {
      if k in KeysOf(ys, key) {
        var i :| 0 <= i < |ys| && key(ys[i]) == k;
        if i < |xs| {
          assert key(xs[i]) == k;
        }
      }
      if k in KeysOf(xs, key) {
        var i :| 0 <= i < |xs| && key(xs[i]) == k;
        assert key(ys[i]) == k;
      }
      if k == key(x) {
        assert key(ys[|xs|]) == k;
      }
    }
  }

  /** `distinctBy` keeps every key once, and only elements it was given. */
  lemma {:induction false} DistinctByKeepsKeys<U>(xs: seq<U>, key: U -> string)
    ensures forall i, j :: 0 <= i < j < |DistinctBy(xs, key)| ==> key(DistinctBy(xs, key)[i]) != key(DistinctBy(xs, key)[j])
    ensures KeysOf(DistinctBy(xs, key), key) == KeysOf(xs, key)
    ensures forall x :: x in DistinctBy(xs, key) ==> x in xs
    decreases |xs|
  {
    if xs != [] {
      var init := xs[..|xs| - 1];
      var last := xs[|xs| - 1];
      DistinctByKeepsKeys(init, key);
      assert xs == init + [last];
      KeysOfSnoc(init, last, key);
      var d := DistinctBy(init, key);
      if key(last) !in KeysOf(d, key) {
        KeysOfSnoc(d, last, key);
        forall i | 0 <= i < |d| ensures key(d[i]) != key(last) {
          assert key(d[i]) in KeysOf(d, key);
        }
      }
    }
  }

  /** `distinctBy` keeps the first element of each key. */
  lemma {:induction false} DistinctByKeepsFirst<U>(xs: seq<U>, key: U -> string)
    ensures forall i :: 0 <= i < |xs| && key(xs[i]) !in KeysOf(xs[..i], key) ==> xs[i] in DistinctBy(xs, key)
    decreases |xs|
  {
    if xs != [] {
      var init := xs[..|xs| - 1];
      var last := xs[|xs| - 1];
      DistinctByKeepsFirst(init, key);
      DistinctByKeepsKeys(init, key);
      forall i | 0 <= i < |xs| && key(xs[i]) !in KeysOf(xs[..i], key) ensures xs[i] in DistinctBy(xs, key) {
        if i < |init| {
          assert init[..i] == xs[..i];
          assert xs[i] == init[i];
        } else {
          assert xs[..i] == init;
        }
      }
    }
  }

  function PathOf(u: JavaCompilationUnit): RelativeSourcePath {
    u.pathInSourceSet
  }

  /** `sourceLastModified`. */
  function SourceLastModified(ctx: JavaCompilationContext): JavaCompilationUnit -> int {
    (u: JavaCompilationUnit) => ctx.lastModified(u.sourceFile)
  }

  /** `targetLastModified`: unknown when there is no class file. */
  function TargetLastModified(ctx: JavaCompilationContext): JavaCompilationUnit -> Wrappers.Option<int> {
    (u: JavaCompilationUnit) => if u.classFile.Some? then Wrappers.Some(ctx.lastModified(u.classFile.value)) else Wrappers.None
  }

  /** `mapNotNull`. */
  function MapNotNull<X, Y>(f: X -> Wrappers.Option<Y>, xs: seq<X>): seq<Y>
    decreases |xs|
  {
    if xs == [] then []
    else (if f(xs[0]).Some? then [f(xs[0]).value] else []) + MapNotNull(f, xs[1..])
  }

  /** `mapNotNull` keeps exactly the values found. */
  lemma {:induction false} MapNotNullMembership<X, Y>(f: X -> Wrappers.Option<Y>, xs: seq<X>, y: Y)
    ensures y in MapNotNull(f, xs) <==> exists x :: x in xs && f(x) == Wrappers.Some(y)
    decreases |xs|
  {
    if xs != [] {
      MapNotNullMembership(f, xs[1..], y);
      assert forall x :: x in xs <==> x == xs[0] || x in xs[1..];
    }
  }

  /** An iteration order of a set lists exactly its elements. */
  ghost predicate ListsEachElement(order: set<RelativeSourcePath> -> seq<RelativeSourcePath>) {
    forall s :: Elements(order(s)) == s
  }

  /** A unit `x` that can be found as a stored dependant of `u`. */
  ghost predicate FoundDependant(ctx: JavaCompilationContext, metadata: Metadata, u: JavaCompilationUnit, x: JavaCompilationUnit) {
    && u.pathInSourceSet in metadata.dependants
    && exists p :: p in metadata.dependants[u.pathInSourceSet] && ctx.findSingle(p) == Wrappers.Some(x)
  }

  lemma DependantUnitsAreFound(ctx: JavaCompilationContext, metadata: Metadata, u: JavaCompilationUnit, x: JavaCompilationUnit)
    requires ListsEachElement(ctx.iterationOrder)
    ensures x in DependantUnits(ctx, metadata, u) <==> FoundDependant(ctx, metadata, u, x)
  {
    if u.pathInSourceSet in metadata.dependants {
      var s := metadata.dependants[u.pathInSourceSet];
      MapNotNullMembership(ctx.findSingle, ctx.iterationOrder(s), x);
      assert Elements(ctx.iterationOrder(s)) == s;
      assert forall p :: p in ctx.iterationOrder(s) <==> p in s;
    }
  }

  /** The units of the stored dependants of a unit that can still be found in the source set. */
  function DependantUnits(ctx: JavaCompilationContext, metadata: Metadata, u: JavaCompilationUnit): seq<JavaCompilationUnit> {
    if u.pathInSourceSet in metadata.dependants then MapNotNull(ctx.findSingle, ctx.iterationOrder(metadata.dependants[u.pathInSourceSet]))
    else []
  }

  function Dependants(ctx: JavaCompilationContext, metadata: Metadata): JavaCompilationUnit -> seq<JavaCompilationUnit> {
    u => DependantUnits(ctx, metadata, u)
  }

  /** The listed units whose class file is missing or older than the source. */
  function StaleUnits(ctx: JavaCompilationContext): seq<JavaCompilationUnit> {
    FilterLastModified(ctx.sourceFiles, SourceLastModified(ctx), TargetLastModified(ctx))
  }

  /** `incrementalSourceReader`: the stale units, each followed by its dependants, without repeated paths. */
  function IncrementalSourceReader(ctx: JavaCompilationContext, metadata: Metadata): seq<JavaCompilationUnit> {
    DistinctBy(IncludeDependentSources(StaleUnits(ctx), Dependants(ctx, metadata)), PathOf)
  }

  /**
   * The reader names every path once, keeping the first unit of each; it reads every stale
   * unit's path and the path of every found dependant of a stale unit; and it reads nothing
   * else.
   */
  lemma IncrementalSourceReaderProperties(ctx: JavaCompilationContext, metadata: Metadata)
    requires ListsEachElement(ctx.iterationOrder)
    ensures var out := IncrementalSourceReader(ctx, metadata);
      var all := IncludeDependentSources(StaleUnits(ctx), Dependants(ctx, metadata));
      && (forall i, j :: 0 <= i < j < |out| ==> out[i].pathInSourceSet != out[j].pathInSourceSet)
      && (forall i :: 0 <= i < |all| && PathOf(all[i]) !in KeysOf(all[..i], PathOf) ==> all[i] in out)
      && (forall u :: u in ctx.sourceFiles && NeedsCompile(u, SourceLastModified(ctx), TargetLastModified(ctx)) ==>
            u.pathInSourceSet in KeysOf(out, PathOf))
      && (forall u, x :: u in StaleUnits(ctx) && FoundDependant(ctx, metadata, u, x) ==>
            x.pathInSourceSet in KeysOf(out, PathOf))
      && (forall x :: x in out ==>
            (x in ctx.sourceFiles && NeedsCompile(x, SourceLastModified(ctx), TargetLastModified(ctx))) ||
            exists u :: u in StaleUnits(ctx) && FoundDependant(ctx, metadata, u, x))
  {
    var stale := StaleUnits(ctx);
    var all := IncludeDependentSources(stale, Dependants(ctx, metadata));
    var out := IncrementalSourceReader(ctx, metadata);
    DistinctByKeepsKeys(all, PathOf);
    DistinctByKeepsFirst(all, PathOf);
    FilterLastModifiedKeepsStale(ctx.sourceFiles, SourceLastModified(ctx), TargetLastModified(ctx));
    forall x | x in all ensures PathOf(x) in KeysOf(out, PathOf) {
      var i :| 0 <= i < |all| && all[i] == x;
      KeyOfElement(all, i, PathOf);
    }
    forall u | u in ctx.sourceFiles && NeedsCompile(u, SourceLastModified(ctx), TargetLastModified(ctx))
      ensures u.pathInSourceSet in KeysOf(out, PathOf)
    {
      IncludeDependentSourcesMembership(stale, Dependants(ctx, metadata), u);
    }
    forall u, x | u in stale && FoundDependant(ctx, metadata, u, x) ensures x.pathInSourceSet in KeysOf(out, PathOf) {
      DependantUnitsAreFound(ctx, metadata, u, x);
      IncludeDependentSourcesMembership(stale, Dependants(ctx, metadata), x);
    }
    forall x | x in out
      ensures (x in ctx.sourceFiles && NeedsCompile(x, SourceLastModified(ctx), TargetLastModified(ctx))) ||
              exists u :: u in stale && FoundDependant(ctx, metadata, u, x)
    {
      IncludeDependentSourcesMembership(stale, Dependants(ctx, metadata), x);
      if x !in stale {
        var u :| u in stale && x in DependantUnits(ctx, metadata, u);
        DependantUnitsAreFound(ctx, metadata, u, x);
      }
    }
  }

  // ---------------------------------------------------------------- the compiler adapter

  /** A javac diagnostic: the file it is about and its text. */
  datatype Diagnostic = Diagnostic(file: string, message: string)

  /** javac, as the diagnostics it reports for a set of source files. */
  type Javac = set<string> -> seq<Diagnostic>

  function FileOf(u: JavaCompilationUnit): string {
    u.sourceFile
  }

  /** The messages reported for `file`, in reporting order. */
  function Messages(diagnostics: seq<Diagnostic>, file: string): seq<string>
    decreases |diagnostics|
  {
    if diagnostics == [] then []
    else
      var init := Messages(diagnostics[..|diagnostics| - 1], file);
      var last := diagnostics[|diagnostics| - 1];
      if last.file == file then init + [last.message] else init
  }

  function DiagnosticFile(d: Diagnostic): string {
    d.file
  }

  function MessageOf(d: Diagnostic, file: string): seq<string> {
    if d.file == file then [d.message] else []
  }

  lemma {:induction false} MessagesStep(diagnostics: seq<Diagnostic>, i: nat)
    requires i < |diagnostics|
    ensures forall k :: Messages(diagnostics[..i + 1], k) == Messages(diagnostics[..i], k) + MessageOf(diagnostics[i], k)
  {
    assert diagnostics[..i + 1][..i] == diagnostics[..i];
  }

  /** A file has messages exactly when some diagnostic is about it. */
  lemma {:induction false} MessagesNonEmpty(diagnostics: seq<Diagnostic>, file: string)
    ensures Messages(diagnostics, file) != [] <==> file in KeysOf(diagnostics, DiagnosticFile)
    decreases |diagnostics|
  {
    if diagnostics != [] {
      var init := diagnostics[..|diagnostics| - 1];
      var last := diagnostics[|diagnostics| - 1];
      MessagesNonEmpty(init, file);
      assert diagnostics == init + [last];
      KeysOfSnoc(init, last, DiagnosticFile);
    }
  }

  /** The last unit of `file`: later units of the same file replace earlier ones in the result map. */
  function LastWithFile(units: seq<JavaCompilationUnit>, file: string): JavaCompilationUnit
    requires file in KeysOf(units, FileOf)
    decreases |units|
  {
    var last := units[|units| - 1];
    if last.sourceFile == file then last
    else
      assert units == units[..|units| - 1] + [last];
      KeysOfSnoc(units[..|units| - 1], last, FileOf);
      LastWithFile(units[..|units| - 1], file)
  }

  lemma {:induction false} LastWithFileIsOfFile(units: seq<JavaCompilationUnit>, file: string)
    requires file in KeysOf(units, FileOf)
    ensures LastWithFile(units, file).sourceFile == file && LastWithFile(units, file) in units
    decreases |units|
  {
    var last := units[|units| - 1];
    if last.sourceFile != file {
      assert units == units[..|units| - 1] + [last];
      KeysOfSnoc(units[..|units| - 1], last, FileOf);
      LastWithFileIsOfFile(units[..|units| - 1], file);
    }
  }

  /** A unit's result: failed with its messages when there are any. */
  function ResultFor(diagnostics: seq<Diagnostic>, file: string): CompilationResult {
    if Messages(diagnostics, file) == [] then Success else Failed(Messages(diagnostics, file))
  }

  /** The diagnostics of the compilation of `sources`; javac is not run on no sources. */
  function DiagnosticsOf(sources: seq<JavaCompilationUnit>, javac: Javac): seq<Diagnostic> {
    if sources == [] then [] else javac(KeysOf(sources, FileOf))
  }

  /** Every diagnostic is about a file that was compiled. */
  predicate ReportsOnlyCompiledFiles(sources: seq<JavaCompilationUnit>, diagnostics: seq<Diagnostic>) {
    KeysOf(diagnostics, DiagnosticFile) <= KeysOf(sources, FileOf)
  }

  /** The entry of a compiled file: its last unit and its result. */
  function Outcome(sources: seq<JavaCompilationUnit>, diagnostics: seq<Diagnostic>, file: string): (JavaCompilationUnit, CompilationResult)
    requires file in KeysOf(sources, FileOf)
  {
    (LastWithFile(sources, file), ResultFor(diagnostics, file))
  }

  lemma KeyOfElement<U>(xs: seq<U>, i: nat, key: U -> string)
    requires i < |xs|
    ensures key(xs[i]) in KeysOf(xs, key)
  {
  }

  /** The entries of the compiled files, in the order the files first appear. */
  function Outcomes(sources: seq<JavaCompilationUnit>, diagnostics: seq<Diagnostic>): (r: seq<(JavaCompilationUnit, CompilationResult)>)
    ensures |r| == |DistinctBy(sources, FileOf)|
  {
    var firsts := DistinctBy(sources, FileOf);
    DistinctByKeepsKeys(sources, FileOf);
    seq(|firsts|, i requires 0 <= i < |firsts| =>
      KeyOfElement(firsts, i, FileOf); Outcome(sources, diagnostics, firsts[i].sourceFile))
  }

  /**
   * `adaptNativeJavaCompiler`: one result per source file, in the order the files first
   * appear; the unit is the last one of that file. A diagnostic about a file that was not
   * compiled has no result to update, which fails.
   */
  function Adapted(sources: seq<JavaCompilationUnit>, javac: Javac): Wrappers.Result<seq<(JavaCompilationUnit, CompilationResult)>> {
    var diagnostics := DiagnosticsOf(sources, javac);
    if !ReportsOnlyCompiledFiles(sources, diagnostics) then Wrappers.Failure("NullPointerException")
    else Wrappers.Success(Outcomes(sources, diagnostics))
  }

  /** The `i`-th entry belongs to the `i`-th distinct file, is one of its units and carries that file's result. */
  lemma OutcomeAt(sources: seq<JavaCompilationUnit>, diagnostics: seq<Diagnostic>, i: nat)
    requires i < |Outcomes(sources, diagnostics)|
    ensures var o := Outcomes(sources, diagnostics)[i];
      && o.0.sourceFile == DistinctBy(sources, FileOf)[i].sourceFile
      && o.0 in sources
      && (o.1.Success? <==> o.0.sourceFile !in KeysOf(diagnostics, DiagnosticFile))
      && (o.1.Failed? ==> o.1.errors == Messages(diagnostics, o.0.sourceFile))
  {
    var firsts := DistinctBy(sources, FileOf);
    DistinctByKeepsKeys(sources, FileOf);
    KeyOfElement(firsts, i, FileOf);
    LastWithFileIsOfFile(sources, firsts[i].sourceFile);
    MessagesNonEmpty(diagnostics, firsts[i].sourceFile);
  }

  /** Distinct files, one of the given units for each, and every source file covered. */
  lemma OutcomesCoverFiles(sources: seq<JavaCompilationUnit>, diagnostics: seq<Diagnostic>)
    ensures var out := Outcomes(sources, diagnostics);
      && (forall i, j :: 0 <= i < j < |out| ==> out[i].0.sourceFile != out[j].0.sourceFile)
      && (forall u :: u in sources ==> exists i :: 0 <= i < |out| && out[i].0.sourceFile == u.sourceFile)
      && (forall i :: 0 <= i < |out| ==> out[i].0 in sources)
  {
    var out := Outcomes(sources, diagnostics);
    var firsts := DistinctBy(sources, FileOf);
    DistinctByKeepsKeys(sources, FileOf);
    forall i | 0 <= i < |out| ensures out[i].0.sourceFile == FileOf(firsts[i]) && out[i].0 in sources {
      OutcomeAt(sources, diagnostics, i);
    }
    forall u | u in sources ensures exists i :: 0 <= i < |out| && out[i].0.sourceFile == u.sourceFile {
      var j :| 0 <= j < |sources| && sources[j] == u;
      KeyOfElement(sources, j, FileOf);
      var i :| 0 <= i < |firsts| && FileOf(firsts[i]) == FileOf(u);
      assert out[i].0.sourceFile == u.sourceFile;
    }
  }

  /**
   * Every compiled unit's file has exactly one result, which is a success unless javac
   * reported something about the file, and then a failure with exactly those messages;
   * no sources give no results.
   */
  lemma AdaptedResultsPerFile(sources: seq<JavaCompilationUnit>, javac: Javac, out: seq<(JavaCompilationUnit, CompilationResult)>)
    requires Adapted(sources, javac) == Wrappers.Success(out)
    ensures forall i, j :: 0 <= i < j < |out| ==> out[i].0.sourceFile != out[j].0.sourceFile
    ensures forall u :: u in sources ==> exists i :: 0 <= i < |out| && out[i].0.sourceFile == u.sourceFile
    ensures forall i :: 0 <= i < |out| ==> out[i].0 in sources
    ensures forall i :: 0 <= i < |out| ==>
      (out[i].1.Success? <==> out[i].0.sourceFile !in KeysOf(DiagnosticsOf(sources, javac), DiagnosticFile))
    ensures forall i :: 0 <= i < |out| && out[i].1.Failed? ==>
      out[i].1.errors == Messages(DiagnosticsOf(sources, javac), out[i].0.sourceFile)
    ensures sources == [] ==> out == []
  {
    var diagnostics := DiagnosticsOf(sources, javac);
    assert out == Outcomes(sources, diagnostics);
    OutcomesCoverFiles(sources, diagnostics);
    forall i | 0 <= i < |out|
      ensures out[i].1.Success? <==> out[i].0.sourceFile !in KeysOf(diagnostics, DiagnosticFile)
      ensures out[i].1.Failed? ==> out[i].1.errors == Messages(diagnostics, out[i].0.sourceFile)
    {
      OutcomeAt(sources, diagnostics, i);
    }
  }

  /** The first loop after `i` units: their files and the last unit of each. */
  ghost predicate FilesUpTo(sources: seq<JavaCompilationUnit>, i: nat, javaFiles: set<string>,
                            result: map<string, (JavaCompilationUnit, CompilationResult)>)
    requires i <= |sources|
  {
    && javaFiles == KeysOf(sources[..i], FileOf) && result.Keys == javaFiles
    && (forall k :: k in result ==> result[k] == (LastWithFile(sources[..i], k), Success))
  }

  /** The first loop after `i` units: the files in first-insertion order. */
  ghost predicate OrderUpTo(sources: seq<JavaCompilationUnit>, i: nat, keys: seq<string>)
    requires i <= |sources|
  {
    && |keys| == |DistinctBy(sources[..i], FileOf)|
    && (forall j :: 0 <= j < |keys| ==> keys[j] == DistinctBy(sources[..i], FileOf)[j].sourceFile)
  }

  lemma FilesStep(sources: seq<JavaCompilationUnit>, i: nat, javaFiles: set<string>,
                  result: map<string, (JavaCompilationUnit, CompilationResult)>)
    requires i < |sources| && FilesUpTo(sources, i, javaFiles, result)
    ensures var unit := sources[i];
      FilesUpTo(sources, i + 1, javaFiles + {unit.sourceFile}, result[unit.sourceFile := (unit, Success)])
  {
    var unit := sources[i];
    var prefix := sources[..i + 1];
    assert prefix[..i] == sources[..i] && prefix[i] == unit;
    KeysOfSnoc(sources[..i], unit, FileOf);
  }

  lemma OrderStep(sources: seq<JavaCompilationUnit>, i: nat, keys: seq<string>)
    requires i < |sources| && OrderUpTo(sources, i, keys)
    ensures var unit := sources[i];
      OrderUpTo(sources, i + 1, if unit.sourceFile in KeysOf(sources[..i], FileOf) then keys else keys + [unit.sourceFile])
  {
    var unit := sources[i];
    var prefix := sources[..i + 1];
    assert prefix[..i] == sources[..i] && prefix[i] == unit;
    DistinctByKeepsKeys(sources[..i], FileOf);
  }

  /** The first loop of `adaptNativeJavaCompiler`: every unit's file, and a success for each, in first-insertion order. */
  method RegisterInputs(sources: seq<JavaCompilationUnit>)
    returns (javaFiles: set<string>, result: map<string, (JavaCompilationUnit, CompilationResult)>, keys: seq<string>)
    ensures javaFiles == KeysOf(sources, FileOf) && result.Keys == javaFiles
    ensures forall k :: k in result ==> result[k] == (LastWithFile(sources, k), Success)
    ensures |keys| == |DistinctBy(sources, FileOf)|
    ensures forall i :: 0 <= i < |keys| ==> keys[i] == DistinctBy(sources, FileOf)[i].sourceFile
  {
    javaFiles := {};
    result := map[];
    keys := [];
    for i := 0 to |sources|
      invariant FilesUpTo(sources, i, javaFiles, result)
      invariant OrderUpTo(sources, i, keys)
    {
      var unit := sources[i];
      FilesStep(sources, i, javaFiles, result);
      OrderStep(sources, i, keys);
      if unit.sourceFile !in result {
        keys := keys + [unit.sourceFile];
      }
      javaFiles := javaFiles + {unit.sourceFile};
      result := result[unit.sourceFile := (unit, Success)];
    }
    assert sources[..|sources|] == sources;
  }

  /** The messages collected from the first `i` diagnostics. */
  ghost predicate CollectedUpTo(diagnostics: seq<Diagnostic>, i: nat, errors: map<string, seq<string>>)
    requires i <= |diagnostics|
  {
    && errors.Keys == KeysOf(diagnostics[..i], DiagnosticFile)
    && forall k :: k in errors ==> errors[k] == Messages(diagnostics[..i], k)
  }

  lemma CollectStep(diagnostics: seq<Diagnostic>, i: nat, errors: map<string, seq<string>>)
    requires i < |diagnostics| && CollectedUpTo(diagnostics, i, errors)
    ensures var d := diagnostics[i];
      var list := if d.file in errors then errors[d.file] else [];
      CollectedUpTo(diagnostics, i + 1, errors[d.file := list + [d.message]])
  {
    var d := diagnostics[i];
    var list := if d.file in errors then errors[d.file] else [];
    var next := errors[d.file := list + [d.message]];
    assert diagnostics[..i + 1] == diagnostics[..i] + [d];
    KeysOfSnoc(diagnostics[..i], d, DiagnosticFile);
    MessagesStep(diagnostics, i);
    MessagesNonEmpty(diagnostics[..i], d.file);
    assert next[d.file] == Messages(diagnostics[..i + 1], d.file);
    forall k | k in next && k != d.file ensures next[k] == Messages(diagnostics[..i + 1], k) {
      assert Messages(diagnostics[..i + 1], k) == Messages(diagnostics[..i], k) + [];
    }
  }

  /** The diagnostic listener: the messages of each file, in reporting order. */
  method CollectErrors(diagnostics: seq<Diagnostic>) returns (errors: map<string, seq<string>>)
    ensures errors.Keys == KeysOf(diagnostics, DiagnosticFile)
    ensures forall k :: k in errors ==> errors[k] == Messages(diagnostics, k)
  {
    errors := map[];
    for i := 0 to |diagnostics|
      invariant CollectedUpTo(diagnostics, i, errors)
    {
      var diag := diagnostics[i];
      CollectStep(diagnostics, i, errors);
      var list := if diag.file in errors then errors[diag.file] else [];
      errors := errors[diag.file := list + [diag.message]];
    }
    assert diagnostics[..|diagnostics|] == diagnostics;
  }

  /** `errors.forEach`: each file with messages turns failed; a file without a result fails the adapter. */
  method ApplyErrors(result: map<string, (JavaCompilationUnit, CompilationResult)>, errors: map<string, seq<string>>)
    returns (r: Wrappers.Result<map<string, (JavaCompilationUnit, CompilationResult)>>)
    ensures r.Success? <==> errors.Keys <= result.Keys
    ensures r.Failure? ==> r.error == "NullPointerException"
    ensures r.Success? ==> r.value.Keys == result.Keys
    ensures r.Success? ==>
      forall k :: k in result ==> r.value[k] == if k in errors then (result[k].0, Failed(errors[k])) else result[k]
  {
    var updated := result;
    var todo := errors.Keys;
    while todo != {}
      invariant todo <= errors.Keys
      invariant errors.Keys - todo <= result.Keys
      invariant updated.Keys == result.Keys
      invariant forall k :: k in result ==> updated[k] == if k in errors.Keys - todo then (result[k].0, Failed(errors[k])) else result[k]
      decreases todo
    {
      var key :| key in todo;
      if key !in updated {
        return Wrappers.Failure("NullPointerException");
      }
      updated := updated[key := (updated[key].0, Failed(errors[key]))];
      todo := todo - {key};
    }
    return Wrappers.Success(updated);
  }

  /** `adaptNativeJavaCompiler`; `invoked` tells whether javac was run. */
  method AdaptNativeJavaCompiler(sources: seq<JavaCompilationUnit>, javac: Javac)
    returns (r: Wrappers.Result<seq<(JavaCompilationUnit, CompilationResult)>>, invoked: bool)
    ensures invoked <==> sources != []
    ensures r == Adapted(sources, javac)
  {
    var javaFiles, result, keys := RegisterInputs(sources);
    var diagnostics: seq<Diagnostic> := [];
    invoked := javaFiles != {};
    if sources != [] {
      KeyOfElement(sources, 0, FileOf);
    }
    if invoked {
      diagnostics := javac(javaFiles);
    }
    assert diagnostics == DiagnosticsOf(sources, javac);
    var errors := CollectErrors(diagnostics);
    var applied := ApplyErrors(result, errors);
    if applied.Failure? {
      return Wrappers.Failure(applied.error), invoked;
    }
    var firsts := DistinctBy(sources, FileOf);
    DistinctByKeepsKeys(sources, FileOf);
    forall i | 0 <= i < |keys| ensures keys[i] in applied.value {
      KeyOfElement(firsts, i, FileOf);
    }
    var out := seq(|keys|, i requires 0 <= i < |keys| && keys[i] in applied.value => applied.value[keys[i]]);
    ghost var expected := Outcomes(sources, diagnostics);
    forall i | 0 <= i < |keys| ensures out[i] == expected[i] {
      KeyOfElement(firsts, i, FileOf);
      MessagesNonEmpty(diagnostics, keys[i]);
    }
    assert out == expected;
    r := Wrappers.Success(out);
  }

  // ---------------------------------------------------------------- the pipeline

  /** The empty metadata a fresh store loads. */
  function EmptyMetadata(): Metadata {
    Metadata(0, map[], map[], map[])
  }

  /** `javaIncrementalCompilationPipeline`: the stateful pipeline put together from the parts above. */
  method JavaIncrementalCompilationPipeline(store: MetadataStore<Metadata>, javac: Javac, parse: Parser)
    returns (p: StatefulCompilationPipeline<JavaCompilationContext, JavaCompilationUnit, Metadata>)
    ensures fresh(p) && p.metadataStore == store
    ensures forall c, m :: p.sourceReader(c, m) == IncrementalSourceReader(c, m)
    ensures forall c, s, m :: p.compile(c, s, m) == Adapted(s, javac)
    ensures forall c, m, u, r :: p.updateMetadata(c, m, u, r) == UpdateMetadata(parse, c, m, u, r)
    ensures forall c, m :: p.updateMetadataOnStart(c, m) == OnStart(c, m)
    ensures forall c, m :: p.updateMetadataOnFinish(c, m) == m
  {
    var reader: (JavaCompilationContext, Metadata) -> seq<JavaCompilationUnit> := (c, m) => IncrementalSourceReader(c, m);
    var compile: (JavaCompilationContext, seq<JavaCompilationUnit>, Metadata) -> Wrappers.Result<seq<(JavaCompilationUnit, CompilationResult)>> :=
      (c, s, m) => Adapted(s, javac);
    var onStart: (JavaCompilationContext, Metadata) -> Metadata := (c, m) => OnStart(c, m);
    p := new StatefulCompilationPipeline(store, reader, compile, JavaUpdate(parse), Wrappers.Some(onStart), Wrappers.None);
  }
}
