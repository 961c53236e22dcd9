/**
 * `IncrementalCompilation`: one run of the incremental Java compiler. It lists the changed
 * sources, forgets the classes of removed sources, compiles the changed sources, and then
 * compiles the sources of classes that depend on a class whose ABI broke, or everything
 * again when a constant may have been inlined elsewhere.
 *
 * The compiler, the two ABI snapshots of the class directory (before the run and after the
 * changed sources are compiled), the source listing and the fingerprint function are inputs.
 */
module IncrementalCompilations {
  import opened Wrappers
  import opened Abi
  import opened CompatibilityLevels
  import opened CombinedChecker
  import AbiCompatibilityCases
  import DG = DependencyGraph
  import opened ClassMapping
  import opened Persistency
  import opened FileChanges

  /** The compiler's `CompilationResult`: the classes each compiled source produced, and whether javac succeeded. */
  datatype CompilationResult = CompilationResult(compiledClasses: map<SourcePath, set<ClassName>>, isSuccessful: bool)

  /** The compiler, as the result it gives for the set of sources it is asked to compile. */
  type Compiler = set<SourcePath> -> CompilationResult

  /** `IncrementalCompilationResult`: the class map to store and the result to report. */
  datatype IncrementalResult = IncrementalResult(classMap: ClassMap, result: CompilationResult)

  // ---------------------------------------------------------------- compatibility of one class

  /**
   * `isCompatible(abiMap, old, new)`: an added class is compatible, a removed class is globally
   * incompatible when it had constants and incompatible otherwise, and a class present on both
   * sides gets the checker's verdict.
   */
  function ClassCompatibility(c: Checker, abiMap: map<ClassName, ClassAbi>, before: Option<ClassAbi>, after: Option<ClassAbi>): CompatibilityLevel
    requires before.Some? && after.Some? ==> VerdictDefined(c, abiMap, before.value, after.value)
  {
    if before.None? then Compatible
    else if after.None? then (if before.value.constants != [] then GloballyIncompatible else Incompatible)
    else Verdict(c, abiMap, before.value, after.value)
  }

  /** `isCompatible`, calling the checker's loops. */
  method IsClassCompatible(c: Checker, abiMap: map<ClassName, ClassAbi>, before: Option<ClassAbi>, after: Option<ClassAbi>)
    returns (r: CompatibilityLevel)
    requires before.Some? && after.Some? ==> VerdictDefined(c, abiMap, before.value, after.value)
    ensures r == ClassCompatibility(c, abiMap, before, after)
  {
    if before.None? && after.Some? {
      return Compatible;
    } else if before.Some? && after.None? {
      if before.value.constants != [] {
        return GloballyIncompatible;
      }
      return Incompatible;
    } else if before.Some? && after.Some? {
      r := IsCompatible(c, abiMap, before.value, after.value);
    } else {
      return Compatible;
    }
  }

  /**
   * With the Java 8 rules a class forces a full rebuild exactly when it existed and one of its
   * constants is gone: the class vanished while it had constants, or a constant of it was
   * dropped or got another value.
   */
  lemma Java8GlobalIffConstantLost(abiMap: map<ClassName, ClassAbi>, before: Option<ClassAbi>, after: Option<ClassAbi>)
    requires before.Some? && after.Some? ==> VerdictDefined(Java8Checker(), abiMap, before.value, after.value)
    ensures ClassCompatibility(Java8Checker(), abiMap, before, after) == GloballyIncompatible <==>
      before.Some? &&
      (if after.Some? then AbiCompatibilityCases.ConstantChanged(before.value, after.value) else before.value.constants != [])
  {
    if before.Some? && after.Some? {
      Java8GlobalIffConstantChanged(abiMap, before.value, after.value);
    }
  }

  function Lookup(abiMap: map<ClassName, ClassAbi>, className: ClassName): Option<ClassAbi> {
    if className in abiMap then Some(abiMap[className]) else None
  }

  /** The checker can judge `className` when it exists in both snapshots. */
  ghost predicate LevelDefined(c: Checker, abiBefore: map<ClassName, ClassAbi>, abiAfter: map<ClassName, ClassAbi>, className: ClassName) {
    className in abiBefore && className in abiAfter ==> VerdictDefined(c, abiBefore, abiBefore[className], abiAfter[className])
  }

  ghost predicate LevelsDefined(c: Checker, abiBefore: map<ClassName, ClassAbi>, abiAfter: map<ClassName, ClassAbi>, classes: set<ClassName>) {
    forall x :: x in classes ==> LevelDefined(c, abiBefore, abiAfter, x)
  }

  /** The compatibility of one class between the two snapshots, judged against the old one. */
  function Level(c: Checker, abiBefore: map<ClassName, ClassAbi>, abiAfter: map<ClassName, ClassAbi>, className: ClassName): CompatibilityLevel
    requires LevelDefined(c, abiBefore, abiAfter, className)
  {
    ClassCompatibility(c, abiBefore, Lookup(abiBefore, className), Lookup(abiAfter, className))
  }

  // ---------------------------------------------------------------- dependant classes, specified

  /** `dependantsOf(className)?.all ?: emptySet()` on a reverse map. */
  function DependantsIn(reverse: map<ClassName, DG.ClassDependency>, className: ClassName): set<ClassName> {
    if className in reverse then DG.All(reverse[className]) else {}
  }

  /** The dependants, outside `affected`, of the classes of `done` that are not compatible. */
  function CandidatesOf(c: Checker, abiBefore: map<ClassName, ClassAbi>, abiAfter: map<ClassName, ClassAbi>,
                        reverse: map<ClassName, DG.ClassDependency>, done: set<ClassName>, affected: set<ClassName>): set<ClassName>
    requires LevelsDefined(c, abiBefore, abiAfter, done)
  {
    set x, d | x in done && Level(c, abiBefore, abiAfter, x) != Compatible && d in DependantsIn(reverse, x) && d !in affected :: d
  }

  /** The classes whose sources the dependant pass recompiles. */
  function DependantClasses(c: Checker, abiBefore: map<ClassName, ClassAbi>, abiAfter: map<ClassName, ClassAbi>,
                            affected: set<ClassName>): set<ClassName>
    requires LevelsDefined(c, abiBefore, abiAfter, affected)
  {
    CandidatesOf(c, abiBefore, abiAfter, DG.ReverseOf(DG.FromAbiMap(abiAfter).adjacencyMap), affected, affected)
  }

  /** Some affected class asks for a full rebuild. */
  ghost predicate GlobalFound(c: Checker, abiBefore: map<ClassName, ClassAbi>, abiAfter: map<ClassName, ClassAbi>, affected: set<ClassName>)
    requires LevelsDefined(c, abiBefore, abiAfter, affected)
  {
    exists x :: x in affected && Level(c, abiBefore, abiAfter, x) == GloballyIncompatible
  }

  /** The sources registered for `classes`. */
  function SourceFilesOf(classToSource: map<ClassName, SourcePath>, classes: set<ClassName>): set<SourcePath>
    requires classes <= classToSource.Keys
  {
    set d | d in classes :: classToSource[d]
  }

  lemma CandidatesStep(c: Checker, abiBefore: map<ClassName, ClassAbi>, abiAfter: map<ClassName, ClassAbi>,
                       reverse: map<ClassName, DG.ClassDependency>, done: set<ClassName>, x: ClassName, affected: set<ClassName>)
    requires LevelsDefined(c, abiBefore, abiAfter, done + {x})
    ensures CandidatesOf(c, abiBefore, abiAfter, reverse, done + {x}, affected) ==
      CandidatesOf(c, abiBefore, abiAfter, reverse, done, affected) +
      (if Level(c, abiBefore, abiAfter, x) != Compatible then DependantsIn(reverse, x) - affected else {})
  {
    var lhs := CandidatesOf(c, abiBefore, abiAfter, reverse, done + {x}, affected);
    var prev := CandidatesOf(c, abiBefore, abiAfter, reverse, done, affected);
    forall d | d in lhs
      ensures d in prev || (Level(c, abiBefore, abiAfter, x) != Compatible && d in DependantsIn(reverse, x) && d !in affected)
    {
      var y :| y in done + {x} && Level(c, abiBefore, abiAfter, y) != Compatible && d in DependantsIn(reverse, y) && d !in affected;
      if y != x {
        assert d in prev;
      }
    }
  }

  /**
   * The dependant pass goes exactly one step along the dependency graph: a class is recompiled
   * when it is not affected itself and its own ABI (after the changed sources are compiled)
   * uses an affected class that is not compatible.
   */
  lemma DependantClassesAreDirectUsers(c: Checker, abiBefore: map<ClassName, ClassAbi>, abiAfter: map<ClassName, ClassAbi>,
                                       affected: set<ClassName>, d: ClassName)
    requires LevelsDefined(c, abiBefore, abiAfter, affected)
    ensures d in DependantClasses(c, abiBefore, abiAfter, affected) <==>
      d !in affected && d in abiAfter &&
      exists x :: x in affected && Level(c, abiBefore, abiAfter, x) != Compatible && x in AllDependencies(abiAfter[d])
  {
    var g := DG.FromAbiMap(abiAfter);
    var reverse := DG.ReverseOf(g.adjacencyMap);
    forall x ensures d in DependantsIn(reverse, x) <==> d in abiAfter && x in AllDependencies(abiAfter[d]) {
      DG.DependantsAreReverseDependencies(g, d, x);
    }
    if d !in affected && d in abiAfter &&
       exists x :: x in affected && Level(c, abiBefore, abiAfter, x) != Compatible && x in AllDependencies(abiAfter[d]) {
      var x :| x in affected && Level(c, abiBefore, abiAfter, x) != Compatible && x in AllDependencies(abiAfter[d]);
      assert d in DependantsIn(reverse, x);
    }
  }

  // ---------------------------------------------------------------- removed and compiled classes

  /** The classes `sourceToClass` lists under any of `sources`. */
  function ClassesOfSources(sourceToClass: map<SourcePath, set<ClassName>>, sources: set<SourcePath>): set<ClassName> {
    set s, c | s in sources && c in ClassesOrEmpty(sourceToClass, s) :: c
  }

  lemma ClassesOfSourcesStep(sourceToClass: map<SourcePath, set<ClassName>>, done: set<SourcePath>, s: SourcePath)
    ensures ClassesOfSources(sourceToClass, done + {s}) == ClassesOfSources(sourceToClass, done) + ClassesOrEmpty(sourceToClass, s)
  {
    var lhs := ClassesOfSources(sourceToClass, done + {s});
    forall c | c in lhs ensures c in ClassesOfSources(sourceToClass, done) || c in ClassesOrEmpty(sourceToClass, s) {
      var t :| t in done + {s} && c in ClassesOrEmpty(sourceToClass, t);
    }
  }

  /** For a class map read from its file, the classes of removed sources are those the file maps to them. */
  lemma ClassesOfSourcesOfReadMap(classToSource: map<ClassName, SourcePath>, sources: set<SourcePath>)
    ensures ClassesOfSources(GroupBySource(classToSource), sources) == set c | c in classToSource && classToSource[c] in sources
  {
    var g := GroupBySource(classToSource);
    GroupBySourceIsInverse(classToSource);
    forall c | c in classToSource && classToSource[c] in sources ensures c in ClassesOfSources(g, sources) {
      assert c in ClassesOrEmpty(g, classToSource[c]);
    }
  }

  /** `qualifiedName.replace('.', '/') + ".class"`: where a class file lies below the class directory. */
  function ClassFilePath(className: ClassName): string {
    ToInternalName(className) + ".class"
  }

  /** The class files of `classes`. */
  function ClassFiles(classes: set<ClassName>): set<string> {
    set c | c in classes :: ClassFilePath(c)
  }

  /** One source of `removeClassesOfSources`: its classes are those of the original registry. */
  lemma RemoveStep(sourceToClass0: map<SourcePath, set<ClassName>>, classToSource0: map<ClassName, SourcePath>,
                   done: set<SourcePath>, s: SourcePath, removed: set<ClassName>)
    requires s !in done && removed == ClassesOfSources(sourceToClass0, done)
    ensures ClassesOrEmpty(sourceToClass0 - done, s) == ClassesOrEmpty(sourceToClass0, s)
    ensures ClassesOfSources(sourceToClass0, done + {s}) == removed + ClassesOrEmpty(sourceToClass0, s)
    ensures (sourceToClass0 - done) - {s} == sourceToClass0 - (done + {s})
    ensures (classToSource0 - removed) - ClassesOrEmpty(sourceToClass0, s) == classToSource0 - (removed + ClassesOrEmpty(sourceToClass0, s))
    ensures forall b :: ClassFiles(removed) + ClassFiles(b) == ClassFiles(removed + b)
  {
    ClassesOfSourcesStep(sourceToClass0, done, s);
  }

  /** Every class any source of `compiled` produced. */
  function CompiledClasses(compiled: map<SourcePath, set<ClassName>>): set<ClassName> {
    CompiledClassesIn(compiled, compiled.Keys)
  }

  function CompiledClassesIn(compiled: map<SourcePath, set<ClassName>>, sources: set<SourcePath>): set<ClassName>
    requires sources <= compiled.Keys
  {
    set s, c | s in sources && c in compiled[s] :: c
  }

  lemma CompiledClassesStep(compiled: map<SourcePath, set<ClassName>>, done: set<SourcePath>, s: SourcePath)
    requires done <= compiled.Keys && s in compiled
    ensures CompiledClassesIn(compiled, done + {s}) == CompiledClassesIn(compiled, done) + compiled[s]
  {
    var lhs := CompiledClassesIn(compiled, done + {s});
    forall c | c in lhs ensures c in CompiledClassesIn(compiled, done) || c in compiled[s] {
      var t :| t in done + {s} && c in compiled[t];
    }
  }

  /**
   * The registry after registering every entry of `compiled` in some order: each source gets
   * exactly its classes, each compiled class points at a source that produced it, and every
   * other class keeps its source.
   */
  ghost predicate Registered(classToSource0: map<ClassName, SourcePath>, sourceToClass0: map<SourcePath, set<ClassName>>,
                             compiled: map<SourcePath, set<ClassName>>,
                             classToSource: map<ClassName, SourcePath>, sourceToClass: map<SourcePath, set<ClassName>>) {
    && sourceToClass == sourceToClass0 + compiled
    && classToSource.Keys == classToSource0.Keys + CompiledClasses(compiled)
    && (forall c :: c in CompiledClasses(compiled) ==> classToSource[c] in compiled && c in compiled[classToSource[c]])
    && (forall c :: c in classToSource0 && c !in CompiledClasses(compiled) ==> classToSource[c] == classToSource0[c])
  }

  /** No class comes out of two sources. */
  ghost predicate ClassesDisjoint(compiled: map<SourcePath, set<ClassName>>) {
    forall s1, s2, c :: s1 in compiled && s2 in compiled && c in compiled[s1] && c in compiled[s2] ==> s1 == s2
  }

  /** Registering a compilation whose sources share no class, into an empty class map, gives a consistent class map. */
  lemma RegisteredFromScratchIsConsistent(compiled: map<SourcePath, set<ClassName>>,
                                          classToSource: map<ClassName, SourcePath>, sourceToClass: map<SourcePath, set<ClassName>>)
    requires ClassesDisjoint(compiled)
    requires Registered(map[], map[], compiled, classToSource, sourceToClass)
    ensures Consistent(classToSource, sourceToClass)
  {
    assert sourceToClass == compiled;
    forall c, s | s in compiled && c in compiled[s] ensures c in classToSource && classToSource[c] == s {
      assert c in CompiledClasses(compiled);
    }
  }

  /** Registering after a removal can keep a class under a source that no longer produces it. */
  lemma RegistrationKeepsStaleClasses()
    ensures var before := map["A" := "a.java", "B" := "a.java"];
      var compiled := map["a.java" := {"A"}];
      forall c2s, s2c :: Registered(before, GroupBySource(before), compiled, c2s, s2c) ==>
        "B" in c2s && c2s["B"] == "a.java" && "B" !in s2c["a.java"]
  {
    var before := map["A" := "a.java", "B" := "a.java"];
    var compiled := map["a.java" := {"A"}];
    forall c2s, s2c | Registered(before, GroupBySource(before), compiled, c2s, s2c)
      ensures "B" in c2s && c2s["B"] == "a.java" && "B" !in s2c["a.java"]
    {
      assert "B" !in CompiledClasses(compiled);
    }
  }

  /**
   * `finalCompilationResult`: the classes of both passes, where the dependant pass's entry
   * replaces the changed pass's entry of the same source; successful only when both passes were.
   */
  function Combine(changed: CompilationResult, dependant: CompilationResult): (r: CompilationResult)
    ensures r.compiledClasses.Keys == changed.compiledClasses.Keys + dependant.compiledClasses.Keys
    ensures forall s :: s in r.compiledClasses ==>
      r.compiledClasses[s] == if s in dependant.compiledClasses then dependant.compiledClasses[s] else changed.compiledClasses[s]
    ensures r.isSuccessful <==> changed.isSuccessful && dependant.isSuccessful
  {
    CompilationResult(changed.compiledClasses + dependant.compiledClasses, changed.isSuccessful && dependant.isSuccessful)
  }

  /** The result reported for an empty change set. */
  function NothingToDo(): CompilationResult {
    CompilationResult(map[], true)
  }

  /** What the compiler is given for a listing. */
  function Elements(files: seq<SourcePath>): set<SourcePath> {
    set f | f in files
  }

  /** The source-to-classes direction once the entries of `done` are registered. */
  ghost predicate SourcesRegisteredUpTo(sourceToClass0: map<SourcePath, set<ClassName>>, compiled: map<SourcePath, set<ClassName>>,
                                        done: set<SourcePath>, sourceToClass: map<SourcePath, set<ClassName>>)
    requires done <= compiled.Keys
  {
    && sourceToClass.Keys == sourceToClass0.Keys + done
    && (forall s :: s in sourceToClass ==> sourceToClass[s] == if s in done then compiled[s] else sourceToClass0[s])
  }

  /** The class-to-source direction once the entries of `done` are registered. */
  ghost predicate ClassesRegisteredUpTo(classToSource0: map<ClassName, SourcePath>, compiled: map<SourcePath, set<ClassName>>,
                                        done: set<SourcePath>, classToSource: map<ClassName, SourcePath>)
    requires done <= compiled.Keys
  {
    && classToSource.Keys == classToSource0.Keys + CompiledClassesIn(compiled, done)
    && (forall c :: c in CompiledClassesIn(compiled, done) ==> classToSource[c] in done && c in compiled[classToSource[c]])
    && (forall c :: c in classToSource0 && c !in CompiledClassesIn(compiled, done) ==> classToSource[c] == classToSource0[c])
  }

  /** `Registered`, for the entries of `done` registered so far. */
  ghost predicate RegisteredUpTo(classToSource0: map<ClassName, SourcePath>, sourceToClass0: map<SourcePath, set<ClassName>>,
                                 compiled: map<SourcePath, set<ClassName>>, done: set<SourcePath>,
                                 classToSource: map<ClassName, SourcePath>, sourceToClass: map<SourcePath, set<ClassName>>)
    requires done <= compiled.Keys
  {
    SourcesRegisteredUpTo(sourceToClass0, compiled, done, sourceToClass) &&
    ClassesRegisteredUpTo(classToSource0, compiled, done, classToSource)
  }

  lemma ClassesRegisterStep(classToSource0: map<ClassName, SourcePath>, compiled: map<SourcePath, set<ClassName>>,
                            done: set<SourcePath>, s: SourcePath, classToSource: map<ClassName, SourcePath>)
    requires done <= compiled.Keys && s in compiled && s !in done
    requires ClassesRegisteredUpTo(classToSource0, compiled, done, classToSource)
    ensures ClassesRegisteredUpTo(classToSource0, compiled, done + {s}, RegisteredClassToSource(classToSource, s, compiled[s]))
  {
    CompiledClassesStep(compiled, done, s);
    var c2s := RegisteredClassToSource(classToSource, s, compiled[s]);
    var all := CompiledClassesIn(compiled, done + {s});
    forall c | c in all ensures c2s[c] in done + {s} && c in compiled[c2s[c]] {
      LookupsAfterRegistration(classToSource, s, compiled[s], c);
    }
    forall c | c in classToSource0 && c !in all ensures c2s[c] == classToSource0[c] {
      LookupsAfterRegistration(classToSource, s, compiled[s], c);
    }
  }

  lemma RegisterStep(classToSource0: map<ClassName, SourcePath>, sourceToClass0: map<SourcePath, set<ClassName>>,
                     compiled: map<SourcePath, set<ClassName>>, done: set<SourcePath>, s: SourcePath,
                     classToSource: map<ClassName, SourcePath>, sourceToClass: map<SourcePath, set<ClassName>>)
    requires done <= compiled.Keys && s in compiled && s !in done
    requires RegisteredUpTo(classToSource0, sourceToClass0, compiled, done, classToSource, sourceToClass)
    ensures RegisteredUpTo(classToSource0, sourceToClass0, compiled, done + {s},
                           RegisteredClassToSource(classToSource, s, compiled[s]), sourceToClass[s := compiled[s]])
  {
    ClassesRegisterStep(classToSource0, compiled, done, s, classToSource);
  }

  lemma RegisteredUpToAll(classToSource0: map<ClassName, SourcePath>, sourceToClass0: map<SourcePath, set<ClassName>>,
                          compiled: map<SourcePath, set<ClassName>>,
                          classToSource: map<ClassName, SourcePath>, sourceToClass: map<SourcePath, set<ClassName>>)
    requires RegisteredUpTo(classToSource0, sourceToClass0, compiled, compiled.Keys, classToSource, sourceToClass)
    ensures Registered(classToSource0, sourceToClass0, compiled, classToSource, sourceToClass)
  {
    assert sourceToClass == sourceToClass0 + compiled;
  }

  /** The forEach over a compilation result, shared by the full and the changed compilation. */
  method RegisterCompiledClasses(classMap: ClassMap, compiled: map<SourcePath, set<ClassName>>)
    modifies classMap
    ensures Registered(old(classMap.classToSource), old(classMap.sourceToClass), compiled, classMap.classToSource, classMap.sourceToClass)
  {
    ghost var c2s0 := classMap.classToSource;
    ghost var s2c0 := classMap.sourceToClass;
    ghost var done: set<SourcePath> := {};
    var todo := compiled.Keys;
    while todo != {}
      invariant todo <= compiled.Keys && done == compiled.Keys - todo
      invariant RegisteredUpTo(c2s0, s2c0, compiled, done, classMap.classToSource, classMap.sourceToClass)
      decreases todo
    {
      var sourceFile :| sourceFile in todo;
      RegisterStep(c2s0, s2c0, compiled, done, sourceFile, classMap.classToSource, classMap.sourceToClass);
      classMap.RegisterSourceClassRelationship(sourceFile, compiled[sourceFile]);
      todo := todo - {sourceFile};
      done := done + {sourceFile};
    }
    RegisteredUpToAll(c2s0, s2c0, compiled, classMap.classToSource, classMap.sourceToClass);
  }

  // ---------------------------------------------------------------- what `compile` returns

  /** A value copy of what `compile` hands back: the class map's two directions and the result. */
  datatype Outcome = Outcome(classToSource: map<ClassName, SourcePath>, sourceToClass: map<SourcePath, set<ClassName>>,
                             result: CompilationResult)

  /** The classes the stored class map assigns to removed sources. */
  function RemovedClasses(m0: map<ClassName, SourcePath>, changed: ChangedSourceSet): set<ClassName> {
    set c | c in m0 && m0[c] in changed.removed
  }

  /** The classes the changed pass compiled, together with the removed ones. */
  function AffectedClasses(compiler: Compiler, m0: map<ClassName, SourcePath>, changed: ChangedSourceSet): set<ClassName> {
    CompiledClasses(compiler(Elements(ListFiles(changed))).compiledClasses) + RemovedClasses(m0, changed)
  }

  /** The checker returns on every class `compile` asks it about, for the class map file as stored. */
  ghost predicate AffectedLevelsDefined(c: Checker, compiler: Compiler, abiBefore: map<ClassName, ClassAbi>,
                                       abiAfter: map<ClassName, ClassAbi>, classMapFile: Option<seq<string>>,
                                       changed: ChangedSourceSet) {
    ReadMap(classMapFile).Success? && ReadMap(classMapFile).value.Some? ==>
      LevelsDefined(c, abiBefore, abiAfter, AffectedClasses(compiler, ReadMap(classMapFile).value.value, changed))
  }

  /** `recompileAll`: the whole listing compiled and registered in an empty class map. */
  ghost predicate RebuiltAll(compiler: Compiler, files: seq<SourcePath>, o: Outcome) {
    o.result == compiler(Elements(files)) &&
    Registered(map[], map[], o.result.compiledClasses, o.classToSource, o.sourceToClass)
  }

  /**
   * What `compile` returns for a non-empty change set, given the class map file as it was:
   * the read error of a malformed file; a full rebuild without a file; otherwise, after the
   * removed sources' classes are forgotten and the changed sources registered, the
   * "Illegal access" error when a dependant class has no source, a full rebuild when some
   * affected class is GLOBALLY_INCOMPATIBLE, and else the registered class map with the results
   * of both passes combined.
   */
  ghost predicate CompileOutcome(c: Checker, compiler: Compiler, files: seq<SourcePath>, changed: ChangedSourceSet,
                                 abiBefore: map<ClassName, ClassAbi>, abiAfter: map<ClassName, ClassAbi>,
                                 classMapFile: Option<seq<string>>, r: Result<Outcome>)
    requires AffectedLevelsDefined(c, compiler, abiBefore, abiAfter, classMapFile, changed)
  {
    match ReadMap(classMapFile)
    case Failure(e) => r == Failure(e)
    case Success(None) => r.Success? && RebuiltAll(compiler, files, r.value)
    case Success(Some(m0)) =>
      var removed := RemovedClasses(m0, changed);
      var changedResult := compiler(Elements(ListFiles(changed)));
      var affected := AffectedClasses(compiler, m0, changed);
      var ds := DependantClasses(c, abiBefore, abiAfter, affected);
      if !(ds <= (m0 - removed).Keys + CompiledClasses(changedResult.compiledClasses)) then r == Failure("Illegal access")
      else if GlobalFound(c, abiBefore, abiAfter, affected) then r.Success? && RebuiltAll(compiler, files, r.value)
      else
        && r.Success?
        && Registered(m0 - removed, GroupBySource(m0) - changed.removed, changedResult.compiledClasses,
                      r.value.classToSource, r.value.sourceToClass)
        && r.value.result == Combine(changedResult, compiler(SourceFilesOf(r.value.classToSource, ds)))
  }

  /** The value copy of a result of `compile`. */
  function OutcomeOf(r: Result<IncrementalResult>): Result<Outcome>
    reads if r.Success? then {r.value.classMap} else {}
  {
    if r.Failure? then Failure(r.error)
    else Success(Outcome(r.value.classMap.classToSource, r.value.classMap.sourceToClass, r.value.result))
  }

  /**
   * How a result of `compile` surfaces from `runCompilation`: an error as that error, a success
   * as its compilation result, with its class map stored.
   */
  ghost predicate StoredOutcome(o: Result<Outcome>, r: Result<CompilationResult>, classMapFile: Option<seq<string>>) {
    && (o.Failure? ==> r == Failure(o.error))
    && (o.Success? ==> r == Success(o.value.result) && classMapFile.Some? && EncodesMap(classMapFile.value, o.value.classToSource))
  }

  /**
   * The class files `compile` deletes: once the class map file reads, those of the classes of the
   * removed sources; otherwise none.
   */
  ghost predicate RemovedClassFilesDeleted(changed: ChangedSourceSet, classMapFile: Option<seq<string>>,
                                           deleted0: set<string>, deleted: set<string>) {
    if ReadMap(classMapFile).Success? && ReadMap(classMapFile).value.Some? then
      deleted == deleted0 + ClassFiles(RemovedClasses(ReadMap(classMapFile).value.value, changed))
    else deleted == deleted0
  }

  /**
   * The class map file as the changed pass leaves it: once the old file reads, the stored map
   * without the removed sources' classes and with the changed sources registered; otherwise the
   * file as it was.
   */
  ghost predicate ChangedPassStored(compiler: Compiler, changed: ChangedSourceSet, classMapFile0: Option<seq<string>>,
                                    classMapFile: Option<seq<string>>) {
    if ReadMap(classMapFile0).Success? && ReadMap(classMapFile0).value.Some? then
      var m0 := ReadMap(classMapFile0).value.value;
      var removed := RemovedClasses(m0, changed);
      && classMapFile.Some?
      && exists c2s, s2c :: Registered(m0 - removed, GroupBySource(m0) - changed.removed,
                                       compiler(Elements(ListFiles(changed))).compiledClasses, c2s, s2c) &&
                            EncodesMap(classMapFile.value, c2s)
    else classMapFile == classMapFile0
  }

  class IncrementalCompilation {
    /** The store of source fingerprints behind the file-changes tracker. */
    const hashStore: SourceHashesFile
    const calcHash: SourcePath -> string
    const checker: Checker
    const classMapStore: ClassMapFile
    const compiler: Compiler
    /** The class files deleted below the class directory so far. */
    var deletedClassFiles: set<string>

    constructor (hashStore: SourceHashesFile, calcHash: SourcePath -> string, checker: Checker,
                 classMapStore: ClassMapFile, compiler: Compiler)
      ensures this.hashStore == hashStore && this.calcHash == calcHash && this.checker == checker
      ensures this.classMapStore == classMapStore && this.compiler == compiler
      ensures deletedClassFiles == {}
    {
      this.hashStore := hashStore;
      this.calcHash := calcHash;
      this.checker := checker;
      this.classMapStore := classMapStore;
      this.compiler := compiler;
      deletedClassFiles := {};
    }

    /** `removeClassesOfSources`: forgets each removed source, deletes its class files and returns its classes. */
    method RemoveClassesOfSources(classMap: ClassMap, sources: set<SourcePath>) returns (removed: set<ClassName>)
      modifies classMap, this`deletedClassFiles
      ensures removed == ClassesOfSources(old(classMap.sourceToClass), sources)
      ensures classMap.sourceToClass == old(classMap.sourceToClass) - sources
      ensures classMap.classToSource == old(classMap.classToSource) - removed
      ensures deletedClassFiles == old(deletedClassFiles) + ClassFiles(removed)
    {
      ghost var s2c0 := classMap.sourceToClass;
      ghost var c2s0 := classMap.classToSource;
      ghost var deleted0 := deletedClassFiles;
      ghost var done: set<SourcePath> := {};
      removed := {};
      var todo := sources;
      while todo != {}
        invariant todo <= sources && done == sources - todo
        invariant removed == ClassesOfSources(s2c0, done)
        invariant classMap.sourceToClass == s2c0 - done
        invariant classMap.classToSource == c2s0 - removed
        invariant deletedClassFiles == deleted0 + ClassFiles(removed)
        decreases todo
      {
        var sourceFile :| sourceFile in todo;
        RemoveStep(s2c0, c2s0, done, sourceFile, removed);
        var classes := classMap.RemoveSourceFile(sourceFile);
        deletedClassFiles := deletedClassFiles + ClassFiles(classes);
        removed := removed + classes;
        todo := todo - {sourceFile};
        done := done + {sourceFile};
      }
    }

    /** `recompileAll`: compiles the whole listing and registers the result in a new class map. */
    method RecompileAll(files: seq<SourcePath>) returns (r: IncrementalResult)
      ensures fresh(r.classMap)
      ensures r.result == compiler(Elements(files))
      ensures Registered(map[], map[], r.result.compiledClasses, r.classMap.classToSource, r.classMap.sourceToClass)
    {
      var compilationResult := compiler(Elements(files));
      var newClassMap := new ClassMap(map[]);
      assert GroupBySource(map[]) == map[];
      RegisterCompiledClasses(newClassMap, compilationResult.compiledClasses);
      return IncrementalResult(newClassMap, compilationResult);
    }

    /** `compileChangedSources`: compiles the added and changed sources, registers them and stores the class map. */
    method CompileChangedSources(classMap: ClassMap, changed: ChangedSourceSet) returns (result: CompilationResult)
      modifies classMap, classMapStore
      ensures result == compiler(Elements(ListFiles(changed)))
      ensures Registered(old(classMap.classToSource), old(classMap.sourceToClass), result.compiledClasses,
                         classMap.classToSource, classMap.sourceToClass)
      ensures classMapStore.file.Some? && EncodesMap(classMapStore.file.value, classMap.classToSource)
    {
      result := compiler(Elements(ListFiles(changed)));
      RegisterCompiledClasses(classMap, result.compiledClasses);
      classMapStore.Write(classMap);
    }

    /** The `sourceFileOf` lookups of the dependant pass; the first unregistered class is an error. */
    method ResolveSources(classMap: ClassMap, classes: set<ClassName>) returns (r: Result<set<SourcePath>>)
      ensures r.Success? <==> classes <= classMap.classToSource.Keys
      ensures r.Failure? ==> r.error == "Illegal access"
      ensures r.Success? ==> r.value == SourceFilesOf(classMap.classToSource, classes)
    {
      var sources: set<SourcePath> := {};
      var todo := classes;
      while todo != {}
        invariant todo <= classes
        invariant classes - todo <= classMap.classToSource.Keys
        invariant sources == SourceFilesOf(classMap.classToSource, classes - todo)
        decreases todo
      {
        var className :| className in todo;
        var source := classMap.SourceFileOf(className);
        if source.Failure? {
          return Failure(source.error);
        }
        ghost var done := classes - todo;
        todo := todo - {className};
        assert classes - todo == done + {className};
        sources := sources + {source.value};
      }
      assert classes - todo == classes;
      return Success(sources);
    }

    /**
     * The stream of `compileDependantSources` before the source lookups: judges each affected
     * class, notes a global incompatibility, and gathers the dependants of the classes that
     * are not compatible, leaving out the affected ones.
     */
    method CollectDependants(abiBefore: map<ClassName, ClassAbi>, abiAfter: map<ClassName, ClassAbi>,
                             reverse: map<ClassName, DG.ClassDependency>, affected: set<ClassName>)
      returns (candidates: set<ClassName>, global: bool)
      requires LevelsDefined(checker, abiBefore, abiAfter, affected)
      ensures candidates == CandidatesOf(checker, abiBefore, abiAfter, reverse, affected, affected)
      ensures global <==> GlobalFound(checker, abiBefore, abiAfter, affected)
    {
      global := false;
      candidates := {};
      var todo := affected;
      while todo != {}
        invariant todo <= affected
        invariant global <==> exists x :: x in affected - todo && Level(checker, abiBefore, abiAfter, x) == GloballyIncompatible
        invariant candidates == CandidatesOf(checker, abiBefore, abiAfter, reverse, affected - todo, affected)
        decreases todo
      {
        var className :| className in todo;
        ghost var done := affected - todo;
        var level := IsClassCompatible(checker, abiBefore, Lookup(abiBefore, className), Lookup(abiAfter, className));
        CandidatesStep(checker, abiBefore, abiAfter, reverse, done, className, affected);
        if level != Compatible {
          global := global || level == GloballyIncompatible;
          candidates := candidates + (DependantsIn(reverse, className) - affected);
        }
        todo := todo - {className};
        assert affected - todo == done + {className};
      }
      assert affected - todo == affected;
    }

    /**
     * `compileDependantSources`: judges every affected class, collects the dependants of the
     * ones that are not compatible, and compiles their sources; `None` asks for a full rebuild.
     * Looking up the sources comes first, so an unregistered dependant is an error even when a
     * full rebuild is due.
     */
    method CompileDependantSources(classMap: ClassMap, abiBefore: map<ClassName, ClassAbi>, abiAfter: map<ClassName, ClassAbi>,
                                   affected: set<ClassName>) returns (r: Result<Option<CompilationResult>>)
      requires LevelsDefined(checker, abiBefore, abiAfter, affected)
      ensures var ds := DependantClasses(checker, abiBefore, abiAfter, affected);
        && (r.Failure? <==> !(ds <= classMap.classToSource.Keys))
        && (r.Failure? ==> r.error == "Illegal access")
        && (r.Success? ==> (r.value.None? <==> GlobalFound(checker, abiBefore, abiAfter, affected)))
        && (r.Success? && r.value.Some? ==> r.value.value == compiler(SourceFilesOf(classMap.classToSource, ds)))
    {
      var graph := DG.FromAbiMap(abiAfter);
      var reverse := DG.BuildReverse(graph.adjacencyMap);
      var candidates, global := CollectDependants(abiBefore, abiAfter, reverse, affected);
      var sources := ResolveSources(classMap, candidates);
      if sources.Failure? {
        return Failure(sources.error);
      }
      if global {
        return Success(None);
      }
      return Success(Some(compiler(sources.value)));
    }

    /**
     * `compile`, for a non-empty change set. With no stored class map everything is compiled
     * again; otherwise the removed sources' classes are forgotten, the changed sources compiled
     * and registered, and the dependants compiled, unless a full rebuild is due.
     */
    method Compile(files: seq<SourcePath>, changed: ChangedSourceSet,
                   abiBefore: map<ClassName, ClassAbi>, abiAfter: map<ClassName, ClassAbi>) returns (r: Result<IncrementalResult>)
      requires AffectedLevelsDefined(checker, compiler, abiBefore, abiAfter, classMapStore.file, changed)
      modifies this`deletedClassFiles, classMapStore
      ensures CompileOutcome(checker, compiler, files, changed, abiBefore, abiAfter, old(classMapStore.file), OutcomeOf(r))
      ensures r.Success? ==> fresh(r.value.classMap)
      ensures !(ReadMap(old(classMapStore.file)).Success? && ReadMap(old(classMapStore.file)).value.Some?) ==>
        classMapStore.file == old(classMapStore.file) && deletedClassFiles == old(deletedClassFiles)
      ensures ReadMap(old(classMapStore.file)).Success? && ReadMap(old(classMapStore.file)).value.Some? ==>
        var m0 := ReadMap(old(classMapStore.file)).value.value;
        var removed := RemovedClasses(m0, changed);
        var changedResult := compiler(Elements(ListFiles(changed)));
        && deletedClassFiles == old(deletedClassFiles) + ClassFiles(removed)
        && classMapStore.file.Some?
        && (exists c2s, s2c :: Registered(m0 - removed, GroupBySource(m0) - changed.removed, changedResult.compiledClasses, c2s, s2c) &&
                             EncodesMap(classMapStore.file.value, c2s))
        && (r.Success? && !GlobalFound(checker, abiBefore, abiAfter, AffectedClasses(compiler, m0, changed)) ==>
              EncodesMap(classMapStore.file.value, r.value.classMap.classToSource))
    {
      var read := classMapStore.Read();
      if read.Failure? {
        return Failure(read.error);
      }
      if read.value.None? {
        var all := RecompileAll(files);
        return Success(all);
      }
      var classMap := read.value.value;
      ghost var m0 := classMap.classToSource;
      ClassesOfSourcesOfReadMap(m0, changed.removed);
      var removedClasses := RemoveClassesOfSources(classMap, changed.removed);
      var changedSourcesResult := CompileChangedSources(classMap, changed);
      ghost var c2s := classMap.classToSource;
      ghost var s2c := classMap.sourceToClass;
      var changedClasses := CompiledClasses(changedSourcesResult.compiledClasses);
      var affectedClasses := changedClasses + removedClasses;
      var dependant := CompileDependantSources(classMap, abiBefore, abiAfter, affectedClasses);
      assert Registered(m0 - removedClasses, GroupBySource(m0) - changed.removed, changedSourcesResult.compiledClasses, c2s, s2c);
      if dependant.Failure? {
        return Failure(dependant.error);
      }
      if dependant.value.None? {
        var all := RecompileAll(files);
        return Success(all);
      }
      var finalCompilationResult := Combine(changedSourcesResult, dependant.value.value);
      return Success(IncrementalResult(classMap, finalCompilationResult));
    }

    /**
     * The body `runCompilation` hands to `withChangedFiles`: an empty change set reports success
     * without compiling and leaves the class map file alone; otherwise the result is that of
     * `compile`, and the class map it returns is stored.
     */
    method CompileChanges(files: seq<SourcePath>, changed: ChangedSourceSet,
                          abiBefore: map<ClassName, ClassAbi>, abiAfter: map<ClassName, ClassAbi>)
      returns (r: Result<CompilationResult>)
      requires !IsEmpty(changed) ==> AffectedLevelsDefined(checker, compiler, abiBefore, abiAfter, classMapStore.file, changed)
      modifies this`deletedClassFiles, classMapStore
      ensures IsEmpty(changed) ==>
        r == Success(NothingToDo()) && classMapStore.file == old(classMapStore.file) &&
        deletedClassFiles == old(deletedClassFiles)
      ensures !IsEmpty(changed) ==>
        exists o :: CompileOutcome(checker, compiler, files, changed, abiBefore, abiAfter, old(classMapStore.file), o) &&
                    StoredOutcome(o, r, classMapStore.file)
      ensures !IsEmpty(changed) ==>
        RemovedClassFilesDeleted(changed, old(classMapStore.file), old(deletedClassFiles), deletedClassFiles)
      ensures !IsEmpty(changed) && r.Failure? ==> ChangedPassStored(compiler, changed, old(classMapStore.file), classMapStore.file)
    {
      if IsEmpty(changed) {
        return Success(NothingToDo());
      }
      ghost var file0 := classMapStore.file;
      var compiled := Compile(files, changed, abiBefore, abiAfter);
      ghost var o := OutcomeOf(compiled);
      assert CompileOutcome(checker, compiler, files, changed, abiBefore, abiAfter, file0, o);
      if compiled.Failure? {
        return Failure(compiled.error);
      }
      classMapStore.Write(compiled.value.classMap);
      assert o.value.classToSource == compiled.value.classMap.classToSource;
      return Success(compiled.value.result);
    }

    /**
     * `runCompilation`: the changes since the stored fingerprints are compiled as
     * `CompileChanges` says; the new fingerprints are stored exactly when the result is
     * successful (an empty change set included), and a failed compilation or an error leaves
     * them as they were.
     */
    method RunCompilation(files: seq<SourcePath>, abiBefore: map<ClassName, ClassAbi>, abiAfter: map<ClassName, ClassAbi>)
      returns (r: Result<CompilationResult>)
      requires hashStore.Read().Success? ==>
        AffectedLevelsDefined(checker, compiler, abiBefore, abiAfter, classMapStore.file, Diff(hashStore.Read().value, files, calcHash))
      modifies this`deletedClassFiles, classMapStore, hashStore
      ensures old(hashStore.Read()).Failure? ==>
        r == Failure(old(hashStore.Read()).error) && classMapStore.file == old(classMapStore.file) &&
        deletedClassFiles == old(deletedClassFiles)
      ensures r.Success? && r.value.isSuccessful ==>
        hashStore.file.Some? && EncodesMap(hashStore.file.value, HashesOf(files, calcHash))
      ensures !(r.Success? && r.value.isSuccessful) ==> hashStore.file == old(hashStore.file)
      ensures old(hashStore.Read()).Success? && IsEmpty(Diff(old(hashStore.Read()).value, files, calcHash)) ==>
        r == Success(NothingToDo()) && classMapStore.file == old(classMapStore.file) &&
        deletedClassFiles == old(deletedClassFiles)
      ensures old(hashStore.Read()).Success? && !IsEmpty(Diff(old(hashStore.Read()).value, files, calcHash)) ==>
        RemovedClassFilesDeleted(Diff(old(hashStore.Read()).value, files, calcHash), old(classMapStore.file),
                                 old(deletedClassFiles), deletedClassFiles)
      ensures old(hashStore.Read()).Success? && !IsEmpty(Diff(old(hashStore.Read()).value, files, calcHash)) && r.Failure? ==>
        ChangedPassStored(compiler, Diff(old(hashStore.Read()).value, files, calcHash), old(classMapStore.file), classMapStore.file)
      ensures old(hashStore.Read()).Success? && !IsEmpty(Diff(old(hashStore.Read()).value, files, calcHash)) ==>
        exists o :: CompileOutcome(checker, compiler, files, Diff(old(hashStore.Read()).value, files, calcHash),
                                   abiBefore, abiAfter, old(classMapStore.file), o) &&
                    StoredOutcome(o, r, classMapStore.file)
    {
      var begun := Begin(hashStore, calcHash);
      if begun.Failure? {
        return Failure(begun.error);
      }
      var tx := begun.value;
      var changedSourceFiles := tx.ListChangedFiles(files);
      r := CompileChanges(files, changedSourceFiles, abiBefore, abiAfter);
      ghost var stored := classMapStore.file;
      if r.Success? && r.value.isSuccessful {
        tx.Commit();
      } else {
        tx.Rollback();
      }
      assert classMapStore.file == stored;
    }
  }
}
