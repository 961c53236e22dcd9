# incomp — a verified model of an incremental Java compiler

`incomp` is an incremental compiler for Java sources written in Kotlin. Between two builds it
works out which sources changed, which classes those sources produced, whether the new class
files are still binary compatible with the old ones (following chapter 13, "Binary
Compatibility", of the Java Language Specification, Java SE 8 Edition), and which other
sources must be compiled again because they use a class whose ABI broke. It keeps three pieces
of state between builds: a fingerprint per source file, a two-way registry between sources and
the classes they produce, and (on a second, timestamp-driven pipeline) a dependency index
between sources.

This project models that decision logic in Dafny and proves what each part promises:

| Dafny module (file) | Kotlin source | what it models |
|---|---|---|
| `Abi` (abi.dfy) | java/abi/ClassAbi.kt | class and member ABIs, type descriptors, modifier bit masks, access levels, member identity maps |
| `CompatibilityLevels` (compatibility_levels.dfy) | java/abi/CombinedAbiCompatibilityChecker.kt | the three severity levels and their order |
| `AbiCompatibilityCases` (abi_compatibility_cases.dfy) | java/abi/AbiCompatibilityCases.kt | every compatibility rule, the field and method loops, the superclass walk `parentsOf` and the two override checks |
| `CombinedChecker` (combined_checker.dfy) | java/abi/CombinedAbiCompatibilityChecker.kt | `isCompatible` over class checks and map checks, and the Java 8 checker |
| `ClassAbiExtractor` (class_abi_extractor.dfy) | java/abi/ClassAbiExtractor.kt | the class-file visitor and `extract` |
| `DependencyGraph` (class_dependency_graph.dfy) | java/ClassDependencyGraph.kt | the adjacency map and its reverse |
| `ClassMapping` (class_map.dfy) | java/ClassMap.kt | the mutable source/class registry |
| `Persistency` (persistency.dfy) | persistency/ClassMapFile.kt, persistency/SourceHashesFile.kt | the `key;value` line files |
| `FileChanges` (file_changes_tracker.dfy) | java/FileChangesTracker.kt | the change listing inside a commit/rollback transaction |
| `IncrementalCompilations` (incremental_compilation.dfy) | java/IncrementalCompilation.kt | one incremental run: removal, changed pass, dependant pass, full-rebuild fallback |
| `CompilationPipeline` (compilation_pipeline.dfy) | common/CompilationPipeline.kt | the generic stateful pipeline and its two source transforms |
| `JavaIncrementalCompilation` (java_incremental_compilation.dfy) | java/JavaIncrementalCompilation.kt | the Java instance of that pipeline: dependency index update, source reader, javac adapter |
| `Wrappers` (wrappers.dfy) | — | `Option` and `Result` |

What the program gets from outside becomes an input of the model:
- the compiler, as a function from a set of sources to its result; javac, as a function from a set of files to diagnostics;
- the ABI snapshots of the class directory, as maps from class name to ABI;
- the class reader's callbacks, as a list of events, and the constant pool, as a list of items;
- the source listing, the fingerprint function, file times, `String.hashCode`, the Java parser and `findSingle`, as parameters;
- a file, as `Option<seq<string>>` (its lines, or `None` when it does not exist).

An exception the program throws is a `Failure` with a message.

Objects whose fields the program updates are classes: `ClassAbiExtractor.AbiExtractor`,
`ClassMapping.ClassMap`, `FileChanges.Transaction`, `Persistency.SourceHashesFile`,
`Persistency.ClassMapFile`, `IncrementalCompilations.IncrementalCompilation`,
`CompilationPipeline.MetadataStore` and `CompilationPipeline.StatefulCompilationPipeline`. Each
explicit loop of the program (`for`, `while`, `repeat`, `forEach`) is a method with loop
invariants, proved against a specification function; the library folds (`associateBy`, `fold`,
`distinctBy`, `mapNotNull`, `filter`, `flatMap`) are recursive functions. The properties are
lemmas about those functions.

Where the code and its comments or documentation disagree, the model follows the code:
- `isExposedConstant` (java/abi/ClassAbiExtractor.kt:41-43) is commented "final static and non-private", but the code tests `STATIC or FINAL`: Kotlin's infix `and` binds tighter than `!=`. The model records a constant when either bit is set (`ClassAbiExtractor.ConstantNeedsStaticOrFinal`).
- The abstract-class rule tests removal before addition and the final-class rule the other way round. The two tests exclude each other, so the order does not matter, and the model states both directions.

## Specification functions

A function that only computes the value the program computes has no contract of its own. Its
behaviour is stated by the lemmas and methods about it, and the "## Model" rows of those members
cite its source lines. The main ones:

- `Persistency.DecodeLines` (`ClassMapFile.kt:17-21`, reading the lines): `DecodeLinesFailsIff`, `LastLineWins`, `ReadAfterWrite`.
- `ClassMapping.GroupBySource` (`ClassMap.kt:12-20`, the `sourceToClass` grouping): `GroupBySourceIsInverse`.
- `FileChanges.Diff` (`FileChangesTracker.kt:33-66`, `listChangedFiles`): `AddedIsNewFiles`, `ChangedIsDifferentHash`, `DiffClassifiesEachFile`, and `Transaction.ListChangedFiles`.
- `DependencyGraph.ReverseOf` and `DependencyGraph.DependantsOf` (`ClassDependencyGraph.kt:13-33`, `:44`, `dependantsOf`): `DependantsAreReverseDependencies`, `DependantsDefinedIffUsed`, `DependantsEntryNotEmpty`, and `BuildReverse`.
- `ClassAbiExtractor.ExtractSpec` (`ClassAbiExtractor.kt:131-157`, `extract`): `AbiExtractor.Extract`, `Assemble`, `ExtractFailsOnlyWithoutHeader`, `ExtractedDependenciesAreSeparate`.
- `AbiCompatibilityCases.Chain` (`AbiCompatibilityCases.kt:236-246`, `parentsOf`): `ChainLinks`, `SelfParentChainDiverges`, `ParentsOf`.
- `IncrementalCompilations.CandidatesOf` and `IncrementalCompilations.DependantClasses` (`IncrementalCompilation.kt:132-162`, `compileDependantSources`): `CollectDependants`, `DependantClassesAreDirectUsers`.
- `CompilationPipeline.FoldResults` (`CompilationPipeline.kt:41-50`, the metadata fold in `compile`): `FoldResultsAppend`, `FoldResultsKeeps`, `FoldIgnoresFailures`.
- `CompilationPipeline.FilterLastModified` (`CompilationPipeline.kt:84-90`, `filterLastModified`): `FilterLastModifiedKeepsStale`, `FilterLastModifiedAppend`.
- `CompilationPipeline.IncludeDependentSources` (`CompilationPipeline.kt:98-102`, `includeDependentSources`): `IncludeDependentSourcesAppend`, `IncludeDependentSourcesMembership`.
- `JavaIncrementalCompilation.UpdateMetadata` (`JavaIncrementalCompilation.kt:73-115`, `updateMetadataWithParser`): `NewUnitDependencies`, `FailedUpdateKeepsMetadata`, `UpdateReplacesDependencies`, `DependantsEntryAfterUpdate`, `UpdateMovesDependants`, `UpdateIsAnyFoldOrder`, `UpdateKeepsReverseIndex`.
- `JavaIncrementalCompilation.Adapted` (`JavaIncrementalCompilation.kt:136-175`, `adaptNativeJavaCompiler`): `AdaptedResultsPerFile`, `AdaptNativeJavaCompiler`.

## Model

| member | source | states |
|---|---|---|
| Abi.ElementTypeOf | src/main/kotlin/java/abi/ClassAbi.kt:24-28 | the element type of a descriptor is not an array and has the same element |
| Abi.ArrayTypeUsesElementType | src/main/kotlin/java/abi/ClassAbi.kt:17-33 | for an array type, `className` and `isPrimitive` are those of its element type |
| Abi.FromInternalNamePointwise | src/main/kotlin/java/abi/ClassAbi.kt:48 | `fromInternalName` keeps the length, turns every '/' into '.' and leaves every other character as it is |
| Abi.FromInternalNameHasNoSlash | src/main/kotlin/java/abi/ClassAbi.kt:48 | a name from `fromInternalName` contains no '/' |
| Abi.ToInternalNamePointwise | src/main/kotlin/java/IncrementalCompilation.kt:180 | the class-file path of a class name turns every '.' into '/' and keeps every other character |
| Abi.InternalNameRoundTrip | src/main/kotlin/java/abi/ClassAbi.kt:44-48 | an internal name without '.' comes back unchanged from `fromInternalName` followed by the class-file path conversion |
| Abi.AllModifiersListed | src/main/kotlin/java/abi/ClassAbi.kt:52-75 | `values()` lists every modifier |
| Abi.ParseModifiers | src/main/kotlin/java/abi/ClassAbi.kt:79-81 | a modifier is in `parse(flags)` exactly when its mask shares a bit with `flags` |
| Abi.SharedBitYieldsSeveralModifiers | src/main/kotlin/java/abi/ClassAbi.kt:58-61 | bit 0x0020 alone yields SUPER, SYNCHRONIZED, OPEN and TRANSITIVE together, and no other modifier |
| Abi.NarrowerIsStrictTotalOrder | src/main/kotlin/java/abi/ClassAbi.kt:85-90 | access levels are strictly and totally ordered PRIVATE < PACKAGE < PROTECTED < PUBLIC, the order the rules' `<` relies on |
| Abi.AccessOf | src/main/kotlin/java/abi/ClassAbi.kt:149-154 | PRIVATE when private is present, else PROTECTED when protected is, else PUBLIC when public is, else PACKAGE; each level exactly under its condition |
| Abi.SignatureIgnoresModifiersAndExceptions | src/main/kotlin/java/abi/ClassAbi.kt:125-141 | a method's identity is its name, argument types and return type: changing modifiers or exceptions keeps it, and two methods share it exactly when those three agree |
| Abi.AssociateBy | src/main/kotlin/java/abi/ClassAbi.kt:109-115 | `associateBy` has every element's key, each entry is an element with that key, and the last element with a key is its entry |
| Abi.AssociateByValueHasKey | src/main/kotlin/java/abi/ClassAbi.kt:109-115 | an entry of `associateBy` is an element of the list and carries its own key |
| Abi.AssociateByAppendFresh | src/main/kotlin/java/abi/ClassAbi.kt:109-115 | appending elements with new keys keeps every earlier entry |
| Abi.FieldsMap | src/main/kotlin/java/abi/ClassAbi.kt:109 | the keys of `fieldsMap` are exactly the field names |
| Abi.MethodsMap | src/main/kotlin/java/abi/ClassAbi.kt:111-113 | the keys of `methodsMap` are exactly the method signatures |
| Abi.ConstantsMap | src/main/kotlin/java/abi/ClassAbi.kt:115 | the keys of `constantsMap` are exactly the constant names |
| Abi.AllDependencies | src/main/kotlin/java/abi/ClassAbi.kt:105 | a class is a dependency exactly when it is exposed or internal |
| CompatibilityLevels.MaxLevel | src/main/kotlin/java/abi/CombinedAbiCompatibilityChecker.kt:26-35 | the combined level is one of the two levels and at least as severe as both |
| CompatibilityLevels.SeverityOrder | src/main/kotlin/java/abi/CombinedAbiCompatibilityChecker.kt:5-9 | COMPATIBLE < INCOMPATIBLE < GLOBALLY_INCOMPATIBLE, and severity tells the levels apart |
| AbiCompatibilityCases.AbstractClasses | src/main/kotlin/java/abi/AbiCompatibilityCases.kt:9-13 | section 13.4.1: INCOMPATIBLE exactly when abstract was added, COMPATIBLE exactly when it was removed, no verdict exactly when it is unchanged |
| AbiCompatibilityCases.FinalClasses | src/main/kotlin/java/abi/AbiCompatibilityCases.kt:18-22 | section 13.4.2: INCOMPATIBLE exactly when final was added, COMPATIBLE exactly when removed, no verdict when unchanged |
| AbiCompatibilityCases.PublicClasses | src/main/kotlin/java/abi/AbiCompatibilityCases.kt:27-31 | section 13.4.3: INCOMPATIBLE exactly when public was removed, COMPATIBLE exactly when added, no verdict when unchanged |
| AbiCompatibilityCases.ClassFlagRulesUndo | src/main/kotlin/java/abi/AbiCompatibilityCases.kt:9-31 | a class compared with itself gets no flag verdict, and a flag change that breaks in one direction is compatible in the other |
| AbiCompatibilityCases.SuperclassesAndSuperinterfaces | src/main/kotlin/java/abi/AbiCompatibilityCases.kt:45-49 | section 13.4.4: a verdict exactly when the superclass or the interface list differs, and then INCOMPATIBLE |
| AbiCompatibilityCases.InterfaceOrderMatters | src/main/kotlin/java/abi/AbiCompatibilityCases.kt:47 | reordering the interface list alone is INCOMPATIBLE |
| AbiCompatibilityCases.AccessToFields | src/main/kotlin/java/abi/AbiCompatibilityCases.kt:85-90 | section 13.4.7: INCOMPATIBLE exactly when the field's access narrows, never GLOBALLY_INCOMPATIBLE |
| AbiCompatibilityCases.StaticFieldChange | src/main/kotlin/java/abi/AbiCompatibilityCases.kt:95-99 | section 13.4.8: INCOMPATIBLE exactly when static is toggled in either direction |
| AbiCompatibilityCases.FinalFieldChange | src/main/kotlin/java/abi/AbiCompatibilityCases.kt:104-108 | section 13.4.9: INCOMPATIBLE exactly when final is added; removing it is COMPATIBLE |
| AbiCompatibilityCases.ConstantsChange | src/main/kotlin/java/abi/AbiCompatibilityCases.kt:113-120 | GLOBALLY_INCOMPATIBLE exactly when some old constant is missing or has another value hash, otherwise COMPATIBLE |
| AbiCompatibilityCases.AddingConstantsIsCompatible | src/main/kotlin/java/abi/AbiCompatibilityCases.kt:113-120 | adding constants with new names is COMPATIBLE |
| AbiCompatibilityCases.FirstBreaking | src/main/kotlin/java/abi/AbiCompatibilityCases.kt:69-76 | the inner check loop yields the first INCOMPATIBLE or GLOBALLY_INCOMPATIBLE result, and nothing exactly when no check breaks |
| AbiCompatibilityCases.RunChecks | src/main/kotlin/java/abi/AbiCompatibilityCases.kt:69-76 | the early-return loop over the checks computes that first breaking result |
| AbiCompatibilityCases.FieldsCompatibility | src/main/kotlin/java/abi/AbiCompatibilityCases.kt:54-80 | the loop returns INCOMPATIBLE when a non-private field was removed, otherwise the field scan's verdict |
| AbiCompatibilityCases.FieldsScanIsFirstBreakingResult | src/main/kotlin/java/abi/AbiCompatibilityCases.kt:66-79 | the scan is COMPATIBLE exactly when no retained non-private field has a breaking check, and otherwise is the breaking result of such a field |
| AbiCompatibilityCases.FieldsScanNotGlobal | src/main/kotlin/java/abi/AbiCompatibilityCases.kt:66-77 | checks that never say GLOBALLY_INCOMPATIBLE give a scan that never does |
| AbiCompatibilityCases.PrivateFieldsAreNotChecked | src/main/kotlin/java/abi/AbiCompatibilityCases.kt:68 | dropping the private fields of `old` does not change the scan |
| AbiCompatibilityCases.Java8FieldChecksBreakIff | src/main/kotlin/java/abi/CombinedAbiCompatibilityChecker.kt:60-67 | under the Java 8 field checks a retained field breaks exactly when access narrows, static toggles or final is added, never globally |
| AbiCompatibilityCases.MethodsCompatibility | src/main/kotlin/java/abi/AbiCompatibilityCases.kt:138-166 | section 13.4.12: INCOMPATIBLE when a non-private method other than `<clinit>` was removed, otherwise the method scan's verdict |
| AbiCompatibilityCases.MethodsScanIsFirstBreakingResult | src/main/kotlin/java/abi/AbiCompatibilityCases.kt:152-165 | the scan is COMPATIBLE exactly when no retained non-private method has a breaking check, and otherwise is the breaking result of such a method |
| AbiCompatibilityCases.MethodsScanNotGlobal | src/main/kotlin/java/abi/AbiCompatibilityCases.kt:152-163 | checks that never say GLOBALLY_INCOMPATIBLE give a scan that never does |
| AbiCompatibilityCases.PrivateMethodsAreNotChecked | src/main/kotlin/java/abi/AbiCompatibilityCases.kt:154 | dropping the private methods of `old` does not change the scan |
| AbiCompatibilityCases.AccessToMethods | src/main/kotlin/java/abi/AbiCompatibilityCases.kt:171-176 | section 13.4.12: INCOMPATIBLE exactly when the method's access narrows |
| AbiCompatibilityCases.MethodSignatureChange | src/main/kotlin/java/abi/AbiCompatibilityCases.kt:182-188 | sections 13.4.14-15: COMPATIBLE exactly when name, return type and arguments agree |
| AbiCompatibilityCases.SignatureCheckPassesOnMatchedMethods | src/main/kotlin/java/abi/AbiCompatibilityCases.kt:153 | a method matched by its signature always passes the signature check |
| AbiCompatibilityCases.AbstractMethodChange | src/main/kotlin/java/abi/AbiCompatibilityCases.kt:193-197 | section 13.4.16: INCOMPATIBLE exactly when abstract is added |
| AbiCompatibilityCases.FinalMethodChange | src/main/kotlin/java/abi/AbiCompatibilityCases.kt:202-206 | section 13.4.17: INCOMPATIBLE exactly when final is added to a method that was not static |
| AbiCompatibilityCases.StaticMethodChange | src/main/kotlin/java/abi/AbiCompatibilityCases.kt:211-215 | section 13.4.19: INCOMPATIBLE exactly when static is toggled |
| AbiCompatibilityCases.StaticToggle | src/main/kotlin/java/abi/AbiCompatibilityCases.kt:95-99 | the one comparison both static checks make: INCOMPATIBLE exactly when `static` is in one modifier set and not the other |
| AbiCompatibilityCases.Java8MethodChecksNeverGlobal | src/main/kotlin/java/abi/CombinedAbiCompatibilityChecker.kt:68-77 | the Java 8 method checks never say GLOBALLY_INCOMPATIBLE |
| AbiCompatibilityCases.Java8MethodChecksBreakIff | src/main/kotlin/java/abi/CombinedAbiCompatibilityChecker.kt:68-77 | a matched method breaks exactly when access narrows, abstract is added, final is added to a non-static method or static toggles |
| AbiCompatibilityCases.ChainLinks | src/main/kotlin/java/abi/AbiCompatibilityCases.kt:236-246 | the walk starts at the looked-up class, goes from each class to the map entry of its superclass, and stops at the first superclass missing from the map |
| AbiCompatibilityCases.SelfParentChainDiverges | src/main/kotlin/java/abi/AbiCompatibilityCases.kt:240-243 | a class that is its own superclass makes the walk endless |
| AbiCompatibilityCases.ParentsOf | src/main/kotlin/java/abi/AbiCompatibilityCases.kt:236-246 | the `while` loop collects exactly that chain |
| AbiCompatibilityCases.FieldOverrideVerdict | src/main/kotlin/java/abi/AbiCompatibilityCases.kt:122-133 | COMPATIBLE without walking the chain when no field was added; otherwise INCOMPATIBLE exactly when an added field's name is declared by a class on the superclass chain of `old`; never GLOBALLY_INCOMPATIBLE |
| AbiCompatibilityCases.NewFieldThatOverrides | src/main/kotlin/java/abi/AbiCompatibilityCases.kt:122-133 | the loop with early return computes that verdict; the chain must end only when a field was added |
| AbiCompatibilityCases.MethodOverrideVerdict | src/main/kotlin/java/abi/AbiCompatibilityCases.kt:217-228 | COMPATIBLE without walking the chain when no method was added; otherwise INCOMPATIBLE exactly when an added method's signature is declared by a class on the superclass chain; never GLOBALLY_INCOMPATIBLE |
| AbiCompatibilityCases.NewMethodThatOverrides | src/main/kotlin/java/abi/AbiCompatibilityCases.kt:217-228 | the loop with early return computes that verdict; the chain must end only when a method was added |
| CombinedChecker.LevelsIsMostSevere | src/main/kotlin/java/abi/CombinedAbiCompatibilityChecker.kt:25-50 | the folded level is GLOBALLY_INCOMPATIBLE exactly when some result is, INCOMPATIBLE exactly when none is global and some is incompatible; `null` results count as nothing |
| CombinedChecker.LevelsAppend | src/main/kotlin/java/abi/CombinedAbiCompatibilityChecker.kt:25-50 | folding two runs of results one after the other is the more severe of the two folds |
| CombinedChecker.ClassResults | src/main/kotlin/java/abi/CombinedAbiCompatibilityChecker.kt:27-28 | one result per class check, in order |
| CombinedChecker.MapResults | src/main/kotlin/java/abi/CombinedAbiCompatibilityChecker.kt:38-39 | one result per map check, in order |
| CombinedChecker.RunClassChecks | src/main/kotlin/java/abi/CombinedAbiCompatibilityChecker.kt:26-36 | the first loop, stopping at GLOBALLY_INCOMPATIBLE, yields the most severe class-check result |
| CombinedChecker.RunMapChecks | src/main/kotlin/java/abi/CombinedAbiCompatibilityChecker.kt:38-47 | the second loop yields the more severe of the level reached so far and the map-check results |
| CombinedChecker.IsCompatible | src/main/kotlin/java/abi/CombinedAbiCompatibilityChecker.kt:25-50 | `isCompatible` computes the verdict; the map checks run only when the class checks did not already say GLOBALLY_INCOMPATIBLE |
| CombinedChecker.VerdictIsMostSevereResult | src/main/kotlin/java/abi/CombinedAbiCompatibilityChecker.kt:25-50 | stopping early does not change the verdict: it is the most severe of all results, and COMPATIBLE exactly when no check breaks |
| CombinedChecker.Java8ClassResults | src/main/kotlin/java/abi/CombinedAbiCompatibilityChecker.kt:54-78 | the Java 8 class checks run abstract, final, public, supertypes, constants, fields and methods, in that order |
| CombinedChecker.Java8MapResults | src/main/kotlin/java/abi/CombinedAbiCompatibilityChecker.kt:80-83 | with a finite superclass chain the map checks are the field and then the method override verdicts |
| CombinedChecker.Java8MapChecksDefinedIff | src/main/kotlin/java/abi/CombinedAbiCompatibilityChecker.kt:80-83 | the two override checks return exactly when nothing was added or the superclass chain ends; with an added member on a cyclic chain `parentsOf` never returns |
| CombinedChecker.Java8FieldsNeverGlobal | src/main/kotlin/java/abi/CombinedAbiCompatibilityChecker.kt:60-67 | the Java 8 field check never says GLOBALLY_INCOMPATIBLE |
| CombinedChecker.Java8MethodsNeverGlobal | src/main/kotlin/java/abi/CombinedAbiCompatibilityChecker.kt:68-77 | the Java 8 method check never says GLOBALLY_INCOMPATIBLE |
| CombinedChecker.Java8GlobalIffConstantChanged | src/main/kotlin/java/abi/CombinedAbiCompatibilityChecker.kt:53-89 | the Java 8 checker says GLOBALLY_INCOMPATIBLE exactly when a constant was removed or changed its value |
| CombinedChecker.UnchangedFieldsAreCompatible | src/main/kotlin/java/abi/CombinedAbiCompatibilityChecker.kt:60-67 | an unchanged class with distinct field names passes the field check |
| CombinedChecker.UnchangedMethodsAreCompatible | src/main/kotlin/java/abi/CombinedAbiCompatibilityChecker.kt:68-77 | an unchanged class with distinct method signatures passes the method check |
| CombinedChecker.UnchangedClassChecksPass | src/main/kotlin/java/abi/CombinedAbiCompatibilityChecker.kt:54-78 | for an unchanged class the flag checks give no verdict and the others give COMPATIBLE |
| CombinedChecker.UnchangedMapChecksPass | src/main/kotlin/java/abi/CombinedAbiCompatibilityChecker.kt:80-83 | an unchanged class adds no member, so both override checks give COMPATIBLE whatever its superclass chain |
| CombinedChecker.UnchangedClassIsCompatible | src/main/kotlin/java/abi/CombinedAbiCompatibilityChecker.kt:53-89 | the Java 8 checker returns on an unchanged class and finds it COMPATIBLE, cyclic chain or not |
| CombinedChecker.PrivateFieldChangesPass | src/main/kotlin/java/abi/AbiCompatibilityCases.kt:54-80 | when every non-private field of `old` reappears unchanged under its name, all Java 8 field checks give COMPATIBLE |
| CombinedChecker.PrivateMethodChangesPass | src/main/kotlin/java/abi/AbiCompatibilityCases.kt:138-166 | when every non-private method of `old` reappears unchanged under its signature, all Java 8 method checks give COMPATIBLE |
| CombinedChecker.PrivateChangesAreCompatible | src/main/kotlin/java/abi/CombinedAbiCompatibilityChecker.kt:53-89 | a class with the same modifiers, superclass, interfaces and constants, whose non-private members all reappear unchanged and whose added members are declared nowhere on its superclass chain, is COMPATIBLE |
| ClassAbiExtractor.DependencyNamesMembership | src/main/kotlin/java/abi/ClassAbiExtractor.kt:27-30 | a name is a dependency of some types exactly when a non-primitive one of them has it and it does not start with "java." |
| ClassAbiExtractor.DependencyNamesAppend | src/main/kotlin/java/abi/ClassAbiExtractor.kt:27-30 | the filter works type by type: the names of two lists are the union of their names |
| ClassAbiExtractor.ObjectType | src/main/kotlin/java/abi/ClassAbiExtractor.kt:60-61 | the object type of an internal name is not primitive and names the class `fromInternalName` gives |
| ClassAbiExtractor.ConstantNeedsStaticOrFinal | src/main/kotlin/java/abi/ClassAbiExtractor.kt:42-43 | static alone or final alone makes a non-private field an exposed constant; no flag of the two, or private, does not |
| ClassAbiExtractor.AbiExtractor.constructor | src/main/kotlin/java/abi/ClassAbiExtractor.kt:8-19 | a new visitor has no header and empty lists and sets |
| ClassAbiExtractor.AbiExtractor.AddDependencies | src/main/kotlin/java/abi/ClassAbiExtractor.kt:25-37 | the types' names go to `internal` under ACC_PRIVATE and to `exposed` otherwise, and the other set is untouched |
| ClassAbiExtractor.AbiExtractor.Visit | src/main/kotlin/java/abi/ClassAbiExtractor.kt:46-62 | the header fields are set from the call, the member lists kept, and the superclass and interfaces added as dependencies |
| ClassAbiExtractor.AbiExtractor.AddHeaderDependencies | src/main/kotlin/java/abi/ClassAbiExtractor.kt:60-61 | the superclass and then each interface are added as dependencies |
| ClassAbiExtractor.AbiExtractor.AddEachDependency | src/main/kotlin/java/abi/ClassAbiExtractor.kt:61 | one `addDependencies` call per interface adds the names of them all |
| ClassAbiExtractor.AbiExtractor.VisitField | src/main/kotlin/java/abi/ClassAbiExtractor.kt:64-90 | the field is appended, private or not; a constant with the value's hash is appended exactly for an exposed constant with a value; the type is a dependency |
| ClassAbiExtractor.AbiExtractor.VisitMethod | src/main/kotlin/java/abi/ClassAbiExtractor.kt:100-128 | the method is appended with its exceptions; only its argument and return types are dependencies |
| ClassAbiExtractor.AbiExtractor.Accept | src/main/kotlin/java/abi/ClassAbiExtractor.kt:133 | after each reader callback the visitor's state is what the events so far determine |
| ClassAbiExtractor.AbiExtractor.Extract | src/main/kotlin/java/abi/ClassAbiExtractor.kt:131-157 | `extract` returns the ABI the events and the constant pool determine |
| ClassAbiExtractor.LastHeader | src/main/kotlin/java/abi/ClassAbiExtractor.kt:54-58 | the header the visitor keeps is a header event (the last one) |
| ClassAbiExtractor.DependenciesOfMembership | src/main/kotlin/java/abi/ClassAbiExtractor.kt:32-36 | a name is exposed (internal) by the events exactly when some non-private (private) event uses it |
| ClassAbiExtractor.ClassEntriesMembership | src/main/kotlin/java/abi/ClassAbiExtractor.kt:169-176 | a type comes from the constant pool exactly when an item with positive offset and tag 7 carries it |
| ClassAbiExtractor.ReadClassesFromConstantPool | src/main/kotlin/java/abi/ClassAbiExtractor.kt:164-179 | the `repeat` loop collects exactly the class entries, in pool order |
| ClassAbiExtractor.Assemble | src/main/kotlin/java/abi/ClassAbiExtractor.kt:134-156 | fails on a missing name, then version, then modifiers, with the matching message; else `exposed` is the exposed set without the class and `internal` the internal and pool names without the class and without exposed names |
| ClassAbiExtractor.ExtractFailsOnlyWithoutHeader | src/main/kotlin/java/abi/ClassAbiExtractor.kt:134 | extraction fails exactly when `visit` was never called, with the class-name error |
| ClassAbiExtractor.ExtractedDependenciesAreSeparate | src/main/kotlin/java/abi/ClassAbiExtractor.kt:141-143 | exposed and internal are disjoint, neither has the class itself, and no dependency starts with "java." |
| ClassAbiExtractor.NonPrivateUseIsExposed | src/main/kotlin/java/abi/ClassAbiExtractor.kt:32-33 | a non-JDK class a non-private member uses is exposed |
| ClassAbiExtractor.PrivateOnlyUseIsInternal | src/main/kotlin/java/abi/ClassAbiExtractor.kt:142 | a class only private members use is internal and not exposed |
| ClassAbiExtractor.PoolClassIsInternal | src/main/kotlin/java/abi/ClassAbiExtractor.kt:137-142 | a non-JDK class of the constant pool that is not exposed is internal |
| ClassAbiExtractor.ConstantsOfFieldEvents | src/main/kotlin/java/abi/ClassAbiExtractor.kt:72-78 | every constant comes from an exposed constant field with a value, carrying that value's hash, and there are no more constants than fields |
| DependencyGraph.All | src/main/kotlin/java/ClassDependencyGraph.kt:39 | `all` is the union of internal and exposed |
| DependencyGraph.TargetsMembership | src/main/kotlin/java/ClassDependencyGraph.kt:16-25 | a class gets a reverse entry exactly when some class depends on it |
| DependencyGraph.AddInternalDependant | src/main/kotlin/java/ClassDependencyGraph.kt:17-20 | the first inner loop adds the class to the internal dependants of each of its internal dependencies, creating missing entries |
| DependencyGraph.AddExposedDependant | src/main/kotlin/java/ClassDependencyGraph.kt:21-24 | the second inner loop does the same for the exposed dependencies |
| DependencyGraph.BuildReverse | src/main/kotlin/java/ClassDependencyGraph.kt:13-33 | the nested loops build exactly the reverse of the adjacency map |
| DependencyGraph.DependenciesOf | src/main/kotlin/java/ClassDependencyGraph.kt:42 | the adjacency entry of a known class, `null` for an unknown one |
| DependencyGraph.FromAbiMap | src/main/kotlin/java/ClassDependencyGraph.kt:47-50 | one entry per ABI, holding its internal and exposed sets |
| DependencyGraph.DependantsAreReverseDependencies | src/main/kotlin/java/ClassDependencyGraph.kt:13-33 | c is an internal (exposed) dependant of d exactly when d is an internal (exposed) dependency of c |
| DependencyGraph.DependantsDefinedIffUsed | src/main/kotlin/java/ClassDependencyGraph.kt:44 | `dependantsOf(d)` is non-null exactly when some class depends on d |
| DependencyGraph.DependantsEntryNotEmpty | src/main/kotlin/java/ClassDependencyGraph.kt:16-25 | a reverse entry always names some dependant |
| DependencyGraph.ReverseKeysNeedNotBeClasses | src/main/kotlin/java/ClassDependencyGraph.kt:16-25 | a dependency that is not a known class still gets dependants |
| ClassMapping.GroupBySourceIsInverse | src/main/kotlin/java/ClassMap.kt:12-20 | the grouped direction is the exact inverse of the class-to-source map and holds no empty set |
| ClassMapping.RemovePreservesConsistency | src/main/kotlin/java/ClassMap.kt:27-33 | removing a source keeps two directions that agreed in agreement |
| ClassMapping.RegisterFreshPreservesConsistency | src/main/kotlin/java/ClassMap.kt:35-38 | registering new classes under a new source keeps the directions in agreement |
| ClassMapping.RegisterCanDrift | src/main/kotlin/java/ClassMap.kt:35-38 | re-registering a source with fewer classes leaves the dropped class pointing at it: the directions disagree |
| ClassMapping.TakeOverCanDrift | src/main/kotlin/java/ClassMap.kt:35-38 | a class taken over by another source stays in its former source's set |
| ClassMapping.ClassMap.constructor | src/main/kotlin/java/ClassMap.kt:5-20 | the class-to-source map is `init` and the source-to-classes map is its grouping |
| ClassMapping.ClassMap.SerialiseToMap | src/main/kotlin/java/ClassMap.kt:22 | exactly the class-to-source direction |
| ClassMapping.ClassMap.ClassesOf | src/main/kotlin/java/ClassMap.kt:24 | the classes of a registered source, the "Illegal access" error for any other |
| ClassMapping.ClassMap.SourceFileOf | src/main/kotlin/java/ClassMap.kt:25 | the source of a registered class, the "Illegal access" error for any other |
| ClassMapping.ClassMap.RemoveSourceFile | src/main/kotlin/java/ClassMap.kt:27-33 | returns the source's classes (none for an unknown source) and removes the source and those classes, nothing else |
| ClassMapping.ClassMap.RegisterSourceClassRelationship | src/main/kotlin/java/ClassMap.kt:35-38 | every given class points at the source, the source maps to exactly those classes, everything else is unchanged |
| ClassMapping.LookupsAfterConstruction | src/main/kotlin/java/ClassMap.kt:8-20 | after construction `classesOf(s)` holds c exactly when `init[c] == s`, and a source is known exactly when some class maps to it |
| ClassMapping.LookupsAfterRegistration | src/main/kotlin/java/ClassMap.kt:35-38 | after registration each given class answers the source, and every other class keeps its answer |
| Persistency.Split | src/main/kotlin/persistency/ClassMapFile.kt:19 | `split` always yields at least one piece |
| Persistency.SplitCount | src/main/kotlin/persistency/ClassMapFile.kt:19 | one piece more than there are separators |
| Persistency.SplitPiecesAreSeparatorFree | src/main/kotlin/persistency/ClassMapFile.kt:19 | no piece contains the separator |
| Persistency.SplitJoin | src/main/kotlin/persistency/ClassMapFile.kt:19 | joining the pieces with the separator gives the line back |
| Persistency.SplitWithoutSeparator | src/main/kotlin/persistency/ClassMapFile.kt:19 | a line without separator is its own only piece |
| Persistency.SplitAfterPrefix | src/main/kotlin/persistency/ClassMapFile.kt:19 | a separator-free prefix followed by the separator is the first piece |
| Persistency.DecodeLine | src/main/kotlin/persistency/ClassMapFile.kt:19-20 | a line decodes exactly when it contains ';' |
| Persistency.DecodeEncode | src/main/kotlin/persistency/ClassMapFile.kt:19-29 | a `k;v` line without further ';' decodes to (k, v) |
| Persistency.DecodeIgnoresExtraPieces | src/main/kotlin/persistency/ClassMapFile.kt:19 | pieces after the second are ignored |
| Persistency.DecodeLinesFailsIff | src/main/kotlin/persistency/ClassMapFile.kt:17-21 | reading fails exactly when some line has no ';' |
| Persistency.LastLineWins | src/main/kotlin/persistency/ClassMapFile.kt:18-21 | of two lines with one key the later one wins |
| Persistency.EncodeLines | src/main/kotlin/persistency/ClassMapFile.kt:28-30 | the writer loop emits exactly one `k;v` line per entry |
| Persistency.DecodeEncodedLines | src/main/kotlin/persistency/ClassMapFile.kt:14-31 | lines that each encode an entry of a separator-free map read back as a part of that map holding every encoded key |
| Persistency.ReadAfterWrite | src/main/kotlin/persistency/SourceHashesFile.kt:11-23 | reading what `write` produced gives the map back when no key or value contains ';' |
| Persistency.ReadMap | src/main/kotlin/persistency/SourceHashesFile.kt:11-17 | `null` for a missing file; otherwise the decoded lines, failing exactly when decoding does |
| Persistency.SourceHashesFile.constructor | src/main/kotlin/persistency/SourceHashesFile.kt:8-10 | the store holds the given file |
| Persistency.SourceHashesFile.Write | src/main/kotlin/persistency/SourceHashesFile.kt:19-23 | the file is replaced by exactly one `path;hash` line per entry |
| Persistency.ClassMapFile.constructor | src/main/kotlin/persistency/ClassMapFile.kt:11-13 | the store holds the given file |
| Persistency.ClassMapFile.Read | src/main/kotlin/persistency/ClassMapFile.kt:14-23 | `null` without a file, the decoding error for a bad line, else a new class map built from the decoded lines |
| Persistency.ClassMapFile.Write | src/main/kotlin/persistency/ClassMapFile.kt:25-32 | the file is replaced by exactly one line per entry of `serialiseToMap` |
| FileChanges.ListFiles | src/main/kotlin/java/FileChangesTracker.kt:86 | `listFiles` holds the added and the changed files |
| FileChanges.HashesOf | src/main/kotlin/java/FileChangesTracker.kt:50-55 | the new snapshot maps exactly the listed files to their current fingerprints |
| FileChanges.AddedIsNewFiles | src/main/kotlin/java/FileChangesTracker.kt:46-64 | a file is added exactly when it is listed and has no stored fingerprint |
| FileChanges.ChangedIsDifferentHash | src/main/kotlin/java/FileChangesTracker.kt:46-64 | a file is changed exactly when it is listed and its stored fingerprint differs from the current one |
| FileChanges.DiffClassifiesEachFile | src/main/kotlin/java/FileChangesTracker.kt:46-66 | as the two above; no file is both added and changed; removed are exactly the stored paths no longer listed |
| FileChanges.DiffWithoutSnapshot | src/main/kotlin/java/FileChangesTracker.kt:35-44 | with no snapshot every listed file is added and nothing is removed |
| FileChanges.DiffAgainstOwnSnapshotIsEmpty | src/main/kotlin/java/FileChangesTracker.kt:46-66 | a listing compared with its own fingerprints has no change |
| FileChanges.Transaction.constructor | src/main/kotlin/java/FileChangesTracker.kt:18-23 | the candidate snapshot starts as the given one |
| FileChanges.Transaction.ListChangedFiles | src/main/kotlin/java/FileChangesTracker.kt:33-75 | reports the diff against the current candidate, which becomes the listing's fingerprints, so a second call compares with the first call's |
| FileChanges.Transaction.Commit | src/main/kotlin/java/FileChangesTracker.kt:25-27 | writes the candidate when there is one, otherwise leaves the file alone |
| FileChanges.Transaction.Rollback | src/main/kotlin/java/FileChangesTracker.kt:29-31 | drops the candidate, so a later commit writes nothing |
| FileChanges.Begin | src/main/kotlin/java/FileChangesTracker.kt:11-16 | a transaction over the stored snapshot, or the read error of a malformed file |
| IncrementalCompilations.IsClassCompatible | src/main/kotlin/java/IncrementalCompilation.kt:164-176 | an added class or two absent ones are COMPATIBLE, a removed class is GLOBALLY_INCOMPATIBLE with constants and INCOMPATIBLE without, otherwise the checker decides |
| IncrementalCompilations.Java8GlobalIffConstantLost | src/main/kotlin/java/IncrementalCompilation.kt:164-176 | with the Java 8 rules a class asks for a full rebuild exactly when it vanished with constants or lost or changed a constant |
| IncrementalCompilations.DependantClassesAreDirectUsers | src/main/kotlin/java/IncrementalCompilation.kt:139-155 | one hop: a class is recompiled exactly when it is not affected and its new ABI uses an affected class that is not COMPATIBLE |
| IncrementalCompilations.ClassesOfSourcesOfReadMap | src/main/kotlin/java/IncrementalCompilation.kt:43-58 | for a class map read from its file, the classes of removed sources are exactly those the file assigns to them |
| IncrementalCompilations.RegisteredFromScratchIsConsistent | src/main/kotlin/java/IncrementalCompilation.kt:106-118 | registering a compilation into an empty class map gives agreeing directions when no class comes from two sources |
| IncrementalCompilations.RegistrationKeepsStaleClasses | src/main/kotlin/java/IncrementalCompilation.kt:120-130 | registering after a change can leave a class under a source that no longer produces it |
| IncrementalCompilations.Combine | src/main/kotlin/java/IncrementalCompilation.kt:68-71 | classes of both passes with the dependant pass's entries winning, successful exactly when both passes were |
| IncrementalCompilations.RegisterCompiledClasses | src/main/kotlin/java/IncrementalCompilation.kt:110-112 | after the forEach each compiled source maps to its classes, each compiled class to a source that produced it, every other class keeps its source |
| IncrementalCompilations.IncrementalCompilation.constructor | src/main/kotlin/java/IncrementalCompilation.kt:8-14 | the collaborators are the given ones and no class file has been deleted |
| IncrementalCompilations.IncrementalCompilation.RemoveClassesOfSources | src/main/kotlin/java/IncrementalCompilation.kt:99-104 | returns the classes of the removed sources, drops those sources and classes from the class map, and deletes their class files |
| IncrementalCompilations.IncrementalCompilation.RecompileAll | src/main/kotlin/java/IncrementalCompilation.kt:106-118 | compiles the whole listing and registers the result in a new class map |
| IncrementalCompilations.IncrementalCompilation.CompileChangedSources | src/main/kotlin/java/IncrementalCompilation.kt:120-130 | compiles the added and changed sources, registers them and stores the class map at once |
| IncrementalCompilations.IncrementalCompilation.ResolveSources | src/main/kotlin/java/IncrementalCompilation.kt:150-154 | the sources of the classes, or "Illegal access" exactly when one of them is unregistered |
| IncrementalCompilations.IncrementalCompilation.CollectDependants | src/main/kotlin/java/IncrementalCompilation.kt:139-149 | gathers the non-affected dependants of non-compatible affected classes, and notes whether some affected class is GLOBALLY_INCOMPATIBLE |
| IncrementalCompilations.IncrementalCompilation.CompileDependantSources | src/main/kotlin/java/IncrementalCompilation.kt:132-162 | an unregistered dependant is an error; a global incompatibility gives `null`; otherwise the sources of the dependant classes are compiled |
| IncrementalCompilations.IncrementalCompilation.Compile | src/main/kotlin/java/IncrementalCompilation.kt:38-76 | the result is `CompileOutcome` of the stored class map file: its read error; without a file, or on a global incompatibility, everything compiled and registered in a fresh class map; an unregistered dependant is "Illegal access"; otherwise the class map without the removed sources' classes and with the changed sources registered, and the results of both passes combined. The class map file, once read, holds the map after the changed pass, and the deleted class files are those of the removed sources |
| IncrementalCompilations.IncrementalCompilation.CompileChanges | src/main/kotlin/java/IncrementalCompilation.kt:28-36 | an empty change set succeeds without compiling and leaves the class map file alone; otherwise the result is `compile`'s, and on success the class map it returns is what the file holds. On failure the file holds the map the changed pass wrote, or is untouched when it did not read; the class files of the removed sources' classes are deleted whenever the stored map read, whatever the outcome |
| IncrementalCompilations.IncrementalCompilation.RunCompilation | src/main/kotlin/java/IncrementalCompilation.kt:27-97 | a malformed fingerprint file is its read error, with nothing else touched; the changes since the stored fingerprints are compiled as `CompileChanges` says, including the class map file and the deleted class files after a failure; the new fingerprints are stored exactly when the result is successful, an empty change set included, and otherwise left as they were |
| CompilationPipeline.MetadataStore.constructor | src/main/kotlin/common/CompilationPipeline.kt:57-65 | the store holds the given metadata and default |
| CompilationPipeline.MetadataStore.LoadOrDefault | src/main/kotlin/common/CompilationPipeline.kt:61 | the stored metadata, or the empty metadata when none is stored |
| CompilationPipeline.MetadataStore.Store | src/main/kotlin/common/CompilationPipeline.kt:64 | the given metadata is stored |
| CompilationPipeline.FoldResultsAppend | src/main/kotlin/common/CompilationPipeline.kt:43-47 | the metadata fold over two runs of results is the fold over the second from the fold over the first |
| CompilationPipeline.FoldResultsKeeps | src/main/kotlin/common/CompilationPipeline.kt:43-47 | a property every update keeps holds of the folded metadata |
| CompilationPipeline.FoldIgnoresFailures | src/main/kotlin/common/CompilationPipeline.kt:43-47 | when updates ignore failures, only the successful results shape the folded metadata |
| CompilationPipeline.StatefulCompilationPipeline.constructor | src/main/kotlin/common/CompilationPipeline.kt:24-31 | the start and finish mutators default to the identity |
| CompilationPipeline.StatefulCompilationPipeline.Compile | src/main/kotlin/common/CompilationPipeline.kt:36-51 | reader and compiler see the loaded metadata; the results pass unchanged and in order; the stored metadata is the finish step of the fold from the start step; a compiler failure stores nothing |
| CompilationPipeline.FilterLastModifiedKeepsStale | src/main/kotlin/common/CompilationPipeline.kt:84-90 | keeps exactly the units whose target time is unknown or older than the source's |
| CompilationPipeline.FilterLastModifiedAppend | src/main/kotlin/common/CompilationPipeline.kt:84-90 | the filter works unit by unit, so it keeps their order |
| CompilationPipeline.IncludeDependentSourcesAppend | src/main/kotlin/common/CompilationPipeline.kt:98-102 | the expansion works unit by unit: each unit is followed at once by its dependants |
| CompilationPipeline.IncludeDependentSourcesMembership | src/main/kotlin/common/CompilationPipeline.kt:98-102 | the expansion holds the units and their dependants and nothing else |
| JavaIncrementalCompilation.NewUnitDependencies | src/main/kotlin/java/JavaIncrementalCompilation.kt:82-87 | the parsed dependencies without the unit itself; none when parsing gives `null` |
| JavaIncrementalCompilation.FoldEntriesIsOrderFree | src/main/kotlin/java/JavaIncrementalCompilation.kt:94-106 | folding an idempotent entry update over the dependencies in any order updates exactly the listed entries |
| JavaIncrementalCompilation.FailedUpdateKeepsMetadata | src/main/kotlin/java/JavaIncrementalCompilation.kt:77-78 | a failed unit leaves the metadata as it is |
| JavaIncrementalCompilation.UpdateReplacesDependencies | src/main/kotlin/java/JavaIncrementalCompilation.kt:110-113 | the unit's dependency entry becomes the new set, other entries, the time and the hashes are kept |
| JavaIncrementalCompilation.DependantsEntryAfterUpdate | src/main/kotlin/java/JavaIncrementalCompilation.kt:90-106 | for each single path: the unit leaves the dependants of a dropped dependency, joins those of an added one, and other entries are untouched |
| JavaIncrementalCompilation.UpdateMovesDependants | src/main/kotlin/java/JavaIncrementalCompilation.kt:88-106 | the dependants map keeps its keys and gains the changed dependencies; emptied entries stay |
| JavaIncrementalCompilation.UpdateIsAnyFoldOrder | src/main/kotlin/java/JavaIncrementalCompilation.kt:94-106 | the two folds give the same dependants map whatever order the removed and added sets are iterated in |
| JavaIncrementalCompilation.UpdateKeepsReverseIndex | src/main/kotlin/java/JavaIncrementalCompilation.kt:73-115 | when `dependants` was the exact reverse of `dependencies`, it still is after the update |
| JavaIncrementalCompilation.OnStart | src/main/kotlin/java/JavaIncrementalCompilation.kt:67-69 | sets the last compile time to the current time and keeps everything else |
| JavaIncrementalCompilation.JavaStoredMetadata | src/main/kotlin/java/JavaIncrementalCompilation.kt:62-70 | the stored metadata has the current time, keeps a reverse index a reverse index, and depends only on the successful units |
| JavaIncrementalCompilation.DistinctByKeepsKeys | src/main/kotlin/java/JavaIncrementalCompilation.kt:132 | `distinctBy` leaves no two elements with one key, loses no key, and adds no element |
| JavaIncrementalCompilation.DistinctByKeepsFirst | src/main/kotlin/java/JavaIncrementalCompilation.kt:132 | the first element with each key is kept |
| JavaIncrementalCompilation.MapNotNullMembership | src/main/kotlin/java/JavaIncrementalCompilation.kt:128 | `mapNotNull` holds exactly the non-null images |
| JavaIncrementalCompilation.DependantUnitsAreFound | src/main/kotlin/java/JavaIncrementalCompilation.kt:126-131 | a unit's dependant units are exactly the units `findSingle` finds for its recorded dependants |
| JavaIncrementalCompilation.IncrementalSourceReaderProperties | src/main/kotlin/java/JavaIncrementalCompilation.kt:117-132 | the reader names each path once keeping the first unit, reads every stale unit and every found dependant of a stale unit, and nothing else |
| JavaIncrementalCompilation.MessagesNonEmpty | src/main/kotlin/java/JavaIncrementalCompilation.kt:158-161 | a file has collected messages exactly when some diagnostic is about it |
| JavaIncrementalCompilation.LastWithFileIsOfFile | src/main/kotlin/java/JavaIncrementalCompilation.kt:142-145 | the unit kept for a file is an input unit of that file |
| JavaIncrementalCompilation.Outcomes | src/main/kotlin/java/JavaIncrementalCompilation.kt:170-174 | one result per distinct source file |
| JavaIncrementalCompilation.OutcomeAt | src/main/kotlin/java/JavaIncrementalCompilation.kt:170-174 | each result is in first-insertion order, is an input unit, succeeds exactly without diagnostics, and fails with exactly the file's messages |
| JavaIncrementalCompilation.OutcomesCoverFiles | src/main/kotlin/java/JavaIncrementalCompilation.kt:142-174 | results have distinct files, every input file has one, every result unit is an input |
| JavaIncrementalCompilation.AdaptedResultsPerFile | src/main/kotlin/java/JavaIncrementalCompilation.kt:136-175 | each input file gets one result: Success unless javac reported on it, else Failed with exactly its messages; no input gives no result |
| JavaIncrementalCompilation.RegisterInputs | src/main/kotlin/java/JavaIncrementalCompilation.kt:142-145 | the first loop collects every file and a Success for the last unit of each file, keeping first-insertion order |
| JavaIncrementalCompilation.CollectErrors | src/main/kotlin/java/JavaIncrementalCompilation.kt:153-161 | the listener collects, per reported file, exactly its messages in order |
| JavaIncrementalCompilation.ApplyErrors | src/main/kotlin/java/JavaIncrementalCompilation.kt:170-172 | every reported file gets Failed with its messages; a file that was not compiled fails the `!!` with a NullPointerException |
| JavaIncrementalCompilation.AdaptNativeJavaCompiler | src/main/kotlin/java/JavaIncrementalCompilation.kt:136-175 | javac is called exactly when there are sources, and the adapter returns the results described above |
| JavaIncrementalCompilation.JavaIncrementalCompilationPipeline | src/main/kotlin/java/JavaIncrementalCompilation.kt:57-71 | the pipeline uses the incremental reader, the adapted javac, the dependency update, the start step that sets the time, and the identity finish step |

## Left out

- I/O: reading and writing files, walking directories, file times, deleting class files and their failures. Files are lists of lines and the fingerprint, file-time, hash and lookup functions are parameters. A deleted class file is recorded in a set.
- Laziness: `by lazy` values and Kotlin `Sequence`s are eager values. In `StatefulCompilationPipeline.compile` the metadata is stored once the whole result sequence is consumed; the model consumes it at once.
- Iteration order of Kotlin hash sets and maps: where the program iterates a set or map, the model either states the result for every order (`UpdateIsAnyFoldOrder`, the removal and registration loops) or takes the order as an input (`iterationOrder` of the Java context). Removed files are a set.
- Exceptions: an exception is a `Failure` result. Rethrowing after a rollback is modelled as the failure passing through `RunCompilation` with the fingerprints left as they were.
- The compiler (`JdkCompiler.kt`) and javac are functions. Diagnostics without a source file, whose cast would throw, are not modelled. Every diagnostic, warnings included, fails its file, as in the code.
- ASM: descriptor parsing and the constant pool reader's offsets and UTF-8 decoding. Events carry decoded `TypeDescriptor`s and pool items carry their tag and type.
- `AsmAbiProvider.kt`: the ABI snapshots before and after the changed pass are parameters of `Compile` and `RunCompilation`.
- `JavaSourceParser.kt`, `JavaFsSourceSet.kt`, `JavaSourceSet.kt`: the parser, the source listing and `findSingle` are parameters of the Java context.
- `MapDBMetadataStore.kt` is not part of this model: the metadata store is a class holding an optional value. Its own `;` join and split would not read an empty set back.
- `CompilationRequest.kt` and `main.kt`: class-path parsing, the command line, console output and timing.
- `String.hashCode` is an uninterpreted function; equal hashes of different constant values are not ruled out, and the model, like the program, would then miss the change.
- Line breaks inside names or paths: a file is a list of lines, so a line break inside a key cannot occur in the model.
- AbiCompatibilityCases.ParentsOf: requires that the superclass walk ends (no cycle within the map); on a cycle the Kotlin loop never returns, which `SelfParentChainDiverges` shows can happen.
- CombinedChecker.UnchangedClassIsCompatible: requires distinct field names and method signatures, as a class file has them; with duplicates the name-keyed maps keep only the last declaration and the lemma is not stated.
- IncrementalCompilations.IncrementalCompilation.Compile: requires that the checker returns on every affected class of the stored class map; `toList` consumes the Kotlin sequence whole, and a global incompatibility is only acted on after that, so only an unregistered dependant ("Illegal access" from `sourceFileOf`) can stop it before it reaches a class whose superclass walk diverges; the model does not cover that case.
- JavaIncrementalCompilation.IncrementalSourceReaderProperties: requires that the iteration order of a set lists exactly its elements.
- JavaIncrementalCompilation.AdaptNativeJavaCompiler: javac is given the set of the units' paths, so two units of one file reach it once. Kotlin's `JavaFile` defines no `equals`, so the program would hand javac two objects for the same file.
