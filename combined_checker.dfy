/**
 * `CombinedAbiCompatibilityChecker`: runs a list of class checks and then a list of checks that
 * also see the map of all known ABIs, and reports the most severe verdict; and the checker
 * assembled from the Java 8 rules.
 */
module CombinedChecker {
  import opened Wrappers
  import opened Abi
  import opened CompatibilityLevels
  import opened AbiCompatibilityCases

  type ClassCheck = (ClassAbi, ClassAbi) -> Option<CompatibilityLevel>

  /** A check that may look up other classes; it may demand something of the map (a finite superclass chain). */
  type ClassCheckWithAbiMap = (map<ClassName, ClassAbi>, ClassAbi, ClassAbi) --> Option<CompatibilityLevel>

  datatype Checker = Checker(checks: seq<ClassCheck>, checksWithAbiMap: seq<ClassCheckWithAbiMap>)

  /** A missing verdict counts as COMPATIBLE. */
  function LevelOf(l: Option<CompatibilityLevel>): CompatibilityLevel {
    l.GetOr(Compatible)
  }

  /** The most severe of a list of check results, `null` results ignored. */
  function Levels(results: seq<Option<CompatibilityLevel>>): CompatibilityLevel
    decreases |results|
  {
    if results == [] then Compatible
    else MaxLevel(Levels(results[..|results| - 1]), LevelOf(results[|results| - 1]))
  }

  lemma LevelsSnoc(results: seq<Option<CompatibilityLevel>>, l: Option<CompatibilityLevel>)
    ensures Levels(results + [l]) == MaxLevel(Levels(results), LevelOf(l))
  {
    assert (results + [l])[..|results|] == results;
  }

  /**
   * GLOBALLY_INCOMPATIBLE iff some result says so; INCOMPATIBLE iff none says that and some
   * result is INCOMPATIBLE; COMPATIBLE otherwise.
   */
  lemma {:induction false} LevelsIsMostSevere(results: seq<Option<CompatibilityLevel>>)
    ensures Levels(results) == GloballyIncompatible <==> Some(GloballyIncompatible) in results
    ensures Levels(results) == Incompatible <==> Some(GloballyIncompatible) !in results && Some(Incompatible) in results
    decreases |results|
  {
    if results != [] {
      var init := results[..|results| - 1];
      LevelsIsMostSevere(init);
      assert results == init + [results[|results| - 1]];
    }
  }

  function ClassResults(checks: seq<ClassCheck>, before: ClassAbi, after: ClassAbi): (rs: seq<Option<CompatibilityLevel>>)
    ensures |rs| == |checks| && forall i :: 0 <= i < |checks| ==> rs[i] == checks[i](before, after)
  {
    seq(|checks|, i requires 0 <= i < |checks| => checks[i](before, after))
  }

  ghost predicate MapChecksDefined(checks: seq<ClassCheckWithAbiMap>, abiMap: map<ClassName, ClassAbi>, before: ClassAbi, after: ClassAbi) {
    forall j :: 0 <= j < |checks| ==> checks[j].requires(abiMap, before, after)
  }

  function MapResults(checks: seq<ClassCheckWithAbiMap>, abiMap: map<ClassName, ClassAbi>, before: ClassAbi, after: ClassAbi): (rs: seq<Option<CompatibilityLevel>>)
    requires MapChecksDefined(checks, abiMap, before, after)
    ensures |rs| == |checks| && forall j :: 0 <= j < |checks| ==> rs[j] == checks[j](abiMap, before, after)
  {
    seq(|checks|, j requires 0 <= j < |checks| => checks[j](abiMap, before, after))
  }

  /**
   * `isCompatible` can run: the map checks are only reached when no class check reported
   * GLOBALLY_INCOMPATIBLE, and then each of them must be defined.
   */
  ghost predicate VerdictDefined(c: Checker, abiMap: map<ClassName, ClassAbi>, before: ClassAbi, after: ClassAbi) {
    Levels(ClassResults(c.checks, before, after)) == GloballyIncompatible ||
    MapChecksDefined(c.checksWithAbiMap, abiMap, before, after)
  }

  /** What `isCompatible` returns. */
  function Verdict(c: Checker, abiMap: map<ClassName, ClassAbi>, before: ClassAbi, after: ClassAbi): CompatibilityLevel
    requires VerdictDefined(c, abiMap, before, after)
  {
    var rs := ClassResults(c.checks, before, after);
    if Levels(rs) == GloballyIncompatible then GloballyIncompatible
    else Levels(rs + MapResults(c.checksWithAbiMap, abiMap, before, after))
  }

  /** The most severe result of a concatenation is the more severe of the two parts' verdicts. */
  lemma {:induction false} LevelsAppend(rs: seq<Option<CompatibilityLevel>>, ms: seq<Option<CompatibilityLevel>>)
    ensures Levels(rs + ms) == MaxLevel(Levels(rs), Levels(ms))
    decreases |ms|
  {
    if ms == [] {
      assert rs + ms == rs;
    } else {
      var init := ms[..|ms| - 1];
      LevelsAppend(rs, init);
      assert (rs + ms)[..|rs + ms| - 1] == rs + init;
    }
  }

  /** The first loop of `isCompatible`: the class checks in order, stopping at GLOBALLY_INCOMPATIBLE. */
  method RunClassChecks(checks: seq<ClassCheck>, before: ClassAbi, after: ClassAbi) returns (r: CompatibilityLevel)
    ensures r == Levels(ClassResults(checks, before, after))
  {
    ghost var rs := ClassResults(checks, before, after);
    var currentLevel := Compatible;
    var i := 0;
    while i < |checks|
      invariant 0 <= i <= |checks|
      invariant currentLevel == Levels(rs[..i]) && currentLevel != GloballyIncompatible
    {
      var level := checks[i](before, after);
      assert rs[..i + 1] == rs[..i] + [level];
      LevelsSnoc(rs[..i], level);
      if level == Some(GloballyIncompatible) {
        assert rs[i] in rs;
        LevelsIsMostSevere(rs);
        return GloballyIncompatible;
      }
      if level == Some(Incompatible) {
        currentLevel := Incompatible;
      }
      i := i + 1;
    }
    assert rs[..i] == rs;
    return currentLevel;
  }

  /**
   * The second loop of `isCompatible`: the map checks in order, starting from the level the
   * class checks reached and stopping at GLOBALLY_INCOMPATIBLE.
   */
  method RunMapChecks(checks: seq<ClassCheckWithAbiMap>, abiMap: map<ClassName, ClassAbi>, before: ClassAbi, after: ClassAbi,
                      start: CompatibilityLevel) returns (r: CompatibilityLevel)
    requires MapChecksDefined(checks, abiMap, before, after)
    requires start != GloballyIncompatible
    ensures r == MaxLevel(start, Levels(MapResults(checks, abiMap, before, after)))
  {
    ghost var ms := MapResults(checks, abiMap, before, after);
    var currentLevel := start;
    var j := 0;
    while j < |checks|
      invariant 0 <= j <= |checks|
      invariant currentLevel == MaxLevel(start, Levels(ms[..j])) && currentLevel != GloballyIncompatible
    {
      var level := checks[j](abiMap, before, after);
      assert ms[..j + 1] == ms[..j] + [level];
      LevelsSnoc(ms[..j], level);
      if level == Some(GloballyIncompatible) {
        assert ms[j] in ms;
        LevelsIsMostSevere(ms);
        return GloballyIncompatible;
      }
      if level == Some(Incompatible) {
        currentLevel := Incompatible;
      }
      j := j + 1;
    }
    assert ms[..j] == ms;
    return currentLevel;
  }

  /** `isCompatible`: the class checks, then, unless they already demand a global rebuild, the map checks. */
  method IsCompatible(c: Checker, abiMap: map<ClassName, ClassAbi>, before: ClassAbi, after: ClassAbi) returns (r: CompatibilityLevel)
    requires VerdictDefined(c, abiMap, before, after)
    ensures r == Verdict(c, abiMap, before, after)
  {
    var currentLevel := RunClassChecks(c.checks, before, after);
    if currentLevel == GloballyIncompatible {
      return GloballyIncompatible;
    }
    r := RunMapChecks(c.checksWithAbiMap, abiMap, before, after, currentLevel);
    LevelsAppend(ClassResults(c.checks, before, after), MapResults(c.checksWithAbiMap, abiMap, before, after));
  }

  /**
   * Stopping early does not change the verdict: it is the most severe of all results, so
   * GLOBALLY_INCOMPATIBLE iff some check says so, INCOMPATIBLE iff none says that but some
   * says INCOMPATIBLE, and COMPATIBLE otherwise.
   */
  lemma VerdictIsMostSevereResult(c: Checker, abiMap: map<ClassName, ClassAbi>, before: ClassAbi, after: ClassAbi)
    requires MapChecksDefined(c.checksWithAbiMap, abiMap, before, after)
    ensures var all := ClassResults(c.checks, before, after) + MapResults(c.checksWithAbiMap, abiMap, before, after);
      && (Verdict(c, abiMap, before, after) == GloballyIncompatible <==> Some(GloballyIncompatible) in all)
      && (Verdict(c, abiMap, before, after) == Incompatible <==>
            Some(GloballyIncompatible) !in all && Some(Incompatible) in all)
      && (Verdict(c, abiMap, before, after) == Compatible <==> forall k :: 0 <= k < |all| ==> !Breaking(all[k]))
  {
    var rs := ClassResults(c.checks, before, after);
    var all := rs + MapResults(c.checksWithAbiMap, abiMap, before, after);
    LevelsIsMostSevere(rs);
    LevelsIsMostSevere(all);
  }

  // ---------------------------------------------------------------- the Java 8 checker

  /** `java8SpecIncompatibilityChecker`, with each member loop given by the function it is proved to compute. */
  function Java8Checker(): Checker {
    Checker(
      [ AbstractClasses,
        FinalClasses,
        PublicClasses,
        SuperclassesAndSuperinterfaces,
        ConstantsCheck,
        FieldsCheck,
        MethodsCheck ],
      [ FieldOverrideCheck, MethodOverrideCheck ])
  }

  function ConstantsCheck(before: ClassAbi, after: ClassAbi): Option<CompatibilityLevel> {
    Some(ConstantsChange(before, after))
  }

  function FieldsCheck(before: ClassAbi, after: ClassAbi): Option<CompatibilityLevel> {
    Some(FieldsVerdict(before, after, Java8FieldChecks()))
  }

  function MethodsCheck(before: ClassAbi, after: ClassAbi): Option<CompatibilityLevel> {
    Some(MethodsVerdict(before, after, Java8MethodChecks()))
  }

  function FieldOverrideCheck(abiMap: map<ClassName, ClassAbi>, before: ClassAbi, after: ClassAbi): Option<CompatibilityLevel>
    requires AddedFieldNames(before, after) != {} ==> ChainTerminates(abiMap, before.name)
  {
    Some(FieldOverrideVerdict(abiMap, before, after))
  }

  function MethodOverrideCheck(abiMap: map<ClassName, ClassAbi>, before: ClassAbi, after: ClassAbi): Option<CompatibilityLevel>
    requires AddedMethodSignatures(before, after) != {} ==> ChainTerminates(abiMap, before.name)
  {
    Some(MethodOverrideVerdict(abiMap, before, after))
  }

  /** The results of the Java 8 class checks, in order. */
  lemma Java8ClassResults(before: ClassAbi, after: ClassAbi)
    ensures ClassResults(Java8Checker().checks, before, after) ==
      [ AbstractClasses(before, after), FinalClasses(before, after), PublicClasses(before, after),
        SuperclassesAndSuperinterfaces(before, after), Some(ConstantsChange(before, after)),
        Some(FieldsVerdict(before, after, Java8FieldChecks())), Some(MethodsVerdict(before, after, Java8MethodChecks())) ]
  {
  }

  /**
   * The override checks walk the superclass chain only when a field or a method was added;
   * the walk must then end.
   */
  predicate OverrideWalkEnds(abiMap: map<ClassName, ClassAbi>, before: ClassAbi, after: ClassAbi) {
    (AddedFieldNames(before, after) != {} || AddedMethodSignatures(before, after) != {}) ==> ChainTerminates(abiMap, before.name)
  }

  /** The Java 8 map checks are defined when the walk they need ends, and give the two override verdicts. */
  lemma Java8MapResults(abiMap: map<ClassName, ClassAbi>, before: ClassAbi, after: ClassAbi)
    requires OverrideWalkEnds(abiMap, before, after)
    ensures MapChecksDefined(Java8Checker().checksWithAbiMap, abiMap, before, after)
    ensures MapResults(Java8Checker().checksWithAbiMap, abiMap, before, after) ==
      [ Some(FieldOverrideVerdict(abiMap, before, after)), Some(MethodOverrideVerdict(abiMap, before, after)) ]
  {
  }

  /**
   * The Java 8 map checks return exactly when nothing was added or the superclass chain ends:
   * `parentsOf` never returns on a cyclic chain, and is only called once a member was added.
   */
  lemma Java8MapChecksDefinedIff(abiMap: map<ClassName, ClassAbi>, before: ClassAbi, after: ClassAbi)
    ensures MapChecksDefined(Java8Checker().checksWithAbiMap, abiMap, before, after) <==> OverrideWalkEnds(abiMap, before, after)
  {
    var ms := Java8Checker().checksWithAbiMap;
    assert ms[0].requires(abiMap, before, after) <==> (AddedFieldNames(before, after) != {} ==> ChainTerminates(abiMap, before.name));
    assert ms[1].requires(abiMap, before, after) <==> (AddedMethodSignatures(before, after) != {} ==> ChainTerminates(abiMap, before.name));
  }

  /** The Java 8 field rules never ask for a global rebuild. */
  lemma Java8FieldsNeverGlobal(before: ClassAbi, after: ClassAbi)
    ensures FieldsVerdict(before, after, Java8FieldChecks()) != GloballyIncompatible
  {
    forall b, a ensures FirstBreaking(Java8FieldChecks(), b, a) != Some(GloballyIncompatible) {
      Java8FieldChecksBreakIff(b, a);
    }
    FieldsScanNotGlobal(before.fields, FieldsMap(after), Java8FieldChecks());
  }

  /** The Java 8 method rules never ask for a global rebuild. */
  lemma Java8MethodsNeverGlobal(before: ClassAbi, after: ClassAbi)
    ensures MethodsVerdict(before, after, Java8MethodChecks()) != GloballyIncompatible
  {
    forall b, a ensures FirstBreaking(Java8MethodChecks(), b, a) != Some(GloballyIncompatible) {
      Java8MethodChecksNeverGlobal(b, a);
    }
    MethodsScanNotGlobal(before.methods, MethodsMap(after), Java8MethodChecks());
  }

  /** Under the Java 8 rules a change is GLOBALLY_INCOMPATIBLE exactly when a constant was removed or changed. */
  lemma Java8GlobalIffConstantChanged(abiMap: map<ClassName, ClassAbi>, before: ClassAbi, after: ClassAbi)
    requires VerdictDefined(Java8Checker(), abiMap, before, after)
    ensures Verdict(Java8Checker(), abiMap, before, after) == GloballyIncompatible <==> ConstantChanged(before, after)
  {
    var c := Java8Checker();
    var rs := ClassResults(c.checks, before, after);
    Java8ClassResults(before, after);
    Java8FieldsNeverGlobal(before, after);
    Java8MethodsNeverGlobal(before, after);
    assert Some(GloballyIncompatible) in rs <==> ConstantChanged(before, after);
    LevelsIsMostSevere(rs);
    if Levels(rs) != GloballyIncompatible {
      Java8MapChecksDefinedIff(abiMap, before, after);
      Java8MapResults(abiMap, before, after);
      var ms := MapResults(c.checksWithAbiMap, abiMap, before, after);
      assert Some(GloballyIncompatible) !in ms;
      LevelsIsMostSevere(rs + ms);
    }
  }

  predicate DistinctFieldNames(c: ClassAbi) {
    forall i, j :: 0 <= i < j < |c.fields| ==> c.fields[i].name != c.fields[j].name
  }

  predicate DistinctMethodSignatures(c: ClassAbi) {
    forall i, j :: 0 <= i < j < |c.methods| ==> Signature(c.methods[i]) != Signature(c.methods[j])
  }

  /** Without two fields of one name, the Java 8 field rules find nothing wrong with an unchanged class. */
  lemma UnchangedFieldsAreCompatible(c: ClassAbi)
    requires DistinctFieldNames(c)
    ensures FieldsVerdict(c, c, Java8FieldChecks()) == Compatible
  {
    var fm := FieldsMap(c);
    forall i | 0 <= i < |c.fields| ensures fm[c.fields[i].name] == c.fields[i] {
      assert LastWithKey(c.fields, FieldName, i);
    }
    FieldsScanIsFirstBreakingResult(c.fields, fm, Java8FieldChecks());
    forall i | 0 <= i < |c.fields| && FieldChecked(c.fields[i], fm)
      ensures FirstBreaking(Java8FieldChecks(), c.fields[i], fm[c.fields[i].name]).None?
    {
      Java8FieldChecksBreakIff(c.fields[i], c.fields[i]);
    }
  }

  /** Without two methods of one signature, the Java 8 method rules find nothing wrong with an unchanged class. */
  lemma UnchangedMethodsAreCompatible(c: ClassAbi)
    requires DistinctMethodSignatures(c)
    ensures MethodsVerdict(c, c, Java8MethodChecks()) == Compatible
  {
    var mm := MethodsMap(c);
    forall i | 0 <= i < |c.methods| ensures mm[Signature(c.methods[i])] == c.methods[i] {
      assert LastWithKey(c.methods, Signature, i);
    }
    MethodsScanIsFirstBreakingResult(c.methods, mm, Java8MethodChecks());
    forall i | 0 <= i < |c.methods| && MethodChecked(c.methods[i], mm)
      ensures FirstBreaking(Java8MethodChecks(), c.methods[i], mm[Signature(c.methods[i])]).None?
    {
      Java8MethodChecksBreakIff(c.methods[i], c.methods[i]);
    }
  }

  /** An unchanged class passes every Java 8 class check. */
  lemma UnchangedClassChecksPass(c: ClassAbi)
    requires DistinctFieldNames(c) && DistinctMethodSignatures(c)
    ensures ClassResults(Java8Checker().checks, c, c) ==
      [None, None, None, None, Some(Compatible), Some(Compatible), Some(Compatible)]
  {
    UnchangedFieldsAreCompatible(c);
    UnchangedMethodsAreCompatible(c);
    Java8ClassResults(c, c);
    assert !ConstantChanged(c, c);
  }

  /** An unchanged class adds no member, so neither override check objects. */
  lemma UnchangedMapChecksPass(abiMap: map<ClassName, ClassAbi>, c: ClassAbi)
    ensures MapChecksDefined(Java8Checker().checksWithAbiMap, abiMap, c, c)
    ensures MapResults(Java8Checker().checksWithAbiMap, abiMap, c, c) == [Some(Compatible), Some(Compatible)]
  {
    assert AddedFieldNames(c, c) == {} && AddedMethodSignatures(c, c) == {};
    Java8MapResults(abiMap, c, c);
  }

  /**
   * A class compared with itself is COMPATIBLE under the Java 8 rules, provided it declares no
   * two fields with one name and no two methods with one signature (as a Java compiler
   * guarantees). Whatever the superclass chain, it is never walked, as nothing was added.
   */
  lemma UnchangedClassIsCompatible(abiMap: map<ClassName, ClassAbi>, c: ClassAbi)
    requires DistinctFieldNames(c) && DistinctMethodSignatures(c)
    ensures VerdictDefined(Java8Checker(), abiMap, c, c)
    ensures Verdict(Java8Checker(), abiMap, c, c) == Compatible
  {
    UnchangedClassChecksPass(c);
    UnchangedMapChecksPass(abiMap, c);
    PassingResultsAreCompatible();
    CompatibleResultsGiveCompatible(Java8Checker(), abiMap, c, c);
  }

  /** Every field of `before` that is not private is still in `after`, unchanged, under its name. */
  predicate NonPrivateFieldsKept(before: ClassAbi, after: ClassAbi) {
    forall i :: 0 <= i < |before.fields| && FieldAccess(before.fields[i]) != PrivateAccess ==>
      before.fields[i].name in FieldsMap(after) && FieldsMap(after)[before.fields[i].name] == before.fields[i]
  }

  /** Every method of `before` that is not private is still in `after`, unchanged, under its signature. */
  predicate NonPrivateMethodsKept(before: ClassAbi, after: ClassAbi) {
    forall i :: 0 <= i < |before.methods| && MethodAccess(before.methods[i]) != PrivateAccess ==>
      Signature(before.methods[i]) in MethodsMap(after) && MethodsMap(after)[Signature(before.methods[i])] == before.methods[i]
  }

  /** Non-private fields kept unchanged pass the Java 8 field check, whatever happened to private ones. */
  lemma PrivateFieldChangesPass(before: ClassAbi, after: ClassAbi)
    requires NonPrivateFieldsKept(before, after)
    ensures FieldsVerdict(before, after, Java8FieldChecks()) == Compatible
  {
    var bm := FieldsMap(before);
    var fm := FieldsMap(after);
    forall name | name in bm && FieldAccess(bm[name]) != PrivateAccess
      ensures name in fm
    {
      var i :| 0 <= i < |before.fields| && FieldName(before.fields[i]) == name && bm[name] == before.fields[i];
    }
    assert !NonPrivateFieldRemoved(before, after);
    FieldsScanIsFirstBreakingResult(before.fields, fm, Java8FieldChecks());
    forall i | 0 <= i < |before.fields| && FieldChecked(before.fields[i], fm)
      ensures FirstBreaking(Java8FieldChecks(), before.fields[i], fm[before.fields[i].name]).None?
    {
      Java8FieldChecksBreakIff(before.fields[i], before.fields[i]);
    }
  }

  /** Non-private methods kept unchanged pass the Java 8 method check. */
  lemma PrivateMethodChangesPass(before: ClassAbi, after: ClassAbi)
    requires NonPrivateMethodsKept(before, after)
    ensures MethodsVerdict(before, after, Java8MethodChecks()) == Compatible
  {
    var bm := MethodsMap(before);
    var mm := MethodsMap(after);
    forall s | s in bm && bm[s].name != "<clinit>" && MethodAccess(bm[s]) != PrivateAccess
      ensures s in mm
    {
      var i :| 0 <= i < |before.methods| && Signature(before.methods[i]) == s && bm[s] == before.methods[i];
    }
    assert !NonPrivateMethodRemoved(before, after);
    MethodsScanIsFirstBreakingResult(before.methods, mm, Java8MethodChecks());
    forall i | 0 <= i < |before.methods| && MethodChecked(before.methods[i], mm)
      ensures FirstBreaking(Java8MethodChecks(), before.methods[i], mm[Signature(before.methods[i])]).None?
    {
      Java8MethodChecksBreakIff(before.methods[i], before.methods[i]);
    }
  }

  /**
   * Changes confined to what was private leave a class COMPATIBLE: the same flags, supertypes
   * and constants; every field and method that was not private is still there unchanged under
   * its name or signature; and no added field or method collides with one declared on the
   * superclass chain. Private members may be dropped, changed or added freely.
   */
  lemma PrivateChangesAreCompatible(abiMap: map<ClassName, ClassAbi>, before: ClassAbi, after: ClassAbi)
    requires after.modifiers == before.modifiers && after.superClass == before.superClass && after.interfaces == before.interfaces
    requires ConstantsMap(after) == ConstantsMap(before)
    requires NonPrivateFieldsKept(before, after) && NonPrivateMethodsKept(before, after)
    requires AddedFieldNames(before, after) != {} ==>
      ChainTerminates(abiMap, before.name) &&
      forall n :: n in AddedFieldNames(before, after) ==> !FieldDeclaredInChain(Chain(abiMap, Some(before.name), {}).value, n)
    requires AddedMethodSignatures(before, after) != {} ==>
      ChainTerminates(abiMap, before.name) &&
      forall s :: s in AddedMethodSignatures(before, after) ==> !MethodDeclaredInChain(Chain(abiMap, Some(before.name), {}).value, s)
    ensures VerdictDefined(Java8Checker(), abiMap, before, after)
    ensures Verdict(Java8Checker(), abiMap, before, after) == Compatible
  {
    PrivateFieldChangesPass(before, after);
    PrivateMethodChangesPass(before, after);
    Java8ClassResults(before, after);
    assert !ConstantChanged(before, after);
    assert ClassResults(Java8Checker().checks, before, after) ==
      [None, None, None, None, Some(Compatible), Some(Compatible), Some(Compatible)];
    Java8MapResults(abiMap, before, after);
    assert MapResults(Java8Checker().checksWithAbiMap, abiMap, before, after) == [Some(Compatible), Some(Compatible)];
    PassingResultsAreCompatible();
    CompatibleResultsGiveCompatible(Java8Checker(), abiMap, before, after);
  }

  lemma PassingResultsAreCompatible()
    ensures Levels([None, None, None, None, Some(Compatible), Some(Compatible), Some(Compatible)]) == Compatible
    ensures Levels([Some(Compatible), Some(Compatible)]) == Compatible
  {
    LevelsIsMostSevere([None, None, None, None, Some(Compatible), Some(Compatible), Some(Compatible)]);
    LevelsIsMostSevere([Some(Compatible), Some(Compatible)]);
  }

  /** When both kinds of checks find everything compatible, so does the checker. */
  lemma CompatibleResultsGiveCompatible(chk: Checker, abiMap: map<ClassName, ClassAbi>, before: ClassAbi, after: ClassAbi)
    requires MapChecksDefined(chk.checksWithAbiMap, abiMap, before, after)
    requires Levels(ClassResults(chk.checks, before, after)) == Compatible
    requires Levels(MapResults(chk.checksWithAbiMap, abiMap, before, after)) == Compatible
    ensures VerdictDefined(chk, abiMap, before, after)
    ensures Verdict(chk, abiMap, before, after) == Compatible
  {
    LevelsAppend(ClassResults(chk.checks, before, after), MapResults(chk.checksWithAbiMap, abiMap, before, after));
  }
}
