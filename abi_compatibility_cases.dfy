/**
 * The binary-compatibility rules, each after a section of chapter 13 ("Binary Compatibility")
 * of the Java Language Specification, Java SE 8 Edition. A rule compares the ABI of a class
 * before and after a change; `None` is "no verdict" (Kotlin's `null`).
 */
module AbiCompatibilityCases {
  import opened Wrappers
  import opened Abi
  import opened CompatibilityLevels

  predicate WasAdded(m: Modifier, before: set<Modifier>, after: set<Modifier>) {
    m !in before && m in after
  }

  predicate WasRemoved(m: Modifier, before: set<Modifier>, after: set<Modifier>) {
    m in before && m !in after
  }

  // ---------------------------------------------------------------- class flags

  /** Section 13.4.1 (abstract classes): adding `abstract` breaks, removing it does not. */
  function AbstractClasses(before: ClassAbi, after: ClassAbi): (r: Option<CompatibilityLevel>)
    ensures r == Some(Incompatible) <==> WasAdded(Abstract, before.modifiers, after.modifiers)
    ensures r == Some(Compatible) <==> WasRemoved(Abstract, before.modifiers, after.modifiers)
    ensures r.None? <==> (Abstract in before.modifiers <==> Abstract in after.modifiers)
  {
    if WasRemoved(Abstract, before.modifiers, after.modifiers) then Some(Compatible)
    else if WasAdded(Abstract, before.modifiers, after.modifiers) then Some(Incompatible)
    else None
  }

  /** Section 13.4.2 (final classes): adding `final` breaks, removing it does not. */
  function FinalClasses(before: ClassAbi, after: ClassAbi): (r: Option<CompatibilityLevel>)
    ensures r == Some(Incompatible) <==> WasAdded(Final, before.modifiers, after.modifiers)
    ensures r == Some(Compatible) <==> WasRemoved(Final, before.modifiers, after.modifiers)
    ensures r.None? <==> (Final in before.modifiers <==> Final in after.modifiers)
  {
    if WasAdded(Final, before.modifiers, after.modifiers) then Some(Incompatible)
    else if WasRemoved(Final, before.modifiers, after.modifiers) then Some(Compatible)
    else None
  }

  /** Section 13.4.3 (public classes): removing `public` breaks, adding it does not. */
  function PublicClasses(before: ClassAbi, after: ClassAbi): (r: Option<CompatibilityLevel>)
    ensures r == Some(Incompatible) <==> WasRemoved(Public, before.modifiers, after.modifiers)
    ensures r == Some(Compatible) <==> WasAdded(Public, before.modifiers, after.modifiers)
    ensures r.None? <==> (Public in before.modifiers <==> Public in after.modifiers)
  {
    if WasAdded(Public, before.modifiers, after.modifiers) then Some(Compatible)
    else if WasRemoved(Public, before.modifiers, after.modifiers) then Some(Incompatible)
    else None
  }

  /**
   * The three flag rules give no verdict on an unchanged class, and undoing a change flips
   * the verdict: what breaks one way is compatible the other way.
   */
  lemma ClassFlagRulesUndo(before: ClassAbi, after: ClassAbi)
    ensures AbstractClasses(before, before) == None && FinalClasses(before, before) == None
    ensures PublicClasses(before, before) == None
    ensures AbstractClasses(before, after) == Some(Incompatible) <==> AbstractClasses(after, before) == Some(Compatible)
    ensures FinalClasses(before, after) == Some(Incompatible) <==> FinalClasses(after, before) == Some(Compatible)
    ensures PublicClasses(before, after) == Some(Incompatible) <==> PublicClasses(after, before) == Some(Compatible)
  {
  }

  /**
   * Section 13.4.4 (superclasses and superinterfaces), conservatively: a different superclass
   * or a different interface list (order included) breaks; otherwise no verdict.
   */
  function SuperclassesAndSuperinterfaces(before: ClassAbi, after: ClassAbi): (r: Option<CompatibilityLevel>)
    ensures r.Some? <==> before.superClass != after.superClass || before.interfaces != after.interfaces
    ensures r.Some? ==> r == Some(Incompatible)
  {
    if before.superClass != after.superClass then Some(Incompatible)
    else if before.interfaces != after.interfaces then Some(Incompatible)
    else None
  }

  /** Reordering the interface list alone counts as a supertype change. */
  lemma InterfaceOrderMatters(before: ClassAbi)
    requires before.interfaces == Some(["p.I", "p.J"])
    ensures SuperclassesAndSuperinterfaces(before, before.(interfaces := Some(["p.J", "p.I"]))) == Some(Incompatible)
  {
    assert ["p.I", "p.J"][0] != ["p.J", "p.I"][0];
  }

  // ---------------------------------------------------------------- per-field rules

  /** Section 13.4.7 (access to members): narrowing a field's access breaks. */
  function AccessToFields(before: FieldAbi, after: FieldAbi): (r: CompatibilityLevel)
    ensures r == Incompatible <==> Narrower(FieldAccess(after), FieldAccess(before))
    ensures r != GloballyIncompatible
  {
    if Narrower(FieldAccess(after), FieldAccess(before)) then Incompatible else Compatible
  }

  /** The rule shared by fields and methods: gaining or losing `static` breaks. */
  function StaticToggle(before: set<Modifier>, after: set<Modifier>): (r: CompatibilityLevel)
    ensures r == Incompatible <==> (Static in before <==> Static !in after)
    ensures r != GloballyIncompatible
  {
    if Static in before && Static !in after then Incompatible
    else if Static !in before && Static in after then Incompatible
    else Compatible
  }

  /** Section 13.4.8 (field declarations): making a field static or non-static breaks. */
  function StaticFieldChange(before: FieldAbi, after: FieldAbi): (r: CompatibilityLevel)
    ensures r == Incompatible <==> (Static in before.modifiers <==> Static !in after.modifiers)
    ensures r != GloballyIncompatible
  {
    StaticToggle(before.modifiers, after.modifiers)
  }

  /** Section 13.4.9 (final fields): adding `final` breaks, removing it does not. */
  function FinalFieldChange(before: FieldAbi, after: FieldAbi): (r: CompatibilityLevel)
    ensures r == Incompatible <==> WasAdded(Final, before.modifiers, after.modifiers)
    ensures r != GloballyIncompatible
  {
    if WasRemoved(Final, before.modifiers, after.modifiers) then Compatible
    else if WasAdded(Final, before.modifiers, after.modifiers) then Incompatible
    else Compatible
  }

  // ---------------------------------------------------------------- constants

  /** Some constant of `before` is missing from `after` or has another value hash. */
  predicate ConstantChanged(before: ClassAbi, after: ClassAbi) {
    var bm := ConstantsMap(before);
    var am := ConstantsMap(after);
    exists k | k in bm :: k !in am || am[k].valueHash != bm[k].valueHash
  }

  /**
   * Section 13.4.9 (static constants): a removed or changed constant may already be inlined
   * anywhere, which is GLOBALLY_INCOMPATIBLE.
   */
  function ConstantsChange(before: ClassAbi, after: ClassAbi): (r: CompatibilityLevel)
    ensures r == GloballyIncompatible <==> ConstantChanged(before, after)
    ensures r != Incompatible
  {
    var bm := ConstantsMap(before);
    var am := ConstantsMap(after);
    // `it.value != new.constantsMap[it.key]` on (name, hash) pairs filed under the same name
    var changed := exists k | k in bm :: k !in am || am[k] != bm[k];
    assert changed <==> ConstantChanged(before, after) by {
      forall k | k in bm && k in am ensures am[k] == bm[k] <==> am[k].valueHash == bm[k].valueHash {
        AssociateByValueHasKey(before.constants, ConstantName, k);
        AssociateByValueHasKey(after.constants, ConstantName, k);
      }
    }
    if changed then GloballyIncompatible else Compatible
  }

  /** Appending constants under new names keeps the class COMPATIBLE as far as constants go. */
  lemma AddingConstantsIsCompatible(before: ClassAbi, added: seq<ConstantAbi>)
    requires forall c :: c in added ==> c.name !in ConstantsMap(before)
    ensures ConstantsChange(before, before.(constants := before.constants + added)) == Compatible
  {
    AssociateByAppendFresh(before.constants, added, ConstantName);
  }

  // ---------------------------------------------------------------- member checks

  /** The first INCOMPATIBLE or GLOBALLY_INCOMPATIBLE result of `checks` on one pair, if any. */
  function FirstBreaking<T>(checks: seq<(T, T) -> Option<CompatibilityLevel>>, before: T, after: T): (r: Option<CompatibilityLevel>)
    ensures r.Some? ==> Breaking(r)
    ensures r.Some? ==> exists i :: 0 <= i < |checks| && checks[i](before, after) == r &&
                                    forall j :: 0 <= j < i ==> !Breaking(checks[j](before, after))
    ensures r.None? <==> forall i :: 0 <= i < |checks| ==> !Breaking(checks[i](before, after))
    decreases |checks|
  {
    if checks == [] then None
    else if Breaking(checks[0](before, after)) then checks[0](before, after)
    else
      var r := FirstBreaking(checks[1..], before, after);
      assert forall i :: 1 <= i < |checks| ==> checks[1..][i - 1] == checks[i];
      if r.Some? then
        assert exists i :: 0 <= i < |checks| && checks[i](before, after) == r &&
                          forall j :: 0 <= j < i ==> !Breaking(checks[j](before, after)) by {
          var i :| 0 <= i < |checks[1..]| && checks[1..][i](before, after) == r &&
            forall j :: 0 <= j < i ==> !Breaking(checks[1..][j](before, after));
          assert checks[i + 1](before, after) == r;
          forall j | 0 <= j < i + 1 ensures !Breaking(checks[j](before, after)) {
            if j > 0 { assert checks[1..][j - 1] == checks[j]; }
          }
        }
        r
      else
        r
  }

  /**
   * The inner loop of `fieldsCompatibility` and `methodsCompatibility`: runs the checks in
   * order on one member pair and stops at the first INCOMPATIBLE or GLOBALLY_INCOMPATIBLE.
   */
  method RunChecks<T>(checks: seq<(T, T) -> Option<CompatibilityLevel>>, before: T, after: T) returns (r: Option<CompatibilityLevel>)
    ensures r == FirstBreaking(checks, before, after)
  {
    var j := 0;
    while j < |checks|
      invariant 0 <= j <= |checks|
      invariant FirstBreaking(checks, before, after) == FirstBreaking(checks[j..], before, after)
    {
      assert checks[j..][0] == checks[j] && checks[j..][1..] == checks[j + 1..];
      var level := checks[j](before, after);
      if level == Some(Incompatible) {
        return Some(Incompatible);
      }
      if level == Some(GloballyIncompatible) {
        return Some(GloballyIncompatible);
      }
      j := j + 1;
    }
    return None;
  }

  type FieldCheck = (FieldAbi, FieldAbi) -> Option<CompatibilityLevel>
  type MethodCheck = (MethodAbi, MethodAbi) -> Option<CompatibilityLevel>

  // ---------------------------------------------------------------- fields

  /** A field of `before` that is not private has no field of that name in `after`. */
  predicate NonPrivateFieldRemoved(before: ClassAbi, after: ClassAbi) {
    var bm := FieldsMap(before);
    var am := FieldsMap(after);
    exists name | name in bm :: name !in am && FieldAccess(bm[name]) != PrivateAccess
  }

  /** A field of `before` is compared only when it is not private and `after` still has its name. */
  predicate FieldChecked(f: FieldAbi, afterMap: map<string, FieldAbi>) {
    f.name in afterMap && FieldAccess(f) != PrivateAccess
  }

  /** The loop of `fieldsCompatibility` over the fields of `before`, as a recursive scan. */
  function FieldsScan(fields: seq<FieldAbi>, afterMap: map<string, FieldAbi>, checks: seq<FieldCheck>): CompatibilityLevel
  {
    if fields == [] then Compatible
    else if FieldChecked(fields[0], afterMap) && FirstBreaking(checks, fields[0], afterMap[fields[0].name]).Some? then
      FirstBreaking(checks, fields[0], afterMap[fields[0].name]).value
    else FieldsScan(fields[1..], afterMap, checks)
  }

  /** When no check sequence result can be GLOBALLY_INCOMPATIBLE, neither can the field scan. */
  lemma {:induction false} FieldsScanNotGlobal(fields: seq<FieldAbi>, afterMap: map<string, FieldAbi>, checks: seq<FieldCheck>)
    requires forall b, a :: FirstBreaking(checks, b, a) != Some(GloballyIncompatible)
    ensures FieldsScan(fields, afterMap, checks) != GloballyIncompatible
  {
    if fields != [] {
      FieldsScanNotGlobal(fields[1..], afterMap, checks);
    }
  }

  /** What `fieldsCompatibility` returns. */
  function FieldsVerdict(before: ClassAbi, after: ClassAbi, checks: seq<FieldCheck>): CompatibilityLevel {
    if NonPrivateFieldRemoved(before, after) then Incompatible
    else FieldsScan(before.fields, FieldsMap(after), checks)
  }

  /**
   * `fieldsCompatibility` (after section 13.4.6): removing a non-private field breaks; otherwise
   * the first breaking check result on a retained non-private field, else COMPATIBLE.
   */
  method FieldsCompatibility(before: ClassAbi, after: ClassAbi, checks: seq<FieldCheck>) returns (r: CompatibilityLevel)
    ensures r == FieldsVerdict(before, after, checks)
  {
    var afterMap := FieldsMap(after);
    if NonPrivateFieldRemoved(before, after) {
      return Incompatible;
    }
    var i := 0;
    while i < |before.fields|
      invariant 0 <= i <= |before.fields|
      invariant FieldsScan(before.fields, afterMap, checks) == FieldsScan(before.fields[i..], afterMap, checks)
    {
      var oldField := before.fields[i];
      assert before.fields[i..][0] == oldField && before.fields[i..][1..] == before.fields[i + 1..];
      if oldField.name in afterMap && FieldAccess(oldField) != PrivateAccess {
        var newField := afterMap[oldField.name];
        var level := RunChecks(checks, oldField, newField);
        if level.Some? {
          return level.value;
        }
      }
      i := i + 1;
    }
    return Compatible;
  }

  /**
   * The scan is COMPATIBLE exactly when no compared field has a breaking check result; otherwise
   * it is the first breaking result of the first field that has one.
   */
  lemma {:induction false} FieldsScanIsFirstBreakingResult(fields: seq<FieldAbi>, afterMap: map<string, FieldAbi>, checks: seq<FieldCheck>)
    ensures FieldsScan(fields, afterMap, checks) == Compatible <==>
      forall i :: 0 <= i < |fields| && FieldChecked(fields[i], afterMap) ==>
        FirstBreaking(checks, fields[i], afterMap[fields[i].name]).None?
    ensures FieldsScan(fields, afterMap, checks) != Compatible ==>
      exists i :: 0 <= i < |fields| && FieldChecked(fields[i], afterMap) &&
        FirstBreaking(checks, fields[i], afterMap[fields[i].name]) == Some(FieldsScan(fields, afterMap, checks))
  {
    if fields != [] {
      FieldsScanIsFirstBreakingResult(fields[1..], afterMap, checks);
      assert forall i :: 1 <= i < |fields| ==> fields[1..][i - 1] == fields[i];
      if FieldsScan(fields, afterMap, checks) != Compatible && !(FieldChecked(fields[0], afterMap) && FirstBreaking(checks, fields[0], afterMap[fields[0].name]).Some?) {
        var i :| 0 <= i < |fields[1..]| && FieldChecked(fields[1..][i], afterMap) &&
          FirstBreaking(checks, fields[1..][i], afterMap[fields[1..][i].name]) == Some(FieldsScan(fields, afterMap, checks));
        assert fields[i + 1] == fields[1..][i];
      }
    }
  }

  /** The non-private fields of a list, in order. */
  function NonPrivateFields(fields: seq<FieldAbi>): seq<FieldAbi> {
    if fields == [] then []
    else if FieldAccess(fields[0]) == PrivateAccess then NonPrivateFields(fields[1..])
    else [fields[0]] + NonPrivateFields(fields[1..])
  }

  /** Fields that were private in `before` are never compared: dropping them changes nothing. */
  lemma {:induction false} PrivateFieldsAreNotChecked(fields: seq<FieldAbi>, afterMap: map<string, FieldAbi>, checks: seq<FieldCheck>)
    ensures FieldsScan(fields, afterMap, checks) == FieldsScan(NonPrivateFields(fields), afterMap, checks)
  {
    if fields != [] {
      PrivateFieldsAreNotChecked(fields[1..], afterMap, checks);
      if FieldAccess(fields[0]) != PrivateAccess {
        var rest := NonPrivateFields(fields[1..]);
        assert ([fields[0]] + rest)[0] == fields[0] && ([fields[0]] + rest)[1..] == rest;
      }
    }
  }

  /** The Java 8 field checks, in order: access, static, final. */
  function Java8FieldChecks(): seq<FieldCheck> {
    [ (b: FieldAbi, a: FieldAbi) => Some(AccessToFields(b, a)),
      (b: FieldAbi, a: FieldAbi) => Some(StaticFieldChange(b, a)),
      (b: FieldAbi, a: FieldAbi) => Some(FinalFieldChange(b, a)) ]
  }

  /** A retained field breaks under the Java 8 checks exactly when its access narrows, static toggles or final is added. */
  lemma Java8FieldChecksBreakIff(before: FieldAbi, after: FieldAbi)
    ensures FirstBreaking(Java8FieldChecks(), before, after).Some? <==>
      Narrower(FieldAccess(after), FieldAccess(before)) ||
      (Static in before.modifiers <==> Static !in after.modifiers) ||
      WasAdded(Final, before.modifiers, after.modifiers)
    ensures FirstBreaking(Java8FieldChecks(), before, after) != Some(GloballyIncompatible)
  {
    var cs := Java8FieldChecks();
    assert cs[0](before, after) == Some(AccessToFields(before, after));
    assert cs[1](before, after) == Some(StaticFieldChange(before, after));
    assert cs[2](before, after) == Some(FinalFieldChange(before, after));
  }

  // ---------------------------------------------------------------- methods

  /** A method of `before`, other than the static initializer, that is not private has no method of that signature in `after`. */
  predicate NonPrivateMethodRemoved(before: ClassAbi, after: ClassAbi) {
    var bm := MethodsMap(before);
    var am := MethodsMap(after);
    exists s | s in bm :: s !in am && bm[s].name != "<clinit>" && MethodAccess(bm[s]) != PrivateAccess
  }

  /** A method of `before` is compared only when it is not private and `after` has its signature. */
  predicate MethodChecked(m: MethodAbi, afterMap: map<MethodSignature, MethodAbi>) {
    Signature(m) in afterMap && MethodAccess(m) != PrivateAccess
  }

  function MethodsScan(methods: seq<MethodAbi>, afterMap: map<MethodSignature, MethodAbi>, checks: seq<MethodCheck>): CompatibilityLevel
  {
    if methods == [] then Compatible
    else if MethodChecked(methods[0], afterMap) && FirstBreaking(checks, methods[0], afterMap[Signature(methods[0])]).Some? then
      FirstBreaking(checks, methods[0], afterMap[Signature(methods[0])]).value
    else MethodsScan(methods[1..], afterMap, checks)
  }

  /** When no check sequence result can be GLOBALLY_INCOMPATIBLE, neither can the method scan. */
  lemma {:induction false} MethodsScanNotGlobal(methods: seq<MethodAbi>, afterMap: map<MethodSignature, MethodAbi>, checks: seq<MethodCheck>)
    requires forall b, a :: FirstBreaking(checks, b, a) != Some(GloballyIncompatible)
    ensures MethodsScan(methods, afterMap, checks) != GloballyIncompatible
  {
    if methods != [] {
      MethodsScanNotGlobal(methods[1..], afterMap, checks);
    }
  }

  /** What `methodsCompatibility` returns. */
  function MethodsVerdict(before: ClassAbi, after: ClassAbi, checks: seq<MethodCheck>): CompatibilityLevel {
    if NonPrivateMethodRemoved(before, after) then Incompatible
    else MethodsScan(before.methods, MethodsMap(after), checks)
  }

  /**
   * `methodsCompatibility` (section 13.4.12): as for fields, with methods keyed by signature
   * and the static initializer `<clinit>` exempt from the removal rule.
   */
  method MethodsCompatibility(before: ClassAbi, after: ClassAbi, checks: seq<MethodCheck>) returns (r: CompatibilityLevel)
    ensures r == MethodsVerdict(before, after, checks)
  {
    var afterMap := MethodsMap(after);
    if NonPrivateMethodRemoved(before, after) {
      return Incompatible;
    }
    var i := 0;
    while i < |before.methods|
      invariant 0 <= i <= |before.methods|
      invariant MethodsScan(before.methods, afterMap, checks) == MethodsScan(before.methods[i..], afterMap, checks)
    {
      var oldMethod := before.methods[i];
      assert before.methods[i..][0] == oldMethod && before.methods[i..][1..] == before.methods[i + 1..];
      if Signature(oldMethod) in afterMap && MethodAccess(oldMethod) != PrivateAccess {
        var newMethod := afterMap[Signature(oldMethod)];
        var level := RunChecks(checks, oldMethod, newMethod);
        if level.Some? {
          return level.value;
        }
      }
      i := i + 1;
    }
    return Compatible;
  }

  /** As for fields: COMPATIBLE iff no compared method has a breaking check result, else the first such result. */
  lemma {:induction false} MethodsScanIsFirstBreakingResult(methods: seq<MethodAbi>, afterMap: map<MethodSignature, MethodAbi>, checks: seq<MethodCheck>)
    ensures MethodsScan(methods, afterMap, checks) == Compatible <==>
      forall i :: 0 <= i < |methods| && MethodChecked(methods[i], afterMap) ==>
        FirstBreaking(checks, methods[i], afterMap[Signature(methods[i])]).None?
    ensures MethodsScan(methods, afterMap, checks) != Compatible ==>
      exists i :: 0 <= i < |methods| && MethodChecked(methods[i], afterMap) &&
        FirstBreaking(checks, methods[i], afterMap[Signature(methods[i])]) == Some(MethodsScan(methods, afterMap, checks))
  {
    if methods != [] {
      MethodsScanIsFirstBreakingResult(methods[1..], afterMap, checks);
      assert forall i :: 1 <= i < |methods| ==> methods[1..][i - 1] == methods[i];
      if MethodsScan(methods, afterMap, checks) != Compatible && !(MethodChecked(methods[0], afterMap) && FirstBreaking(checks, methods[0], afterMap[Signature(methods[0])]).Some?) {
        var i :| 0 <= i < |methods[1..]| && MethodChecked(methods[1..][i], afterMap) &&
          FirstBreaking(checks, methods[1..][i], afterMap[Signature(methods[1..][i])]) == Some(MethodsScan(methods, afterMap, checks));
        assert methods[i + 1] == methods[1..][i];
      }
    }
  }

  /** The non-private methods of a list, in order. */
  function NonPrivateMethods(methods: seq<MethodAbi>): seq<MethodAbi> {
    if methods == [] then []
    else if MethodAccess(methods[0]) == PrivateAccess then NonPrivateMethods(methods[1..])
    else [methods[0]] + NonPrivateMethods(methods[1..])
  }

  /** Methods that were private in `before` are never compared. */
  lemma {:induction false} PrivateMethodsAreNotChecked(methods: seq<MethodAbi>, afterMap: map<MethodSignature, MethodAbi>, checks: seq<MethodCheck>)
    ensures MethodsScan(methods, afterMap, checks) == MethodsScan(NonPrivateMethods(methods), afterMap, checks)
  {
    if methods != [] {
      PrivateMethodsAreNotChecked(methods[1..], afterMap, checks);
      if MethodAccess(methods[0]) != PrivateAccess {
        var rest := NonPrivateMethods(methods[1..]);
        assert ([methods[0]] + rest)[0] == methods[0] && ([methods[0]] + rest)[1..] == rest;
      }
    }
  }

  /** Section 13.4.7 (access to members) for methods: narrowing access breaks. */
  function AccessToMethods(before: MethodAbi, after: MethodAbi): (r: CompatibilityLevel)
    ensures r == Incompatible <==> Narrower(MethodAccess(after), MethodAccess(before))
    ensures r != GloballyIncompatible
  {
    if Narrower(MethodAccess(after), MethodAccess(before)) then Incompatible else Compatible
  }

  /** Sections 13.4.14 and 13.4.15 (formal parameters, result type): a different name, return type or argument list breaks. */
  function MethodSignatureChange(before: MethodAbi, after: MethodAbi): (r: CompatibilityLevel)
    ensures r == Compatible <==> Signature(before) == Signature(after)
    ensures r != GloballyIncompatible
  {
    if before.name != after.name then Incompatible
    else if before.returnType != after.returnType then Incompatible
    else if before.arguments != after.arguments then Incompatible
    else Compatible
  }

  /**
   * Methods are matched by equal signature, so the signature check always passes inside
   * `methodsCompatibility`: a changed signature is a removal plus an addition.
   */
  lemma SignatureCheckPassesOnMatchedMethods(before: ClassAbi, after: ClassAbi, m: MethodAbi)
    requires m in before.methods && Signature(m) in MethodsMap(after)
    ensures MethodSignatureChange(m, MethodsMap(after)[Signature(m)]) == Compatible
  {
    AssociateByValueHasKey(after.methods, Signature, Signature(m));
  }

  /** Section 13.4.16 (abstract methods): adding `abstract` breaks, removing it does not. */
  function AbstractMethodChange(before: MethodAbi, after: MethodAbi): (r: CompatibilityLevel)
    ensures r == Incompatible <==> WasAdded(Abstract, before.modifiers, after.modifiers)
    ensures r != GloballyIncompatible
  {
    if WasRemoved(Abstract, before.modifiers, after.modifiers) then Compatible
    else if WasAdded(Abstract, before.modifiers, after.modifiers) then Incompatible
    else Compatible
  }

  /** Section 13.4.17 (final methods): adding `final` breaks only a method that was not static. */
  function FinalMethodChange(before: MethodAbi, after: MethodAbi): (r: CompatibilityLevel)
    ensures r == Incompatible <==> Static !in before.modifiers && WasAdded(Final, before.modifiers, after.modifiers)
    ensures r != GloballyIncompatible
  {
    if WasRemoved(Final, before.modifiers, after.modifiers) then Compatible
    else if Static !in before.modifiers && WasAdded(Final, before.modifiers, after.modifiers) then Incompatible
    else Compatible
  }

  /** Section 13.4.19 (static methods): making a method static or non-static breaks. */
  function StaticMethodChange(before: MethodAbi, after: MethodAbi): (r: CompatibilityLevel)
    ensures r == Incompatible <==> (Static in before.modifiers <==> Static !in after.modifiers)
    ensures r != GloballyIncompatible
  {
    StaticToggle(before.modifiers, after.modifiers)
  }

  /** The Java 8 method checks, in order: access, signature, abstract, final, static. */
  function Java8MethodChecks(): seq<MethodCheck> {
    [ (b: MethodAbi, a: MethodAbi) => Some(AccessToMethods(b, a)),
      (b: MethodAbi, a: MethodAbi) => Some(MethodSignatureChange(b, a)),
      (b: MethodAbi, a: MethodAbi) => Some(AbstractMethodChange(b, a)),
      (b: MethodAbi, a: MethodAbi) => Some(FinalMethodChange(b, a)),
      (b: MethodAbi, a: MethodAbi) => Some(StaticMethodChange(b, a)) ]
  }

  /** No Java 8 method check reports GLOBALLY_INCOMPATIBLE. */
  lemma Java8MethodChecksNeverGlobal(before: MethodAbi, after: MethodAbi)
    ensures FirstBreaking(Java8MethodChecks(), before, after) != Some(GloballyIncompatible)
  {
    var cs := Java8MethodChecks();
    assert cs[0](before, after) == Some(AccessToMethods(before, after));
    assert cs[1](before, after) == Some(MethodSignatureChange(before, after));
    assert cs[2](before, after) == Some(AbstractMethodChange(before, after));
    assert cs[3](before, after) == Some(FinalMethodChange(before, after));
    assert cs[4](before, after) == Some(StaticMethodChange(before, after));
  }

  /** A method pair with equal signatures breaks under the Java 8 checks exactly when access narrows, abstract is added, final is added to a non-static method or static toggles. */
  lemma Java8MethodChecksBreakIff(before: MethodAbi, after: MethodAbi)
    requires Signature(before) == Signature(after)
    ensures FirstBreaking(Java8MethodChecks(), before, after).Some? <==>
      Narrower(MethodAccess(after), MethodAccess(before)) ||
      WasAdded(Abstract, before.modifiers, after.modifiers) ||
      (Static !in before.modifiers && WasAdded(Final, before.modifiers, after.modifiers)) ||
      (Static in before.modifiers <==> Static !in after.modifiers)
  {
    var cs := Java8MethodChecks();
    assert cs[0](before, after) == Some(AccessToMethods(before, after));
    assert cs[1](before, after) == Some(MethodSignatureChange(before, after));
    assert cs[2](before, after) == Some(AbstractMethodChange(before, after));
    assert cs[3](before, after) == Some(FinalMethodChange(before, after));
    assert cs[4](before, after) == Some(StaticMethodChange(before, after));
  }

  // ---------------------------------------------------------------- superclass chain

  /**
   * The classes `parentsOf` collects when it starts by looking up `key` and follows
   * `superClass` links while the name is in the map. `None` when the walk comes back to a
   * class it has already collected: the Kotlin loop then never ends.
   */
  function Chain(abiMap: map<ClassName, ClassAbi>, key: Option<ClassName>, visited: set<ClassName>): Option<seq<ClassAbi>>
    decreases abiMap.Keys - visited
  {
    if key.None? || key.value !in abiMap then Some([])
    else if key.value in visited then None
    else
      var c := abiMap[key.value];
      match Chain(abiMap, c.superClass, visited + {key.value})
      case None => None
      case Some(rest) => Some([c] + rest)
  }

  /** The walk of `parentsOf` from `className` ends. */
  predicate ChainTerminates(abiMap: map<ClassName, ClassAbi>, className: ClassName) {
    Chain(abiMap, Some(className), {}).Some?
  }

  /**
   * A finished chain starts at the looked-up class, links each class to the map entry of its
   * superclass, and stops at the first superclass name missing from the map.
   */
  lemma {:induction false} ChainLinks(abiMap: map<ClassName, ClassAbi>, key: Option<ClassName>, visited: set<ClassName>)
    requires Chain(abiMap, key, visited).Some?
    ensures var p := Chain(abiMap, key, visited).value;
      && (|p| > 0 <==> key.Some? && key.value in abiMap)
      && (|p| > 0 ==> p[0] == abiMap[key.value])
      && (forall i :: 0 <= i < |p| - 1 ==>
            p[i].superClass.Some? && p[i].superClass.value in abiMap && p[i + 1] == abiMap[p[i].superClass.value])
      && (|p| > 0 ==> p[|p| - 1].superClass.None? || p[|p| - 1].superClass.value !in abiMap)
    decreases abiMap.Keys - visited
  {
    if key.Some? && key.value in abiMap {
      var c := abiMap[key.value];
      var rest := Chain(abiMap, c.superClass, visited + {key.value});
      ChainLinks(abiMap, c.superClass, visited + {key.value});
      var p := [c] + rest.value;
      forall i | 0 <= i < |p| - 1
        ensures p[i].superClass.Some? && p[i].superClass.value in abiMap && p[i + 1] == abiMap[p[i].superClass.value]
      {
        if i > 0 {
          assert p[i] == rest.value[i - 1] && p[i + 1] == rest.value[i];
        }
      }
    }
  }

  /** A class that is its own superclass makes the walk run forever. */
  lemma SelfParentChainDiverges(c: ClassAbi)
    requires c.superClass == Some(c.name)
    ensures !ChainTerminates(map[c.name := c], c.name)
  {
    var m := map[c.name := c];
    assert Chain(m, Some(c.name), {c.name}) == None;
    assert {} + {c.name} == {c.name};
  }

  /** `parentsOf`: the class itself and its superclasses, as far as the map knows them. */
  method ParentsOf(abiMap: map<ClassName, ClassAbi>, className: ClassName) returns (parents: seq<ClassAbi>)
    requires ChainTerminates(abiMap, className)
    ensures parents == Chain(abiMap, Some(className), {}).value
  {
    var key: Option<ClassName> := Some(className);
    var current: Option<ClassAbi> := if className in abiMap then Some(abiMap[className]) else None;
    ghost var visited: set<ClassName> := {};
    parents := [];
    while current.Some?
      invariant Chain(abiMap, key, visited).Some?
      invariant Chain(abiMap, Some(className), {}).value == parents + Chain(abiMap, key, visited).value
      invariant current.Some? <==> key.Some? && key.value in abiMap
      invariant current.Some? ==> current.value == abiMap[key.value]
      decreases abiMap.Keys - visited
    {
      parents := parents + [current.value];
      visited := visited + {key.value};
      key := current.value.superClass;
      current := if key.Some? && key.value in abiMap then Some(abiMap[key.value]) else None;
    }
  }

  // ---------------------------------------------------------------- new members that collide with ancestors

  /** Names of fields `after` has and `before` had not. */
  function AddedFieldNames(before: ClassAbi, after: ClassAbi): set<string> {
    FieldsMap(after).Keys - FieldsMap(before).Keys
  }

  predicate FieldDeclaredInChain(parents: seq<ClassAbi>, name: string) {
    exists i :: 0 <= i < |parents| && name in FieldsMap(parents[i])
  }

  /**
   * What `newFieldThatOverrides` returns. With no added field it answers COMPATIBLE before it
   * walks the superclass chain, so only that walk needs the chain to end.
   */
  function FieldOverrideVerdict(abiMap: map<ClassName, ClassAbi>, before: ClassAbi, after: ClassAbi): (r: CompatibilityLevel)
    requires AddedFieldNames(before, after) != {} ==> ChainTerminates(abiMap, before.name)
    ensures AddedFieldNames(before, after) == {} ==> r == Compatible
    ensures r == Incompatible <==>
      AddedFieldNames(before, after) != {} &&
      exists name :: name in AddedFieldNames(before, after) &&
                     FieldDeclaredInChain(Chain(abiMap, Some(before.name), {}).value, name)
    ensures r != GloballyIncompatible
  {
    if AddedFieldNames(before, after) == {} then Compatible
    else
      var parents := Chain(abiMap, Some(before.name), {}).value;
      if exists name | name in AddedFieldNames(before, after) :: FieldDeclaredInChain(parents, name) then Incompatible
      else Compatible
  }

  /**
   * `newFieldThatOverrides`: INCOMPATIBLE when a field added to the class has the name of a
   * field of a class on the superclass chain of `before`.
   */
  method NewFieldThatOverrides(abiMap: map<ClassName, ClassAbi>, before: ClassAbi, after: ClassAbi) returns (r: CompatibilityLevel)
    requires AddedFieldNames(before, after) != {} ==> ChainTerminates(abiMap, before.name)
    ensures r == FieldOverrideVerdict(abiMap, before, after)
  {
    var newFields := FieldsMap(after) - FieldsMap(before).Keys;
    assert newFields.Keys == AddedFieldNames(before, after);
    if |newFields| == 0 {
      assert newFields.Keys == {};
      return Compatible;
    }
    assert newFields.Keys != {} by {
      var k :| k in newFields;
    }
    var parents := ParentsOf(abiMap, before.name);
    var remaining := newFields.Keys;
    while remaining != {}
      invariant remaining <= newFields.Keys
      invariant forall k :: k in newFields.Keys - remaining ==> !FieldDeclaredInChain(parents, k)
      decreases remaining
    {
      var k :| k in remaining;
      var newField := newFields[k];
      AssociateByValueHasKey(after.fields, FieldName, k);
      var overrideFound := exists i | 0 <= i < |parents| :: newField.name in FieldsMap(parents[i]);
      assert overrideFound == FieldDeclaredInChain(parents, k);
      if overrideFound {
        assert k in AddedFieldNames(before, after);
        return Incompatible;
      }
      remaining := remaining - {k};
    }
    return Compatible;
  }

  /** Signatures of methods `after` has and `before` had not. */
  function AddedMethodSignatures(before: ClassAbi, after: ClassAbi): set<MethodSignature> {
    MethodsMap(after).Keys - MethodsMap(before).Keys
  }

  predicate MethodDeclaredInChain(parents: seq<ClassAbi>, s: MethodSignature) {
    exists i :: 0 <= i < |parents| && s in MethodsMap(parents[i])
  }

  /**
   * What `newMethodThatOverrides` returns. With no added method it answers COMPATIBLE before it
   * walks the superclass chain, so only that walk needs the chain to end.
   */
  function MethodOverrideVerdict(abiMap: map<ClassName, ClassAbi>, before: ClassAbi, after: ClassAbi): (r: CompatibilityLevel)
    requires AddedMethodSignatures(before, after) != {} ==> ChainTerminates(abiMap, before.name)
    ensures AddedMethodSignatures(before, after) == {} ==> r == Compatible
    ensures r == Incompatible <==>
      AddedMethodSignatures(before, after) != {} &&
      exists s :: s in AddedMethodSignatures(before, after) &&
                  MethodDeclaredInChain(Chain(abiMap, Some(before.name), {}).value, s)
    ensures r != GloballyIncompatible
  {
    if AddedMethodSignatures(before, after) == {} then Compatible
    else
      var parents := Chain(abiMap, Some(before.name), {}).value;
      if exists s | s in AddedMethodSignatures(before, after) :: MethodDeclaredInChain(parents, s) then Incompatible
      else Compatible
  }

  /**
   * `newMethodThatOverrides`: INCOMPATIBLE when a method added to the class has the signature
   * of a method of a class on the superclass chain of `before`.
   */
  method NewMethodThatOverrides(abiMap: map<ClassName, ClassAbi>, before: ClassAbi, after: ClassAbi) returns (r: CompatibilityLevel)
    requires AddedMethodSignatures(before, after) != {} ==> ChainTerminates(abiMap, before.name)
    ensures r == MethodOverrideVerdict(abiMap, before, after)
  {
    var newMethods := MethodsMap(after) - MethodsMap(before).Keys;
    assert newMethods.Keys == AddedMethodSignatures(before, after);
    if |newMethods| == 0 {
      assert newMethods.Keys == {};
      return Compatible;
    }
    assert newMethods.Keys != {} by {
      var s :| s in newMethods;
    }
    var parents := ParentsOf(abiMap, before.name);
    var remaining := newMethods.Keys;
    while remaining != {}
      invariant remaining <= newMethods.Keys
      invariant forall s :: s in newMethods.Keys - remaining ==> !MethodDeclaredInChain(parents, s)
      decreases remaining
    {
      var s :| s in remaining;
      var newMethod := newMethods[s];
      AssociateByValueHasKey(after.methods, Signature, s);
      var overrideFound := exists i | 0 <= i < |parents| :: Signature(newMethod) in MethodsMap(parents[i]);
      assert overrideFound == MethodDeclaredInChain(parents, s);
      if overrideFound {
        assert s in AddedMethodSignatures(before, after);
        return Incompatible;
      }
      remaining := remaining - {s};
    }
    return Compatible;
  }
}
