/**
 * `ClassAbiExtractor`: a class-file visitor that accumulates the ABI of one class while a
 * class reader calls it back, and `extract`, which drives it and assembles the `ClassAbi`.
 * Parsing the class file is not modelled: the reader's calls are given as a list of events
 * with their descriptors already decoded, and the constant pool as a list of items.
 */
module ClassAbiExtractor {
  import opened Wrappers
  import opened Abi

  const ACC_PRIVATE: bv32 := 0x0002
  const ACC_STATIC: bv32 := 0x0008
  const ACC_FINAL: bv32 := 0x0010

  /** The constant-pool tag of a `CONSTANT_Class` entry (section 4.4.1 of the Java Virtual Machine Specification, Java SE 8 Edition). */
  const CONSTANT_Class: int := 7

  predicate StartsWith(s: string, prefix: string) {
    |prefix| <= |s| && s[..|prefix|] == prefix
  }

  /**
   * The class names a list of types contributes as dependencies: neither primitive (nor an
   * array of primitives) nor in a `java.` package.
   */
  function DependencyNames(types: seq<TypeDescriptor>): set<ClassName> {
    set t | t in types && !IsPrimitive(t) && !StartsWith(TypeClassName(t), "java.") :: TypeClassName(t)
  }

  /** A name is a dependency name of some types exactly when one of them, not primitive and outside `java.`, has it. */
  lemma DependencyNamesMembership(types: seq<TypeDescriptor>, n: ClassName)
    ensures n in DependencyNames(types) <==>
      exists t :: t in types && !IsPrimitive(t) && TypeClassName(t) == n && !StartsWith(n, "java.")
  {
  }

  lemma DependencyNamesAppend(a: seq<TypeDescriptor>, b: seq<TypeDescriptor>)
    ensures DependencyNames(a + b) == DependencyNames(a) + DependencyNames(b)
  {
    assert forall t :: t in a + b <==> t in a || t in b;
  }

  /** `TypeDescriptor(Type.getObjectType(name))` for the internal name of a class. */
  function ObjectType(internalName: string): (t: TypeDescriptor)
    ensures !IsPrimitive(t) && TypeClassName(t) == FromInternalName(internalName)
  {
    TypeDescriptor(Object(FromInternalName(internalName)), 0)
  }

  function ObjectTypes(internalNames: seq<string>): (ts: seq<TypeDescriptor>)
  {
    seq(|internalNames|, i requires 0 <= i < |internalNames| => ObjectType(internalNames[i]))
  }

  function ClassNames(internalNames: seq<string>): (ns: seq<ClassName>)
  {
    seq(|internalNames|, i requires 0 <= i < |internalNames| => FromInternalName(internalNames[i]))
  }

  /** ACC_PRIVATE is set. */
  predicate IsPrivateAccess(access: bv32) {
    access & ACC_PRIVATE != 0
  }

  /** `isExposedConstant`, as written: STATIC or FINAL set, and PRIVATE clear. */
  predicate IsExposedConstant(access: bv32) {
    access & (ACC_STATIC | ACC_FINAL) != 0 && access & ACC_PRIVATE == 0
  }

  /** A final instance field with a value is registered as a constant, as is a static non-final one. */
  lemma ConstantNeedsStaticOrFinal()
    ensures IsExposedConstant(ACC_FINAL) && IsExposedConstant(ACC_STATIC)
    ensures IsExposedConstant(ACC_STATIC | ACC_FINAL | 0x0001)
    ensures !IsExposedConstant(0x0001) && !IsExposedConstant(ACC_STATIC | ACC_FINAL | ACC_PRIVATE)
  {
  }

  /** The types in a class header that `visit` records as dependencies: the superclass, then the interfaces. */
  function HeaderTypes(superName: Option<string>, interfaceNames: Option<seq<string>>): seq<TypeDescriptor> {
    (if superName.Some? then [ObjectType(superName.value)] else []) +
    (if interfaceNames.Some? then ObjectTypes(interfaceNames.value) else [])
  }

  function FieldConstants(access: bv32, name: string, value: Option<string>, hash: string -> int): seq<ConstantAbi> {
    if IsExposedConstant(access) && value.Some? then [ConstantAbi(name, hash(value.value))] else []
  }

  function ExceptionNames(exceptions: Option<seq<string>>): set<ClassName> {
    if exceptions.Some? then set e | e in exceptions.value :: FromInternalName(e) else {}
  }

  class AbiExtractor {
    var version: Option<int>
    var modifiers: Option<set<Modifier>>
    var name: Option<ClassName>
    var superClass: Option<ClassName>
    var interfaces: Option<seq<ClassName>>
    var fields: seq<FieldAbi>
    var constants: seq<ConstantAbi>
    var methods: seq<MethodAbi>
    var exposed: set<ClassName>
    var internal: set<ClassName>

    constructor ()
      ensures version.None? && modifiers.None? && name.None? && superClass.None? && interfaces.None?
      ensures fields == [] && constants == [] && methods == [] && exposed == {} && internal == {}
    {
      version := None;
      modifiers := None;
      name := None;
      superClass := None;
      interfaces := None;
      fields := [];
      constants := [];
      methods := [];
      exposed := {};
      internal := {};
    }

    /** `addDependencies`: the types' dependency names go to `internal` under ACC_PRIVATE, to `exposed` otherwise. */
    method AddDependencies(access: bv32, types: seq<TypeDescriptor>)
      modifies this`exposed, this`internal
      ensures !IsPrivateAccess(access) ==> exposed == old(exposed) + DependencyNames(types) && internal == old(internal)
      ensures IsPrivateAccess(access) ==> internal == old(internal) + DependencyNames(types) && exposed == old(exposed)
    {
      var nonPrimitive := DependencyNames(types);
      if !IsPrivateAccess(access) {
        exposed := exposed + nonPrimitive;
      } else {
        internal := internal + nonPrimitive;
      }
    }

    /** `visit`: records the class header, and the superclass and interfaces as dependencies. */
    method Visit(classVersion: int, access: bv32, internalName: string, superName: Option<string>, interfaceNames: Option<seq<string>>)
      modifies this
      ensures version == Some(classVersion) && modifiers == Some(ParseModifiers(access))
      ensures name == Some(FromInternalName(internalName))
      ensures superClass == (if superName.Some? then Some(FromInternalName(superName.value)) else None)
      ensures interfaces == (if interfaceNames.Some? then Some(ClassNames(interfaceNames.value)) else None)
      ensures fields == old(fields) && constants == old(constants) && methods == old(methods)
      ensures !IsPrivateAccess(access) ==>
        exposed == old(exposed) + DependencyNames(HeaderTypes(superName, interfaceNames)) && internal == old(internal)
      ensures IsPrivateAccess(access) ==>
        internal == old(internal) + DependencyNames(HeaderTypes(superName, interfaceNames)) && exposed == old(exposed)
    {
      version := Some(classVersion);
      var parsed := ParseModifiers(access);
      modifiers := Some(parsed);
      name := Some(FromInternalName(internalName));
      superClass := if superName.Some? then Some(FromInternalName(superName.value)) else None;
      interfaces := if interfaceNames.Some? then Some(ClassNames(interfaceNames.value)) else None;
      AddHeaderDependencies(access, superName, interfaceNames);
    }

    /** The dependency half of `visit`: the superclass, then each interface, in order. */
    method AddHeaderDependencies(access: bv32, superName: Option<string>, interfaceNames: Option<seq<string>>)
      modifies this`exposed, this`internal
      ensures !IsPrivateAccess(access) ==>
        exposed == old(exposed) + DependencyNames(HeaderTypes(superName, interfaceNames)) && internal == old(internal)
      ensures IsPrivateAccess(access) ==>
        internal == old(internal) + DependencyNames(HeaderTypes(superName, interfaceNames)) && exposed == old(exposed)
    {
      var superTypes: seq<TypeDescriptor> := [];
      if superName.Some? {
        superTypes := [ObjectType(superName.value)];
        AddDependencies(access, superTypes);
      }
      assert !IsPrivateAccess(access) ==> exposed == old(exposed) + DependencyNames(superTypes) && internal == old(internal);
      assert IsPrivateAccess(access) ==> internal == old(internal) + DependencyNames(superTypes) && exposed == old(exposed);
      var interfaceTypes: seq<TypeDescriptor> := [];
      if interfaceNames.Some? {
        interfaceTypes := ObjectTypes(interfaceNames.value);
        AddEachDependency(access, interfaceTypes);
      }
      assert HeaderTypes(superName, interfaceNames) == superTypes + interfaceTypes;
      DependencyNamesAppend(superTypes, interfaceTypes);
    }

    /** `interfaces?.forEach { addDependencies(access, ...) }`: one call per type, in order. */
    method AddEachDependency(access: bv32, types: seq<TypeDescriptor>)
      modifies this`exposed, this`internal
      ensures !IsPrivateAccess(access) ==> exposed == old(exposed) + DependencyNames(types) && internal == old(internal)
      ensures IsPrivateAccess(access) ==> internal == old(internal) + DependencyNames(types) && exposed == old(exposed)
    {
      var k := 0;
      while k < |types|
        invariant 0 <= k <= |types|
        invariant !IsPrivateAccess(access) ==> exposed == old(exposed) + DependencyNames(types[..k]) && internal == old(internal)
        invariant IsPrivateAccess(access) ==> internal == old(internal) + DependencyNames(types[..k]) && exposed == old(exposed)
      {
        assert types[..k + 1] == types[..k] + [types[k]];
        DependencyNamesAppend(types[..k], [types[k]]);
        AddDependencies(access, [types[k]]);
        k := k + 1;
      }
      assert types[..k] == types;
    }

    /**
     * `visitField`: records the field, registers it as a constant when `isExposedConstant`
     * holds and it has a value (keeping the hash of the value's text), and adds its type as a
     * dependency.
     */
    method VisitField(access: bv32, fieldName: string, fieldType: TypeDescriptor, value: Option<string>, hash: string -> int)
      modifies this`constants, this`fields, this`exposed, this`internal
      ensures constants == old(constants) + FieldConstants(access, fieldName, value, hash)
      ensures fields == old(fields) + [FieldAbi(ParseModifiers(access), fieldName, fieldType)]
      ensures !IsPrivateAccess(access) ==> exposed == old(exposed) + DependencyNames([fieldType]) && internal == old(internal)
      ensures IsPrivateAccess(access) ==> internal == old(internal) + DependencyNames([fieldType]) && exposed == old(exposed)
    {
      if IsExposedConstant(access) && value.Some? {
        var valueHash := hash(value.value);
        constants := constants + [ConstantAbi(fieldName, valueHash)];
      }
      fields := fields + [FieldAbi(ParseModifiers(access), fieldName, fieldType)];
      AddDependencies(access, [fieldType]);
    }

    /** `visitMethod`: records the method and adds its argument and return types as dependencies; declared exceptions are not dependencies. */
    method VisitMethod(access: bv32, methodName: string, arguments: seq<TypeDescriptor>, returnType: TypeDescriptor, exceptions: Option<seq<string>>)
      modifies this`methods, this`exposed, this`internal
      ensures methods == old(methods) + [MethodAbi(ParseModifiers(access), methodName, arguments, returnType, ExceptionNames(exceptions))]
      ensures !IsPrivateAccess(access) ==> exposed == old(exposed) + DependencyNames(arguments + [returnType]) && internal == old(internal)
      ensures IsPrivateAccess(access) ==> internal == old(internal) + DependencyNames(arguments + [returnType]) && exposed == old(exposed)
    {
      var exceptionTypes := ExceptionNames(exceptions);
      methods := methods + [MethodAbi(ParseModifiers(access), methodName, arguments, returnType, exceptionTypes)];
      AddDependencies(access, arguments + [returnType]);
    }

    /** The visitor's state is what the events so far determine. */
    ghost predicate Reflects(events: seq<ClassEvent>, hash: string -> int)
      reads this
    {
      var h := LastHeader(events);
      && version == HeaderVersion(h) && modifiers == HeaderModifiers(h) && name == HeaderName(h)
      && superClass == HeaderSuperClass(h) && interfaces == HeaderInterfaces(h)
      && fields == FieldsOf(events) && constants == ConstantsOf(events, hash) && methods == MethodsOf(events)
      && exposed == ExposedOf(events) && internal == InternalOf(events)
    }

    /** Hands one reader call to the visitor. */
    method Accept(e: ClassEvent, hash: string -> int, ghost seen: seq<ClassEvent>)
      requires Reflects(seen, hash)
      modifies this
      ensures Reflects(seen + [e], hash)
    {
      assert (seen + [e])[..|seen|] == seen;
      match e
      case HeaderEvent(v, access, internalName, superName, interfaceNames) =>
        Visit(v, access, internalName, superName, interfaceNames);
      case FieldEvent(access, fieldName, fieldType, value) =>
        VisitField(access, fieldName, fieldType, value, hash);
      case MethodEvent(access, methodName, arguments, returnType, exceptions) =>
        VisitMethod(access, methodName, arguments, returnType, exceptions);
    }

    /**
     * `extract`: lets the reader call the visitor back once per event, then assembles the ABI;
     * the classes named by the constant pool become internal dependencies.
     */
    static method Extract(events: seq<ClassEvent>, pool: seq<PoolItem>, hash: string -> int) returns (r: Result<ClassAbi>)
      ensures r == ExtractSpec(events, pool, hash)
    {
      var visitor := new AbiExtractor();
      var i := 0;
      while i < |events|
        invariant 0 <= i <= |events|
        invariant visitor.Reflects(events[..i], hash)
      {
        assert events[..i + 1] == events[..i] + [events[i]];
        visitor.Accept(events[i], hash, events[..i]);
        i := i + 1;
      }
      assert events[..i] == events;
      var typesFromConstantPool := ReadClassesFromConstantPool(pool);
      r := Assemble(visitor.version, visitor.modifiers, visitor.name, visitor.superClass, visitor.interfaces,
                    visitor.fields, visitor.constants, visitor.methods, visitor.exposed, visitor.internal,
                    DependencyNames(typesFromConstantPool));
    }
  }

  // ---------------------------------------------------------------- the reader's calls

  /** One call of the class reader into the visitor, with descriptors already decoded. */
  datatype ClassEvent =
    | HeaderEvent(version: int, access: bv32, internalName: string, superName: Option<string>, interfaceNames: Option<seq<string>>)
    | FieldEvent(access: bv32, name: string, fieldType: TypeDescriptor, value: Option<string>)
    | MethodEvent(access: bv32, name: string, arguments: seq<TypeDescriptor>, returnType: TypeDescriptor, exceptions: Option<seq<string>>)

  /** The types an event adds as dependencies. */
  function EventTypes(e: ClassEvent): seq<TypeDescriptor> {
    match e
    case HeaderEvent(_, _, _, superName, interfaceNames) => HeaderTypes(superName, interfaceNames)
    case FieldEvent(_, _, fieldType, _) => [fieldType]
    case MethodEvent(_, _, arguments, returnType, _) => arguments + [returnType]
  }

  /** The last header event: `visit` overwrites the header fields. */
  function LastHeader(events: seq<ClassEvent>): (h: Option<ClassEvent>)
    ensures h.Some? ==> h.value.HeaderEvent?
  {
    if events == [] then None
    else if events[|events| - 1].HeaderEvent? then Some(events[|events| - 1])
    else LastHeader(events[..|events| - 1])
  }

  function HeaderVersion(h: Option<ClassEvent>): Option<int> {
    match h
    case Some(HeaderEvent(v, _, _, _, _)) => Some(v)
    case _ => None
  }

  function HeaderModifiers(h: Option<ClassEvent>): Option<set<Modifier>> {
    match h
    case Some(HeaderEvent(_, access, _, _, _)) => Some(ParseModifiers(access))
    case _ => None
  }

  function HeaderName(h: Option<ClassEvent>): Option<ClassName> {
    match h
    case Some(HeaderEvent(_, _, internalName, _, _)) => Some(FromInternalName(internalName))
    case _ => None
  }

  function HeaderSuperClass(h: Option<ClassEvent>): Option<ClassName> {
    match h
    case Some(HeaderEvent(_, _, _, Some(superName), _)) => Some(FromInternalName(superName))
    case _ => None
  }

  function HeaderInterfaces(h: Option<ClassEvent>): Option<seq<ClassName>> {
    match h
    case Some(HeaderEvent(_, _, _, _, Some(interfaceNames))) => Some(ClassNames(interfaceNames))
    case _ => None
  }

  function FieldsOf(events: seq<ClassEvent>): seq<FieldAbi> {
    if events == [] then []
    else
      FieldsOf(events[..|events| - 1]) +
      match events[|events| - 1]
      case FieldEvent(access, name, fieldType, _) => [FieldAbi(ParseModifiers(access), name, fieldType)]
      case _ => []
  }

  function ConstantsOf(events: seq<ClassEvent>, hash: string -> int): seq<ConstantAbi> {
    if events == [] then []
    else
      ConstantsOf(events[..|events| - 1], hash) +
      match events[|events| - 1]
      case FieldEvent(access, name, _, value) => FieldConstants(access, name, value, hash)
      case _ => []
  }

  function MethodsOf(events: seq<ClassEvent>): seq<MethodAbi> {
    if events == [] then []
    else
      MethodsOf(events[..|events| - 1]) +
      match events[|events| - 1]
      case MethodEvent(access, name, arguments, returnType, exceptions) =>
        [MethodAbi(ParseModifiers(access), name, arguments, returnType, ExceptionNames(exceptions))]
      case _ => []
  }

  /** What one event adds to `internal` (when `private`) or to `exposed` (otherwise). */
  function EventDependencies(e: ClassEvent, private: bool): set<ClassName> {
    if IsPrivateAccess(e.access) == private then DependencyNames(EventTypes(e)) else {}
  }

  /** The union of `f` over a list. */
  function UnionOver<E, X>(xs: seq<E>, f: E -> set<X>): set<X> {
    if xs == [] then {} else UnionOver(xs[..|xs| - 1], f) + f(xs[|xs| - 1])
  }

  lemma {:induction false} UnionOverMembership<E, X>(xs: seq<E>, f: E -> set<X>, x: X)
    ensures x in UnionOver(xs, f) <==> exists i :: 0 <= i < |xs| && x in f(xs[i])
  {
    if xs != [] {
      var init := xs[..|xs| - 1];
      UnionOverMembership(init, f, x);
      assert forall i :: 0 <= i < |init| ==> init[i] == xs[i];
    }
  }

  /** Dependency names of the events with (`private`) or without ACC_PRIVATE. */
  function DependenciesOf(events: seq<ClassEvent>, private: bool): set<ClassName> {
    UnionOver(events, (e: ClassEvent) => EventDependencies(e, private))
  }

  function ExposedOf(events: seq<ClassEvent>): set<ClassName> { DependenciesOf(events, false) }
  function InternalOf(events: seq<ClassEvent>): set<ClassName> { DependenciesOf(events, true) }

  /** A name is recorded exactly when some event of the matching access contributes it. */
  lemma DependenciesOfMembership(events: seq<ClassEvent>, n: ClassName, private: bool)
    ensures n in DependenciesOf(events, private) <==> exists i :: 0 <= i < |events| && n in EventDependencies(events[i], private)
  {
    UnionOverMembership(events, (e: ClassEvent) => EventDependencies(e, private), n);
  }

  // ---------------------------------------------------------------- the constant pool

  /** A constant-pool slot: its offset (0 for an unusable slot), its tag byte, and the type its name denotes when it is a class entry. */
  datatype PoolItem = PoolItem(offset: int, tag: int, classType: TypeDescriptor)

  predicate IsClassEntry(item: PoolItem) {
    item.offset > 0 && item.tag == CONSTANT_Class
  }

  /** The types of the class entries, in pool order. */
  function ClassEntries(pool: seq<PoolItem>): seq<TypeDescriptor> {
    if pool == [] then []
    else
      var item := pool[|pool| - 1];
      ClassEntries(pool[..|pool| - 1]) + (if IsClassEntry(item) then [item.classType] else [])
  }

  /** A type is collected exactly when a class entry of the pool denotes it. */
  lemma {:induction false} ClassEntriesMembership(pool: seq<PoolItem>, t: TypeDescriptor)
    ensures t in ClassEntries(pool) <==> exists i :: 0 <= i < |pool| && IsClassEntry(pool[i]) && pool[i].classType == t
  {
    if pool != [] {
      var init := pool[..|pool| - 1];
      ClassEntriesMembership(init, t);
      assert forall i :: 0 <= i < |init| ==> init[i] == pool[i];
    }
  }

  /** `readClassesFromConstantPool`: collects the type of every item whose tag byte is that of a class entry. */
  method ReadClassesFromConstantPool(pool: seq<PoolItem>) returns (collector: seq<TypeDescriptor>)
    ensures collector == ClassEntries(pool)
  {
    collector := [];
    var k := 0;
    while k < |pool|
      invariant 0 <= k <= |pool|
      invariant collector == ClassEntries(pool[..k])
    {
      assert pool[..k + 1][..k] == pool[..k];
      var itemOffset := pool[k].offset;
      if itemOffset > 0 && pool[k].tag == CONSTANT_Class {
        collector := collector + [pool[k].classType];
      }
      k := k + 1;
    }
    assert pool[..k] == pool;
  }

  // ---------------------------------------------------------------- assembling the ABI

  /**
   * The end of `extract`: fails when the name, then the version, then the modifiers were not
   * parsed; the class itself is no dependency; constant-pool classes are internal unless exposed.
   */
  function Assemble(
    version: Option<int>, modifiers: Option<set<Modifier>>, name: Option<ClassName>,
    superClass: Option<ClassName>, interfaces: Option<seq<ClassName>>,
    fields: seq<FieldAbi>, constants: seq<ConstantAbi>, methods: seq<MethodAbi>,
    exposed: set<ClassName>, internal: set<ClassName>, poolNames: set<ClassName>): (r: Result<ClassAbi>)
    ensures r.Success? <==> name.Some? && version.Some? && modifiers.Some?
    ensures name.None? ==> r == Failure("class name wasn't parsed")
    ensures name.Some? && version.None? ==> r == Failure("class version wasn't parsed")
    ensures name.Some? && version.Some? && modifiers.None? ==> r == Failure("class modifiers wasn't parsed")
    ensures r.Success? ==>
      && r.value.name == name.value && r.value.version == version.value && r.value.modifiers == modifiers.value
      && r.value.superClass == superClass && r.value.interfaces == interfaces
      && r.value.fields == fields && r.value.constants == constants && r.value.methods == methods
    ensures r.Success? ==> forall n :: n in r.value.exposed <==> n in exposed && n != name.value
    ensures r.Success? ==> forall n :: n in r.value.internal <==>
      (n in internal || n in poolNames) && n != name.value && n !in exposed
  {
    match name
    case None => Failure("class name wasn't parsed")
    case Some(className) =>
      var internalDeps := internal + poolNames - {className} - exposed;
      var exposedDeps := exposed - {className};
      match version
      case None => Failure("class version wasn't parsed")
      case Some(v) =>
        match modifiers
        case None => Failure("class modifiers wasn't parsed")
        case Some(mods) =>
          Success(ClassAbi(v, mods, className, superClass, interfaces, fields, constants, methods, exposedDeps, internalDeps))
  }

  /** What `extract` returns for the given reader calls and constant pool. */
  function ExtractSpec(events: seq<ClassEvent>, pool: seq<PoolItem>, hash: string -> int): Result<ClassAbi> {
    var h := LastHeader(events);
    Assemble(HeaderVersion(h), HeaderModifiers(h), HeaderName(h), HeaderSuperClass(h), HeaderInterfaces(h),
             FieldsOf(events), ConstantsOf(events, hash), MethodsOf(events), ExposedOf(events), InternalOf(events),
             DependencyNames(ClassEntries(pool)))
  }

  /** Extraction fails exactly when the reader never called `visit`, and then with the class-name error. */
  lemma ExtractFailsOnlyWithoutHeader(events: seq<ClassEvent>, pool: seq<PoolItem>, hash: string -> int)
    ensures ExtractSpec(events, pool, hash).Failure? <==> LastHeader(events).None?
    ensures ExtractSpec(events, pool, hash).Failure? ==> ExtractSpec(events, pool, hash).error == "class name wasn't parsed"
  {
  }

  /**
   * The dependencies of an extracted ABI: exposed and internal are disjoint, the class is not
   * its own dependency, and no class of a `java.` package is recorded.
   */
  lemma ExtractedDependenciesAreSeparate(events: seq<ClassEvent>, pool: seq<PoolItem>, hash: string -> int)
    requires ExtractSpec(events, pool, hash).Success?
    ensures var c := ExtractSpec(events, pool, hash).value;
      && c.exposed !! c.internal
      && c.name !in AllDependencies(c)
      && forall n :: n in AllDependencies(c) ==> !StartsWith(n, "java.")
  {
    var c := ExtractSpec(events, pool, hash).value;
    forall n | n in AllDependencies(c) ensures !StartsWith(n, "java.") {
      if n in ExposedOf(events) {
        DependenciesOfMembership(events, n, false);
      } else if n in InternalOf(events) {
        DependenciesOfMembership(events, n, true);
      }
    }
  }

  /**
   * A class named by a type of a non-private member or of the header (other than the class
   * itself, primitives and `java.` classes) is an exposed dependency.
   */
  lemma NonPrivateUseIsExposed(events: seq<ClassEvent>, pool: seq<PoolItem>, hash: string -> int, i: int, t: TypeDescriptor)
    requires ExtractSpec(events, pool, hash).Success?
    requires 0 <= i < |events| && !IsPrivateAccess(events[i].access) && t in EventTypes(events[i])
    requires !IsPrimitive(t) && !StartsWith(TypeClassName(t), "java.")
    requires TypeClassName(t) != ExtractSpec(events, pool, hash).value.name
    ensures TypeClassName(t) in ExtractSpec(events, pool, hash).value.exposed
  {
    DependenciesOfMembership(events, TypeClassName(t), false);
  }

  /**
   * A class used only under ACC_PRIVATE (and not the class itself) is an internal dependency
   * and not an exposed one.
   */
  lemma PrivateOnlyUseIsInternal(events: seq<ClassEvent>, pool: seq<PoolItem>, hash: string -> int, n: ClassName)
    requires ExtractSpec(events, pool, hash).Success?
    requires exists i :: 0 <= i < |events| && n in EventDependencies(events[i], true)
    requires forall i :: 0 <= i < |events| ==> n !in EventDependencies(events[i], false)
    requires n != ExtractSpec(events, pool, hash).value.name
    ensures n in ExtractSpec(events, pool, hash).value.internal && n !in ExtractSpec(events, pool, hash).value.exposed
  {
    DependenciesOfMembership(events, n, false);
    DependenciesOfMembership(events, n, true);
  }

  /** A class named only by a class entry of the constant pool is an internal dependency. */
  lemma PoolClassIsInternal(events: seq<ClassEvent>, pool: seq<PoolItem>, hash: string -> int, k: int)
    requires ExtractSpec(events, pool, hash).Success?
    requires 0 <= k < |pool| && IsClassEntry(pool[k])
    requires !IsPrimitive(pool[k].classType) && !StartsWith(TypeClassName(pool[k].classType), "java.")
    requires TypeClassName(pool[k].classType) != ExtractSpec(events, pool, hash).value.name
    requires TypeClassName(pool[k].classType) !in ExtractSpec(events, pool, hash).value.exposed
    ensures TypeClassName(pool[k].classType) in ExtractSpec(events, pool, hash).value.internal
  {
    ClassEntriesMembership(pool, pool[k].classType);
  }

  /** Every constant comes from a field event for which `isExposedConstant` holds and which has a value, and there are no more constants than fields. */
  lemma {:induction false} ConstantsOfFieldEvents(events: seq<ClassEvent>, hash: string -> int)
    ensures |ConstantsOf(events, hash)| <= |FieldsOf(events)|
    ensures forall c :: c in ConstantsOf(events, hash) ==>
      exists i :: 0 <= i < |events| && events[i].FieldEvent? && IsExposedConstant(events[i].access) &&
                  events[i].value.Some? && c == ConstantAbi(events[i].name, hash(events[i].value.value))
  {
    if events != [] {
      var init := events[..|events| - 1];
      ConstantsOfFieldEvents(init, hash);
      assert forall i :: 0 <= i < |init| ==> init[i] == events[i];
    }
  }
}
