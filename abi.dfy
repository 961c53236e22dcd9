/**
 * The ABI data model: what the extractor records about one compiled class, the
 * access-flag decoding of the JVM, the visibility order and the identity keys of members.
 */
module Abi {
  import opened Wrappers

  /** A fully qualified class name with dots as package separators, e.g. "java.lang.String". */
  type ClassName = string

  /**
   * The element type of a type descriptor: a primitive or `void` (named by its Java keyword,
   * which is what ASM gives as its class name) or a class.
   */
  datatype ElementType = Primitive(keyword: string) | Object(name: ClassName)

  /** An ASM type as far as the model needs it: an element type and its array dimensions. */
  datatype TypeDescriptor = TypeDescriptor(element: ElementType, dimensions: nat)

  predicate IsArray(t: TypeDescriptor) {
    t.dimensions > 0
  }

  /** The non-array type an array type is built from (a non-array type is its own element type). */
  function ElementTypeOf(t: TypeDescriptor): (e: TypeDescriptor)
    ensures !IsArray(e) && e.element == t.element
  {
    TypeDescriptor(t.element, 0)
  }

  /** `className`: for an array the class name of its element type. */
  function TypeClassName(t: TypeDescriptor): ClassName {
    match ElementTypeOf(t).element
    case Primitive(k) => k
    case Object(n) => n
  }

  /** `isPrimitive`: whether the element type is a primitive (ASM sort below ARRAY). */
  predicate IsPrimitive(t: TypeDescriptor) {
    ElementTypeOf(t).element.Primitive?
  }

  /** For array types, `className` and `isPrimitive` are those of the element type. */
  lemma ArrayTypeUsesElementType(t: TypeDescriptor)
    requires IsArray(t)
    ensures TypeClassName(t) == TypeClassName(ElementTypeOf(t))
    ensures IsPrimitive(t) <==> IsPrimitive(ElementTypeOf(t))
  {
  }

  /** `ClassName.fromInternalName`, `name.replace('/', '.')`. */
  function FromInternalName(name: string): ClassName {
    if name == [] then [] else [if name[0] == '/' then '.' else name[0]] + FromInternalName(name[1..])
  }

  /** The inverse direction, `qualifiedName.replace('.', '/')`. */
  function ToInternalName(name: ClassName): string {
    if name == [] then [] else [if name[0] == '.' then '/' else name[0]] + ToInternalName(name[1..])
  }

  /** Every '/' becomes '.', every other character is kept. */
  lemma {:induction false} FromInternalNamePointwise(name: string)
    ensures |FromInternalName(name)| == |name|
    ensures forall i :: 0 <= i < |name| ==> FromInternalName(name)[i] == (if name[i] == '/' then '.' else name[i])
  {
    if name != [] {
      FromInternalNamePointwise(name[1..]);
    }
  }

  /** Every '.' becomes '/', every other character is kept. */
  lemma {:induction false} ToInternalNamePointwise(name: ClassName)
    ensures |ToInternalName(name)| == |name|
    ensures forall i :: 0 <= i < |name| ==> ToInternalName(name)[i] == (if name[i] == '.' then '/' else name[i])
  {
    if name != [] {
      ToInternalNamePointwise(name[1..]);
    }
  }

  /** A converted internal name has no '/' left. */
  lemma FromInternalNameHasNoSlash(name: string)
    ensures '/' !in FromInternalName(name)
  {
    FromInternalNamePointwise(name);
    var r := FromInternalName(name);
    assert forall i :: 0 <= i < |r| ==> r[i] != '/';
  }

  /** An internal name without dots survives the round trip to a class name and back. */
  lemma InternalNameRoundTrip(name: string)
    requires '.' !in name
    ensures ToInternalName(FromInternalName(name)) == name
  {
    FromInternalNamePointwise(name);
    ToInternalNamePointwise(FromInternalName(name));
    var r := ToInternalName(FromInternalName(name));
    forall i | 0 <= i < |name| ensures r[i] == name[i] {
      assert name[i] != '.';
    }
  }

  /** The modifiers of `Modifier`, in declaration order. */
  datatype Modifier =
    | Public | Private | Protected | Static | Final | Super | Synchronized | Open | Transitive
    | Volatile | Bridge | StaticPhase | Varargs | Transient | Native | Interface | Abstract
    | Strict | Synthetic | Annotation | Enum | Mandated | Module

  /** Each modifier's mask, the value of the `ACC_` constant of ASM's `Opcodes`. */
  function Mask(m: Modifier): bv32 {
    match m
    case Public => 0x0001
    case Private => 0x0002
    case Protected => 0x0004
    case Static => 0x0008
    case Final => 0x0010
    case Super => 0x0020
    case Synchronized => 0x0020
    case Open => 0x0020
    case Transitive => 0x0020
    case Volatile => 0x0040
    case Bridge => 0x0040
    case StaticPhase => 0x0040
    case Varargs => 0x0080
    case Transient => 0x0080
    case Native => 0x0100
    case Interface => 0x0200
    case Abstract => 0x0400
    case Strict => 0x0800
    case Synthetic => 0x1000
    case Annotation => 0x2000
    case Enum => 0x4000
    case Mandated => 0x8000
    case Module => 0x8000
  }

  /** `Modifier.values()`. */
  function AllModifiers(): seq<Modifier> {
    [Public, Private, Protected, Static, Final, Super, Synchronized, Open, Transitive,
     Volatile, Bridge, StaticPhase, Varargs, Transient, Native, Interface, Abstract,
     Strict, Synthetic, Annotation, Enum, Mandated, Module]
  }

  lemma AllModifiersListed(m: Modifier)
    ensures m in AllModifiers()
  {
  }

  /** `Modifier.parse`: a modifier is present exactly when some bit of its mask is set. */
  function ParseModifiers(flags: bv32): (r: set<Modifier>)
    ensures forall m :: m in r <==> flags & Mask(m) != 0
  {
    var r := set m | m in AllModifiers() && flags & Mask(m) != 0;
    assert forall m :: m in r <==> flags & Mask(m) != 0 by {
      forall m ensures m in r <==> flags & Mask(m) != 0 {
        AllModifiersListed(m);
      }
    }
    r
  }

  /** Masks share bits: ACC_SUPER's bit alone decodes to four modifiers, and to those only. */
  lemma SharedBitYieldsSeveralModifiers(m: Modifier)
    ensures m in ParseModifiers(0x0020) <==> m in {Super, Synchronized, Open, Transitive}
  {
    if m in {Super, Synchronized, Open, Transitive} {
      assert Mask(m) == 0x0020;
    } else {
      assert Mask(m) & 0x0020 == 0;
    }
  }

  /** `AccessModifier`, whose declaration order is the visibility order. */
  datatype AccessModifier = PrivateAccess | PackageAccess | ProtectedAccess | PublicAccess

  /** The enum ordinal, which Kotlin's `<` on enums compares. */
  function Ordinal(a: AccessModifier): nat {
    match a
    case PrivateAccess => 0
    case PackageAccess => 1
    case ProtectedAccess => 2
    case PublicAccess => 3
  }

  predicate Narrower(a: AccessModifier, b: AccessModifier) {
    Ordinal(a) < Ordinal(b)
  }

  /** The visibility order is a strict total order on the four access levels. */
  lemma NarrowerIsStrictTotalOrder(a: AccessModifier, b: AccessModifier, c: AccessModifier)
    ensures !Narrower(a, a)
    ensures Narrower(a, b) && Narrower(b, c) ==> Narrower(a, c)
    ensures a != b ==> Narrower(a, b) || Narrower(b, a)
    ensures Narrower(PrivateAccess, PackageAccess) && Narrower(PackageAccess, ProtectedAccess)
    ensures Narrower(ProtectedAccess, PublicAccess)
  {
  }

  /** `asAccessModifier`: PRIVATE wins over PROTECTED, which wins over PUBLIC; none of them is PACKAGE. */
  function AccessOf(modifiers: set<Modifier>): (r: AccessModifier)
    ensures r == PrivateAccess <==> Private in modifiers
    ensures r == ProtectedAccess <==> Private !in modifiers && Protected in modifiers
    ensures r == PublicAccess <==> Private !in modifiers && Protected !in modifiers && Public in modifiers
    ensures r == PackageAccess <==> Private !in modifiers && Protected !in modifiers && Public !in modifiers
  {
    if Private in modifiers then PrivateAccess
    else if Protected in modifiers then ProtectedAccess
    else if Public in modifiers then PublicAccess
    else PackageAccess
  }

  datatype FieldAbi = FieldAbi(modifiers: set<Modifier>, name: string, fieldType: TypeDescriptor)

  /** The identity of a method across versions: name, argument types and return type. */
  datatype MethodSignature = MethodSignature(name: string, arguments: seq<TypeDescriptor>, returnType: TypeDescriptor)

  datatype MethodAbi = MethodAbi(
    modifiers: set<Modifier>,
    name: string,
    arguments: seq<TypeDescriptor>,
    returnType: TypeDescriptor,
    exceptions: set<ClassName>)

  /** A compile-time constant: its name and the hash of its value's text. */
  datatype ConstantAbi = ConstantAbi(name: string, valueHash: int)

  datatype ClassAbi = ClassAbi(
    version: int,
    modifiers: set<Modifier>,
    name: ClassName,
    superClass: Option<ClassName>,
    interfaces: Option<seq<ClassName>>,
    fields: seq<FieldAbi>,
    constants: seq<ConstantAbi>,
    methods: seq<MethodAbi>,
    exposed: set<ClassName>,   // classes visible through non-private declarations
    internal: set<ClassName>)  // classes used only privately, e.g. in method bodies

  /** `MethodAbi.signature`. */
  function Signature(m: MethodAbi): MethodSignature {
    MethodSignature(m.name, m.arguments, m.returnType)
  }

  /** Changing modifiers or declared exceptions keeps a method's identity. */
  lemma SignatureIgnoresModifiersAndExceptions(m: MethodAbi, modifiers: set<Modifier>, exceptions: set<ClassName>)
    ensures Signature(m.(modifiers := modifiers, exceptions := exceptions)) == Signature(m)
    ensures forall n: MethodAbi :: Signature(n) == Signature(m) <==>
              n.name == m.name && n.arguments == m.arguments && n.returnType == m.returnType
  {
  }

  function FieldName(f: FieldAbi): string { f.name }
  function ConstantName(c: ConstantAbi): string { c.name }

  /** No element after index i has the same key as xs[i]. */
  ghost predicate LastWithKey<K, V>(xs: seq<V>, key: V -> K, i: int)
    requires 0 <= i < |xs|
  {
    forall j :: i < j < |xs| ==> key(xs[j]) != key(xs[i])
  }

  /**
   * Kotlin's `associateBy`: the keys are exactly the keys of the elements; on duplicate keys the
   * last element wins.
   */
  function AssociateBy<K, V>(xs: seq<V>, key: V -> K): (m: map<K, V>)
    ensures forall i :: 0 <= i < |xs| ==> key(xs[i]) in m
    ensures forall k :: k in m ==> exists i :: 0 <= i < |xs| && key(xs[i]) == k && m[k] == xs[i]
    ensures forall i :: 0 <= i < |xs| && LastWithKey(xs, key, i) ==> m[key(xs[i])] == xs[i]
    decreases |xs|
  {
    if xs == [] then map[]
    else
      var init := xs[..|xs| - 1];
      var m0 := AssociateBy(init, key);
      var m := m0[key(xs[|xs| - 1]) := xs[|xs| - 1]];
      assert forall i :: 0 <= i < |xs| - 1 ==> init[i] == xs[i];
      assert forall k :: k in m ==> exists i :: 0 <= i < |xs| && key(xs[i]) == k && m[k] == xs[i] by {
        forall k | k in m ensures exists i :: 0 <= i < |xs| && key(xs[i]) == k && m[k] == xs[i] {
          if k == key(xs[|xs| - 1]) {
            assert key(xs[|xs| - 1]) == k && m[k] == xs[|xs| - 1];
          } else {
            var i :| 0 <= i < |init| && key(init[i]) == k && m0[k] == init[i];
            assert key(xs[i]) == k && m[k] == xs[i];
          }
        }
      }
      assert forall i :: 0 <= i < |xs| && LastWithKey(xs, key, i) ==> m[key(xs[i])] == xs[i] by {
        forall i | 0 <= i < |xs| && LastWithKey(xs, key, i) ensures m[key(xs[i])] == xs[i] {
          if i < |xs| - 1 {
            assert key(xs[|xs| - 1]) != key(xs[i]);
            assert LastWithKey(init, key, i) by {
              forall j | i < j < |init| ensures key(init[j]) != key(init[i]) {
                assert key(xs[j]) != key(xs[i]);
              }
            }
          }
        }
      }
      m
  }

  /** Every value of an `associateBy` map is filed under its own key. */
  lemma AssociateByValueHasKey<K, V>(xs: seq<V>, key: V -> K, k: K)
    requires k in AssociateBy(xs, key)
    ensures key(AssociateBy(xs, key)[k]) == k
    ensures AssociateBy(xs, key)[k] in xs
  {
  }

  /** Appending elements under keys not yet present leaves every existing entry as it was. */
  lemma {:induction false} AssociateByAppendFresh<K, V>(xs: seq<V>, ys: seq<V>, key: V -> K)
    requires forall y :: y in ys ==> key(y) !in AssociateBy(xs, key)
    ensures forall k :: k in AssociateBy(xs, key) ==>
      k in AssociateBy(xs + ys, key) && AssociateBy(xs + ys, key)[k] == AssociateBy(xs, key)[k]
    decreases |ys|
  {
    if ys == [] {
      assert xs + ys == xs;
    } else {
      var init := ys[..|ys| - 1];
      assert (xs + ys)[..|xs + ys| - 1] == xs + init;
      assert forall y :: y in init ==> y in ys;
      AssociateByAppendFresh(xs, init, key);
      assert ys[|ys| - 1] in ys;
    }
  }

  /** `fieldsMap`: fields by name. */
  function FieldsMap(c: ClassAbi): (m: map<string, FieldAbi>)
    ensures m.Keys == set f | f in c.fields :: f.name
  {
    var m := AssociateBy(c.fields, FieldName);
    assert m.Keys == set f | f in c.fields :: f.name by {
      forall k | k in m ensures k in set f | f in c.fields :: f.name {
        var i :| 0 <= i < |c.fields| && FieldName(c.fields[i]) == k && m[k] == c.fields[i];
      }
      forall k | k in set f | f in c.fields :: f.name ensures k in m {
        var f :| f in c.fields && f.name == k;
        var i :| 0 <= i < |c.fields| && c.fields[i] == f;
        assert FieldName(c.fields[i]) in m;
      }
    }
    m
  }

  /** `methodsMap`: methods by signature. */
  function MethodsMap(c: ClassAbi): (m: map<MethodSignature, MethodAbi>)
    ensures m.Keys == set x | x in c.methods :: Signature(x)
  {
    var m := AssociateBy(c.methods, Signature);
    assert m.Keys == set x | x in c.methods :: Signature(x) by {
      forall k | k in m ensures k in set x | x in c.methods :: Signature(x) {
        var i :| 0 <= i < |c.methods| && Signature(c.methods[i]) == k && m[k] == c.methods[i];
      }
      forall k | k in set x | x in c.methods :: Signature(x) ensures k in m {
        var x :| x in c.methods && Signature(x) == k;
        var i :| 0 <= i < |c.methods| && c.methods[i] == x;
        assert Signature(c.methods[i]) in m;
      }
    }
    m
  }

  /** `constantsMap`: constants by name. */
  function ConstantsMap(c: ClassAbi): (m: map<string, ConstantAbi>)
    ensures m.Keys == set x | x in c.constants :: x.name
  {
    var m := AssociateBy(c.constants, ConstantName);
    assert m.Keys == set x | x in c.constants :: x.name by {
      forall k | k in m ensures k in set x | x in c.constants :: x.name {
        var i :| 0 <= i < |c.constants| && ConstantName(c.constants[i]) == k && m[k] == c.constants[i];
      }
      forall k | k in set x | x in c.constants :: x.name ensures k in m {
        var x :| x in c.constants && x.name == k;
        var i :| 0 <= i < |c.constants| && c.constants[i] == x;
        assert ConstantName(c.constants[i]) in m;
      }
    }
    m
  }

  /** `allDependencies`. */
  function AllDependencies(c: ClassAbi): (r: set<ClassName>)
    ensures forall n :: n in r <==> n in c.exposed || n in c.internal
  {
    c.exposed + c.internal
  }

  /** The access level of a field or method, from its modifiers. */
  function FieldAccess(f: FieldAbi): AccessModifier { AccessOf(f.modifiers) }
  function MethodAccess(m: MethodAbi): AccessModifier { AccessOf(m.modifiers) }
}
