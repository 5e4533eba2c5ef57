/**
 * Reading attributes and operations (`readAttribute`, `readClassOperation`,
 * `readClassOperations`): every typed position is classified by the kind of
 * its declared type.
 */
module MemberReader {
  import opened Wrappers
  import opened Uml
  import opened Diagram
  import opened TypeClassifier

  /** The direction code of a return parameter. */
  const ReturnDirection: int := 3

  /** Primitive, enumeration, class or interface: the kinds the readers handle. */
  predicate KnownKind(t: TypeRef) {
    !t.OtherType?
  }

  /** Classifying `t` raises no exception (an interface's fragment can be cut). */
  predicate TypeReadable(t: TypeRef) {
    t.InterfaceType? ==> FragmentReadable(t.fragment)
  }

  /** The type name recorded for a feature of declared type `t`. */
  function DeclaredTypeName(t: TypeRef): (r: Option<string>)
    requires TypeReadable(t)
    ensures t.PrimitiveType? && (t.name.None? || t.name.value == "") ==> r == t.fragment
    ensures t.PrimitiveType? && t.name.Some? && t.name.value != "" ==> r == t.name
    ensures t.EnumerationType? || t.ClassType? ==> r == t.name
    ensures t.OtherType? ==> r.None?
    ensures t.InterfaceType? ==> r == Some(AttributeInterface(t.fragment))
  {
    match t
    case PrimitiveType(name, fragment) => if name.None? || name.value == "" then fragment else name
    case EnumerationType(name) => name
    case ClassType(name) => name
    case InterfaceType(fragment) => Some(AttributeInterface(fragment))
    case OtherType => None
  }

  /**
   * `readAttribute(Property)`. A recognised kind copies name and visibility;
   * primitive, enumeration and class types are collections exactly when the
   * upper bound is "many", an interface exactly when its fragment names a
   * container; only an enumeration sets `isEnum` and only a class `isClass`;
   * any other kind leaves the attribute unnamed.
   */
  function ReadAttribute(p: Property): (r: ClassAttribute)
    requires TypeReadable(p.typ)
    ensures KnownKind(p.typ) ==> r.name == p.name && r.visibility == Some(p.visibility)
    ensures !KnownKind(p.typ) ==> r == NoAttribute
    ensures r.typeName == DeclaredTypeName(p.typ)
    ensures !p.typ.InterfaceType? ==> (r.isCollection <==> KnownKind(p.typ) && p.upper == Unlimited)
    ensures p.typ.InterfaceType? ==> (r.isCollection <==> AttributeInterfaceCollection(p.typ.fragment))
    ensures r.isEnum <==> p.typ.EnumerationType?
    ensures r.isClass <==> p.typ.ClassType?
  {
    match p.typ
    case OtherType => NoAttribute
    case InterfaceType(fragment) =>
      ClassAttribute(p.name, Some(p.visibility), DeclaredTypeName(p.typ),
                     AttributeInterfaceCollection(fragment), false, false)
    case _ =>
      ClassAttribute(p.name, Some(p.visibility), DeclaredTypeName(p.typ),
                     p.upper == Unlimited, p.typ.EnumerationType?, p.typ.ClassType?)
  }

  predicate PropertiesReadable(ps: seq<Property>) {
    forall i :: 0 <= i < |ps| ==> TypeReadable(ps[i].typ)
  }

  /**
   * The owned attributes `readAttribute(Class)` keeps: those whose reading has a
   * name, in declaration order.
   */
  function NamedAttributes(ps: seq<Property>): (r: seq<ClassAttribute>)
    requires PropertiesReadable(ps)
    ensures |r| <= |ps|
    ensures forall a :: a in r ==> a.name.Some? && exists i :: 0 <= i < |ps| && a == ReadAttribute(ps[i])
    ensures forall i :: 0 <= i < |ps| && ReadAttribute(ps[i]).name.Some? ==> ReadAttribute(ps[i]) in r
  {
    if ps == [] then []
    else
      var init, a := ps[..|ps| - 1], ReadAttribute(ps[|ps| - 1]);
      assert forall i :: 0 <= i < |init| ==> init[i] == ps[i];
      NamedAttributes(init) + (if a.name.Some? then [a] else [])
  }

  /** The kept attributes keep declaration order: reading a concatenation concatenates the lists. */
  lemma {:induction false} NamedAttributesAppend(a: seq<Property>, b: seq<Property>)
    requires PropertiesReadable(a) && PropertiesReadable(b)
    ensures PropertiesReadable(a + b)
    ensures NamedAttributes(a + b) == NamedAttributes(a) + NamedAttributes(b)
  {
    assert forall i :: 0 <= i < |a + b| ==> (a + b)[i] == if i < |a| then a[i] else b[i - |a|];
    if b == [] {
      assert a + b == a;
    } else {
      var b' := b[..|b| - 1];
      assert (a + b)[..|a + b| - 1] == a + b';
      assert (a + b)[|a + b| - 1] == b[|b| - 1];
      assert PropertiesReadable(b') by {
        assert forall i :: 0 <= i < |b'| ==> b'[i] == b[i];
      }
      NamedAttributesAppend(a, b');
    }
  }

  /** `readAttribute(Class)` over the class's owned attributes. */
  method ReadClassAttributes(ps: seq<Property>) returns (r: seq<ClassAttribute>)
    requires PropertiesReadable(ps)
    ensures r == NamedAttributes(ps)
  {
    r := [];
    for i := 0 to |ps|
      invariant r == NamedAttributes(ps[..i])
    {
      var attribute := ReadAttribute(ps[i]);
      if attribute.name.Some? {
        r := r + [attribute];
      }
      assert ps[..i + 1][..i] == ps[..i];
    }
    assert ps[..|ps|] == ps;
  }

  /** The parameter's direction value is that of RETURN. */
  predicate IsReturnParameter(p: Parameter) {
    p.direction.Some? && p.direction.value.Value() == ReturnDirection
  }

  /**
   * A non-return parameter of a recognised kind. A primitive-typed parameter
   * gets no visibility; an interface-typed one is never a collection.
   */
  function ReadParameter(p: Parameter): (r: OperationParameter)
    requires KnownKind(p.typ) && TypeReadable(p.typ)
    ensures r.name == p.name && r.typeName == DeclaredTypeName(p.typ)
    ensures r.visibility == if p.typ.PrimitiveType? then None else Some(p.visibility)
    ensures r.isCollection <==> !p.typ.InterfaceType? && p.upper == Unlimited
    ensures r.isClass <==> p.typ.ClassType?
  {
    OperationParameter(
      p.name,
      if p.typ.PrimitiveType? then None else Some(p.visibility),
      DeclaredTypeName(p.typ),
      !p.typ.InterfaceType? && p.upper == Unlimited,
      p.typ.ClassType?)
  }

  /** The return descriptor a return parameter of a recognised kind produces. */
  function ReadReturn(p: Parameter): (r: OperationReturn)
    requires KnownKind(p.typ) && TypeReadable(p.typ)
    ensures r.typeName == DeclaredTypeName(p.typ)
    ensures p.typ.InterfaceType? ==> !r.isCollection
    ensures r.isCollection <==> !p.typ.InterfaceType? && p.upper == Unlimited
    ensures r.isClass <==> p.typ.ClassType?
  {
    OperationReturn(DeclaredTypeName(p.typ), !p.typ.InterfaceType? && p.upper == Unlimited, p.typ.ClassType?)
  }

  /** A parameter that replaces the operation's return descriptor. */
  predicate ReplacesReturn(p: Parameter) {
    IsReturnParameter(p) && KnownKind(p.typ)
  }

  /** A parameter that is appended to the operation's parameter list. */
  predicate IsListedParameter(p: Parameter) {
    !IsReturnParameter(p) && KnownKind(p.typ)
  }

  predicate ParametersReadable(ps: seq<Parameter>) {
    forall i :: 0 <= i < |ps| ==> TypeReadable(ps[i].typ)
  }

  /** The return descriptor after reading `ps` in order: each return parameter replaces it. */
  function ReturnOf(ps: seq<Parameter>): (r: OperationReturn)
    requires ParametersReadable(ps)
    ensures r == VoidReturn || exists i :: 0 <= i < |ps| && ReplacesReturn(ps[i]) && r == ReadReturn(ps[i])
  {
    if ps == [] then VoidReturn
    else
      var last := ps[|ps| - 1];
      if ReplacesReturn(last) then ReadReturn(last) else ReturnOf(ps[..|ps| - 1])
  }

  /** The parameter list after reading `ps` in order. */
  function ParametersOf(ps: seq<Parameter>): (r: seq<OperationParameter>)
    requires ParametersReadable(ps)
    ensures |r| <= |ps|
    ensures forall x :: x in r ==> exists i :: 0 <= i < |ps| && IsListedParameter(ps[i]) && x == ReadParameter(ps[i])
    ensures forall i :: 0 <= i < |ps| && IsListedParameter(ps[i]) ==> ReadParameter(ps[i]) in r
  {
    if ps == [] then []
    else
      var init, last := ps[..|ps| - 1], ps[|ps| - 1];
      assert forall i :: 0 <= i < |init| ==> init[i] == ps[i];
      ParametersOf(init) + (if IsListedParameter(last) then [ReadParameter(last)] else [])
  }

  predicate OperationReadable(op: Operation) {
    ParametersReadable(op.parameters)
  }

  /** What `readClassOperation` builds for `op`. */
  function OperationOf(op: Operation): (r: ClassOperation)
    requires OperationReadable(op)
  {
    ClassOperation(op.name, op.visibility, ParametersOf(op.parameters), ReturnOf(op.parameters))
  }

  /** `readClassOperation`: one pass over the owned parameters. */
  method ReadClassOperation(op: Operation) returns (r: ClassOperation)
    requires OperationReadable(op)
    ensures r == OperationOf(op)
  {
    r := ClassOperation(op.name, op.visibility, [], VoidReturn);
    var ps := op.parameters;
    for i := 0 to |ps|
      invariant r == ClassOperation(op.name, op.visibility, ParametersOf(ps[..i]), ReturnOf(ps[..i]))
    {
      var parameter := ps[i];
      var returnType := parameter.direction.Some? && parameter.direction.value.Value() == ReturnDirection;
      if KnownKind(parameter.typ) {
        if returnType {
          r := r.(returnType := ReadReturn(parameter));
        } else {
          r := r.(parameters := r.parameters + [ReadParameter(parameter)]);
        }
      }
      assert ps[..i + 1][..i] == ps[..i];
    }
    assert ps[..|ps|] == ps;
  }

  /** With no return parameter, the operation keeps the void descriptor. */
  lemma {:induction false} NoReturnParameterMeansVoid(ps: seq<Parameter>)
    requires ParametersReadable(ps)
    requires forall i :: 0 <= i < |ps| ==> !ReplacesReturn(ps[i])
    ensures ReturnOf(ps) == VoidReturn
  {
    if ps != [] {
      NoReturnParameterMeansVoid(ps[..|ps| - 1]);
    }
  }

  /** The last return parameter of a recognised kind wins. */
  lemma {:induction false} LastReturnParameterWins(ps: seq<Parameter>, i: int)
    requires ParametersReadable(ps)
    requires 0 <= i < |ps| && ReplacesReturn(ps[i])
    requires forall j :: i < j < |ps| ==> !ReplacesReturn(ps[j])
    ensures ReturnOf(ps) == ReadReturn(ps[i])
  {
    if i < |ps| - 1 {
      LastReturnParameterWins(ps[..|ps| - 1], i);
    }
  }

  /** Parameters are listed in source order: reading a concatenation concatenates the lists. */
  lemma {:induction false} ParametersOfAppend(a: seq<Parameter>, b: seq<Parameter>)
    requires ParametersReadable(a) && ParametersReadable(b)
    ensures ParametersReadable(a + b)
    ensures ParametersOf(a + b) == ParametersOf(a) + ParametersOf(b)
  {
    if b != [] {
      var b' := b[..|b| - 1];
      assert (a + b)[..|a + b| - 1] == a + b';
      ParametersOfAppend(a, b');
    } else {
      assert a + b == a;
    }
  }

  /** The descriptors of the operation's listed parameters, one per listed parameter. */
  lemma {:induction false} ParametersOfCount(ps: seq<Parameter>)
    requires ParametersReadable(ps)
    ensures (forall i :: 0 <= i < |ps| ==> IsListedParameter(ps[i])) ==> |ParametersOf(ps)| == |ps|
    ensures (forall i :: 0 <= i < |ps| ==> !IsListedParameter(ps[i])) ==> ParametersOf(ps) == []
  {
    if ps != [] {
      ParametersOfCount(ps[..|ps| - 1]);
    }
  }

  /**
   * A parameter and an attribute of the same declared type and bound get the
   * same type name; both are collections for a "many" bound, except that an
   * interface-typed parameter never is.
   */
  lemma ParameterAgreesWithAttribute(p: Parameter)
    requires KnownKind(p.typ) && TypeReadable(p.typ)
    ensures var a := ReadAttribute(Property(p.name, p.visibility, p.typ, p.upper));
      ReadParameter(p).typeName == a.typeName && ReadParameter(p).isClass == a.isClass
      && (!p.typ.InterfaceType? ==> ReadParameter(p).isCollection == a.isCollection)
      && (p.typ.InterfaceType? ==> !ReadParameter(p).isCollection)
  {
  }

  predicate OperationsReadable(ops: seq<Operation>) {
    forall i :: 0 <= i < |ops| ==> OperationReadable(ops[i])
  }

  /** One `ClassOperation` per operation, in order. */
  function OperationsOf(ops: seq<Operation>): (r: seq<ClassOperation>)
    requires OperationsReadable(ops)
    ensures |r| == |ops|
    ensures forall i :: 0 <= i < |ops| ==> r[i] == OperationOf(ops[i])
  {
    if ops == [] then [] else OperationsOf(ops[..|ops| - 1]) + [OperationOf(ops[|ops| - 1])]
  }

  /** `readClassOperations`: every owned operation, in order. */
  method ReadClassOperations(ops: seq<Operation>) returns (r: seq<ClassOperation>)
    requires OperationsReadable(ops)
    ensures r == OperationsOf(ops)
  {
    r := [];
    for i := 0 to |ops|
      invariant r == OperationsOf(ops[..i])
    {
      var operation := ReadClassOperation(ops[i]);
      r := r + [operation];
      assert ops[..i + 1][..i] == ops[..i];
    }
    assert ops[..|ops|] == ops;
  }
}
