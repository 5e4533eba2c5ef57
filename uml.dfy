/**
 * The part of the UML2 object graph that the reader inspects. Each element kind
 * the reader distinguishes with `eClass()` or `instanceof` is a constructor;
 * every kind it does not recognise is an `Other...` constructor.
 */
module Uml {
  import opened Wrappers

  /** `ParameterDirectionKind`; `Value` is the literal's numeric code. */
  datatype DirectionKind = In | InOut | Out | Return {
    function Value(): (r: int) {
      match this
      case In => 0
      case InOut => 1
      case Out => 2
      case Return => 3
    }
  }

  /** The multiplicity upper bound `getUpper()` reports for "many" (`*`). */
  const Unlimited: int := -1

  /**
   * The declared type of a typed element. A primitive type that was not loaded
   * has an empty name and carries its identity in the fragment of its proxy
   * URI; an interface is only ever seen as a proxy.
   */
  datatype TypeRef =
    | PrimitiveType(name: Option<string>, fragment: Option<string>)
    | EnumerationType(name: Option<string>)
    | ClassType(name: Option<string>)
    | InterfaceType(fragment: Option<string>)
    | OtherType

  /** A `Property` used as an owned or inherited attribute. */
  datatype Property = Property(name: Option<string>, visibility: string, typ: TypeRef, upper: int)

  /** A `Parameter` of an operation; `direction` is null when unset. */
  datatype Parameter = Parameter(
    name: Option<string>, visibility: string, typ: TypeRef, upper: int, direction: Option<DirectionKind>)

  datatype Operation = Operation(name: Option<string>, visibility: string, parameters: seq<Parameter>)

  /** The upper-bound value specification of an association end. */
  datatype UpperValue =
    | NoUpperValue
    | UnlimitedNaturalUpper(value: int)
    | OtherUpperValue(value: int)  // e.g. a LiteralInteger: the reader's cast to LiteralUnlimitedNatural fails

  /** A member end of an association. */
  datatype AssociationEnd = AssociationEnd(
    name: Option<string>, visibility: string, typ: TypeRef, navigable: bool, upperValue: UpperValue)

  /** An element related by a generalization. */
  datatype RelatedElement = RelatedClass(name: Option<string>) | RelatedOther

  datatype Relationship =
    | Association(ends: seq<AssociationEnd>)
    | Generalization(related: seq<RelatedElement>)
    | OtherRelationship

  /** An owned rule; only an opaque-expression specification contributes its bodies. */
  datatype Constraint = OpaqueRule(bodies: seq<string>) | OtherRule

  /**
   * A superclass as seen from its subclass: its name and its package's name.
   * Every superclass has a package; `None` in `packageName` is a package whose
   * name is null, not a missing package.
   */
  datatype SuperClassInfo = SuperClassInfo(name: Option<string>, packageName: Option<string>)

  /** An inherited member. */
  datatype Member = PropertyMember(property: Property) | OperationMember(operation: Operation) | OtherMember

  datatype UmlClass = UmlClass(
    name: Option<string>,
    visibility: string,
    isAbstract: bool,
    isLeaf: bool,
    rules: seq<Constraint>,
    superClasses: seq<SuperClassInfo>,
    ownedAttributes: seq<Property>,
    ownedOperations: seq<Operation>,
    relationships: seq<Relationship>,
    inheritedMembers: seq<Member>)

  datatype UmlEnumeration = UmlEnumeration(name: Option<string>, literals: seq<Option<string>>)

  /** What an `InstanceValue` points at: nothing, or an instance (whose name may be null). */
  datatype InstanceTarget = NoInstance | TargetInstance(name: Option<string>)

  /** A value specification held by a slot. The real literal's value is kept as opaque text. */
  datatype ValueSpec =
    | InstanceValueSpec(target: InstanceTarget)
    | LiteralStringSpec(text: Option<string>)
    | LiteralIntegerSpec(intValue: int)
    | LiteralBooleanSpec(boolValue: bool)
    | LiteralRealSpec(realText: string)
    | LiteralUnlimitedNaturalSpec(naturalValue: int)
    | OtherLiteralSpec
    | OtherValueSpec

  /**
   * A slot: its defining feature's name and type name, and its values. Every
   * slot has a defining feature and every feature a type; only their names may be null.
   */
  datatype Slot = Slot(featureName: Option<string>, featureTypeName: Option<string>, values: seq<ValueSpec>)

  /**
   * A classifier of an instance. Every classifier has a package; `None` in
   * `packageName` is a package whose name is null, not a missing package.
   */
  datatype Classifier = Classifier(name: Option<string>, packageName: Option<string>)

  datatype InstanceSpec = InstanceSpec(name: Option<string>, slots: seq<Slot>, classifiers: seq<Classifier>)

  /** A packageable element, dispatched on its kind. */
  datatype Element =
    | ClassElement(cls: UmlClass)
    | EnumerationElement(enumeration: UmlEnumeration)
    | InstanceElement(instance: InstanceSpec)
    | PackageElement(pkg: UmlPackage)
    | OtherElement

  datatype UmlPackage = UmlPackage(name: Option<string>, elements: seq<Element>)
}
