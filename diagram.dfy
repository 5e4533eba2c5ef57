/** The normalised records the reader builds. A field the reader never sets is `None`. */
module Diagram {
  import opened Wrappers

  datatype ClassAttribute = ClassAttribute(
    name: Option<string>, visibility: Option<string>, typeName: Option<string>,
    isCollection: bool, isEnum: bool, isClass: bool)

  /** A freshly constructed `ClassAttribute`. */
  const NoAttribute: ClassAttribute := ClassAttribute(None, None, None, false, false, false)

  datatype OperationParameter = OperationParameter(
    name: Option<string>, visibility: Option<string>, typeName: Option<string>,
    isCollection: bool, isClass: bool)

  datatype OperationReturn = OperationReturn(typeName: Option<string>, isCollection: bool, isClass: bool)

  /** A freshly constructed `OperationReturn`: the descriptor of a void operation. */
  const VoidReturn: OperationReturn := OperationReturn(None, false, false)

  datatype ClassOperation = ClassOperation(
    name: Option<string>, visibility: string, parameters: seq<OperationParameter>, returnType: OperationReturn)

  datatype RelationKind = GeneralizationKind | AssociationKind

  /** A relation; the lower multiplicities are never set by the reader and are not represented. */
  datatype ClassRelation = ClassRelation(
    kind: RelationKind,
    visibility: Option<string>,
    class1: Option<string>, roleName1: Option<string>, navigable1: bool, upper1: Option<int>,
    class2: Option<string>, roleName2: Option<string>, navigable2: bool, upper2: Option<int>)

  /** A relation of the given kind with nothing filled in. */
  function EmptyRelation(kind: RelationKind): (r: ClassRelation) {
    ClassRelation(kind, None, None, None, false, None, None, None, false, None)
  }

  /**
   * An entry of a class's superclass list: the placeholder the reader creates,
   * then, after resolution, a reference to the canonical class stored under
   * `key` in the class map, or `Absent` (null) when the lookup missed.
   */
  datatype SuperClass = Placeholder(name: Option<string>, pkg: Option<string>) | Resolved(key: Option<string>) | Absent

  /** A slot value as the reader records it. */
  datatype SlotValue =
    | StringValue(text: Option<string>)
    | IntegerValue(intValue: int)
    | BooleanValue(boolValue: bool)
    | RealValue(realText: string)
    | UnlimitedNaturalValue(naturalValue: int)
    | InstanceNameValue(instanceName: Option<string>)

  datatype InstanceAttribute = InstanceAttribute(
    name: Option<string>, typeName: Option<string>, isClass: bool, values: seq<SlotValue>)

  /** The (name, package) pair an instance records for each classifier it names. */
  datatype ClassifierKey = ClassifierKey(name: string, pkg: Option<string>)

  datatype ClassInstance = ClassInstance(
    name: Option<string>, pkg: Option<string>, attributes: seq<InstanceAttribute>, classes: seq<ClassifierKey>)

  /** A freshly constructed `ClassInstance`. */
  const EmptyInstance: ClassInstance := ClassInstance(None, None, [], [])

  datatype ClassStructure = ClassStructure(
    name: Option<string>,
    pkg: Option<string>,
    visibility: Option<string>,
    isAbstract: bool,
    isFinal: bool,
    attributes: seq<ClassAttribute>,
    operations: seq<ClassOperation>,
    relations: seq<ClassRelation>,
    rules: seq<string>,
    superClasses: seq<SuperClass>,
    instances: seq<ClassInstance>)

  datatype EnumStructure = EnumStructure(name: Option<string>, pkg: string, literals: seq<Option<string>>)

  /** A node of the package tree; `name` is the dot-joined qualified name. */
  datatype PackageStructure = PackageStructure(
    name: string,
    classes: seq<ClassStructure>,
    enums: seq<EnumStructure>,
    instances: seq<ClassInstance>,
    packages: seq<PackageStructure>)

  /** The flat result: the three name-keyed maps (their value order is a hash order in the source). */
  datatype ClassDiagram = ClassDiagram(
    classes: map<Option<string>, ClassStructure>,
    enums: map<Option<string>, EnumStructure>,
    instances: map<Option<string>, ClassInstance>)
}
