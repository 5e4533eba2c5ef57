# ClassDiagramReader, modelled in Dafny

This project models `ClassDiagramReader`, the model-to-model transformer of the
EMF example reader. It walks a UML package tree and builds a flat class
diagram. The UML/EMF object graph is replaced by input datatypes (module `Uml`):
packages, classes, enumerations, instance specifications and typed features.
The output records (`ClassStructure`, `ClassAttribute`, `ClassOperation`,
`ClassRelation`, `ClassInstance`, `EnumStructure`, `PackageStructure`,
`ClassDiagram`) are datatypes in module `Diagram`. A Java `null` is `None` of
`Option`.

The modules follow the reader's parts:

- `JavaString`: `String.indexOf` and `String.contains`, as the parser uses them.
- `TypeClassifier`: the proxy-fragment parser (`attributeInterfaceCollection`, `attributeInterface`).
- `MemberReader`: the attribute and operation readers.
- `RelationReader`: `readGeneralization`, `readAssociation` and `readClassRelations`.
- `InstanceReader`: `readInstance`.
- `PackageWalker`: `readEnumeration`, `readClass` and the recursive `readPackage`.
- `NameIndex`: `classStructures`, `enumStructure` and `classInstances`, which build name-keyed maps.
- `Resolver`: `getRefModelDetails`, which resolves superclasses and attaches instances.

Every Java method that loops is a Dafny `method` with the same loop. Its
`ensures` ties the result to a specification function, and lemmas state the
properties of that function. A `HashMap` is a `map` keyed by `Option<string>`,
because `HashMap` admits the null key and the reader relies on it.

Notes on what the code does, which the model follows:

- **Superclass placeholders are empty.** In `readClass` the superclass loop
  writes each superclass's name and package onto the class being built, not onto
  the new placeholder (254-261). Lines 266 and 271 then overwrite those writes,
  so the class keeps its own name and package. Every placeholder is unnamed, so
  the lookup at line 42 is `classes.get(null)`. Every superclass entry of every
  class therefore resolves to the same thing. That is the class stored under the
  null key when one exists (a class without a name), and null otherwise. It is
  the declared superclass only by coincidence, when that superclass is itself
  the unnamed class stored under the null key. `Resolver.UniformResolution` and
  `Resolver.GetRefModelDetails` state this.
- **The fragment parser can throw.** When the markers are missing, the code does
  not return `""`. `indexOf` gives -1, the start offset becomes one short of the
  length of the prefix searched for, and `substring` throws or cuts an unintended slice (663-664,
  672-673). The model requires exactly the condition under which `substring`
  does not throw (`TypeClassifier.FragmentReadable`).
- **Only fully qualified tokens are recognised.** A fragment is a container only
  when it contains `java.util.List` or `java.util.ArrayList`. A fragment such as
  `List[project^id=Foo]$uml.Interface` is read as the plain name `Foo`.
- **A generalization's second class is its last class.** `class_2` is
  overwritten by every class-typed related element after the first (546-558). It
  is the second class only when there are exactly two.
- **An instance naming an unknown class is an error.** The append at line 53
  dereferences `classes.get(name)`, so a classifier name that is not a class key
  throws. It is not a soft miss, so the model requires it away
  (`Resolver.ClassifiersKnown`).
- **Lower multiplicities are never set.** The branches at 590 and 615 test the
  end itself with `instanceof LiteralUnlimitedNatural`, so they never fire.

## Model

All source cells refer to `src/main/java/org/eclipse/emf/example/reader/ClassDiagramReader.java`.

| member | source | states |
|---|---|---|
| JavaString.IndexOf | src/main/java/org/eclipse/emf/example/reader/ClassDiagramReader.java:661-673 | `indexOf` gives -1 or a position where the text occurs, and the text occurs at no earlier position |
| JavaString.NoOccurrenceBeforeFirst | src/main/java/org/eclipse/emf/example/reader/ClassDiagramReader.java:663-664 | a slice ending at the first occurrence of a non-empty text does not contain that text |
| TypeClassifier.ContainerToken | src/main/java/org/eclipse/emf/example/reader/ClassDiagramReader.java:650-658 | a fragment containing `java.util.List` gives that token; one containing only `java.util.ArrayList` gives that one; the token is "" exactly when it contains neither |
| TypeClassifier.ContainerTokenOf | src/main/java/org/eclipse/emf/example/reader/ClassDiagramReader.java:651-657 | a fragment starting with `java.util.List` is a List; one starting with `java.util.ArrayList` and containing no `java.util.List` is an ArrayList |
| TypeClassifier.AttributeInterfaceCollection | src/main/java/org/eclipse/emf/example/reader/ClassDiagramReader.java:634-643 | a fragment is a collection exactly when it is non-null, non-empty and names a container token |
| TypeClassifier.AttributeInterface | src/main/java/org/eclipse/emf/example/reader/ClassDiagramReader.java:645-679 | a null or empty fragment gives ""; the container branch (`Token<Element>`) is taken exactly when `attributeInterfaceCollection` holds; otherwise the bare element name |
| TypeClassifier.ElementNameHasNoMarker | src/main/java/org/eclipse/emf/example/reader/ClassDiagramReader.java:661-673 | the element name stops at the first `]$uml.Interface`, so it never contains that marker |
| TypeClassifier.ContainerFragmentRoundTrip | src/main/java/org/eclipse/emf/example/reader/ClassDiagramReader.java:634-666 | encoding a container and a `]`-free element name as `<token>[project^id=<name>]$uml.Interface...` parses back to `<token><<name>>` and is marked a collection |
| TypeClassifier.PlainFragmentRoundTrip | src/main/java/org/eclipse/emf/example/reader/ClassDiagramReader.java:667-676 | `[project^id=<name>]$uml.Interface...` without a container token parses back to `<name>` and is not a collection |
| MemberReader.DeclaredTypeName | src/main/java/org/eclipse/emf/example/reader/ClassDiagramReader.java:486-534 | a primitive with a null or empty name takes its type from the proxy fragment, a named primitive its own name; an enumeration or class takes its name; an interface takes the parsed fragment; any other kind gives null |
| MemberReader.ReadAttribute | src/main/java/org/eclipse/emf/example/reader/ClassDiagramReader.java:483-539 | primitive, enumeration and class types are collections exactly when `upper == -1`, an interface exactly when its fragment names a container; only enumerations set `isEnum`, only classes `isClass`; an unknown kind gives an unnamed attribute |
| MemberReader.NamedAttributes | src/main/java/org/eclipse/emf/example/reader/ClassDiagramReader.java:469-481 | the kept attributes are exactly the named readings of the owned properties |
| MemberReader.NamedAttributesAppend | src/main/java/org/eclipse/emf/example/reader/ClassDiagramReader.java:469-481 | the kept attributes keep declaration order: reading a concatenation concatenates the lists |
| MemberReader.ReadClassAttributes | src/main/java/org/eclipse/emf/example/reader/ClassDiagramReader.java:469-481 | the loop over the owned attributes computes `NamedAttributes` |
| MemberReader.ReadParameter | src/main/java/org/eclipse/emf/example/reader/ClassDiagramReader.java:351-458 | a listed parameter keeps its name and type; it has no visibility when primitive; it is a collection exactly when not an interface and `upper == -1`; it is a class exactly when class-typed |
| MemberReader.ReadReturn | src/main/java/org/eclipse/emf/example/reader/ClassDiagramReader.java:354-451 | a return descriptor takes the parameter's type; an interface-typed return is never a collection (448) |
| MemberReader.ReturnOf | src/main/java/org/eclipse/emf/example/reader/ClassDiagramReader.java:333-461 | the return descriptor is the fresh void one or the reading of some return parameter |
| MemberReader.ParametersOf | src/main/java/org/eclipse/emf/example/reader/ClassDiagramReader.java:339-461 | the parameter list holds exactly the readings of the non-return parameters of a recognised kind |
| MemberReader.ReadClassOperation | src/main/java/org/eclipse/emf/example/reader/ClassDiagramReader.java:330-466 | the loop over the parameters builds `OperationOf`: name, visibility, `ParametersOf` and `ReturnOf` |
| MemberReader.NoReturnParameterMeansVoid | src/main/java/org/eclipse/emf/example/reader/ClassDiagramReader.java:335-346 | without a return parameter the operation keeps the fresh void descriptor |
| MemberReader.LastReturnParameterWins | src/main/java/org/eclipse/emf/example/reader/ClassDiagramReader.java:341-461 | among parameters with direction value 3, the last one gives the return descriptor |
| MemberReader.ParametersOfAppend | src/main/java/org/eclipse/emf/example/reader/ClassDiagramReader.java:339-461 | parameters keep source order: reading a concatenation concatenates the lists |
| MemberReader.ParametersOfCount | src/main/java/org/eclipse/emf/example/reader/ClassDiagramReader.java:339-461 | when every parameter is listed there is one descriptor each; when none is, the list is empty |
| MemberReader.ParameterAgreesWithAttribute | src/main/java/org/eclipse/emf/example/reader/ClassDiagramReader.java:351-458 | a parameter and an attribute of the same type and bound agree on type name and class flag, and on the collection flag except for interfaces |
| MemberReader.OperationsOf | src/main/java/org/eclipse/emf/example/reader/ClassDiagramReader.java:314-328 | one operation descriptor per owned operation, in order |
| MemberReader.ReadClassOperations | src/main/java/org/eclipse/emf/example/reader/ClassDiagramReader.java:314-328 | the loop over the owned operations computes `OperationsOf` |
| RelationReader.ClassNames | src/main/java/org/eclipse/emf/example/reader/ClassDiagramReader.java:547-557 | every class-typed related element contributes its name |
| RelationReader.ClassNamesAppend | src/main/java/org/eclipse/emf/example/reader/ClassDiagramReader.java:547-557 | class names keep source order |
| RelationReader.ReadGeneralization | src/main/java/org/eclipse/emf/example/reader/ClassDiagramReader.java:542-560 | the `first`-flag loop computes `GeneralizationOf`: a generalization whose class 1 is the first class and class 2 the last one after it |
| RelationReader.GeneralizationIgnoresOthers | src/main/java/org/eclipse/emf/example/reader/ClassDiagramReader.java:548 | related elements that are not classes do not change the relation |
| RelationReader.GeneralizationOfTwoClasses | src/main/java/org/eclipse/emf/example/reader/ClassDiagramReader.java:546-558 | with exactly two classes, class 1 is the first and class 2 the second |
| RelationReader.ClassEnds | src/main/java/org/eclipse/emf/example/reader/ClassDiagramReader.java:569-570 | only class-typed ends are inspected |
| RelationReader.ClassEndsMembers | src/main/java/org/eclipse/emf/example/reader/ClassDiagramReader.java:569-570 | an end is kept exactly when it is one of the ends and is class-typed |
| RelationReader.ClassEndsAppend | src/main/java/org/eclipse/emf/example/reader/ClassDiagramReader.java:569-570 | class-typed ends keep source order |
| RelationReader.RoleName | src/main/java/org/eclipse/emf/example/reader/ClassDiagramReader.java:576-580 | the role name is "" exactly when the end's name is null or empty, and the end's name otherwise |
| RelationReader.AssociationOf | src/main/java/org/eclipse/emf/example/reader/ClassDiagramReader.java:563-631 | an association relation, left empty exactly when no end is class-typed |
| RelationReader.ClassEndsPrefix | src/main/java/org/eclipse/emf/example/reader/ClassDiagramReader.java:569-570 | the class-typed ends of a prefix start those of the whole |
| RelationReader.ReadAssociation | src/main/java/org/eclipse/emf/example/reader/ClassDiagramReader.java:563-631 | the loop with its early return computes `AssociationOf` |
| RelationReader.AssociationIgnoresLaterEnds | src/main/java/org/eclipse/emf/example/reader/ClassDiagramReader.java:622 | once two class-typed ends are read, later ends are never inspected |
| RelationReader.AssociationSkipsNonClassEnd | src/main/java/org/eclipse/emf/example/reader/ClassDiagramReader.java:570 | an end that is not class-typed does not change the relation |
| RelationReader.RelationsOf | src/main/java/org/eclipse/emf/example/reader/ClassDiagramReader.java:299-311 | every relation read comes from an association or a generalization of the class |
| RelationReader.RelationsOfAppend | src/main/java/org/eclipse/emf/example/reader/ClassDiagramReader.java:299-311 | relations keep source order: reading a concatenation concatenates the lists |
| RelationReader.RelationsOfComplete | src/main/java/org/eclipse/emf/example/reader/ClassDiagramReader.java:302-307 | every association and generalization of the class yields its relation |
| RelationReader.ReadClassRelations | src/main/java/org/eclipse/emf/example/reader/ClassDiagramReader.java:299-311 | the loop over the relationships computes `RelationsOf` |
| InstanceReader.ValueRoundTrip | src/main/java/org/eclipse/emf/example/reader/ClassDiagramReader.java:158-203 | every recorded slot value reads back from its value specification with its kind |
| InstanceReader.SlotValues | src/main/java/org/eclipse/emf/example/reader/ClassDiagramReader.java:158-203 | every recorded value comes from a value specification of the slot |
| InstanceReader.SlotValuesAppend | src/main/java/org/eclipse/emf/example/reader/ClassDiagramReader.java:158-203 | slot values keep source order |
| InstanceReader.SlotValuesOfSpecs | src/main/java/org/eclipse/emf/example/reader/ClassDiagramReader.java:158-203 | a slot holding the specifications of given values records exactly those values |
| InstanceReader.SlotAttributes | src/main/java/org/eclipse/emf/example/reader/ClassDiagramReader.java:148-210 | one attribute per slot, in order |
| InstanceReader.ClassifierKeys | src/main/java/org/eclipse/emf/example/reader/ClassDiagramReader.java:213-220 | the keys are exactly the name and package of each named classifier |
| InstanceReader.ClassifierKeysAppend | src/main/java/org/eclipse/emf/example/reader/ClassDiagramReader.java:213-220 | classifier keys keep source order: reading a concatenation concatenates the keys |
| InstanceReader.ReadSlot | src/main/java/org/eclipse/emf/example/reader/ClassDiagramReader.java:150-207 | the value loop computes the slot's attribute |
| InstanceReader.ReadInstance | src/main/java/org/eclipse/emf/example/reader/ClassDiagramReader.java:140-223 | a null or empty name gives an instance with no attributes and no classes; otherwise one attribute per slot, marked a class exactly when some value is an instance value |
| PackageWalker.ReadEnumeration | src/main/java/org/eclipse/emf/example/reader/ClassDiagramReader.java:225-236 | the enumeration keeps its name and package and lists every literal name in order |
| PackageWalker.Placeholders | src/main/java/org/eclipse/emf/example/reader/ClassDiagramReader.java:254-261 | one unnamed, package-less placeholder per superclass |
| PackageWalker.InheritedAttributes | src/main/java/org/eclipse/emf/example/reader/ClassDiagramReader.java:276-282 | at most one attribute per inherited member, and every kept one is named |
| PackageWalker.InheritedOperations | src/main/java/org/eclipse/emf/example/reader/ClassDiagramReader.java:285-290 | at most one operation per inherited member |
| PackageWalker.InheritedAttributesMembers | src/main/java/org/eclipse/emf/example/reader/ClassDiagramReader.java:276-282 | an attribute is kept exactly when it is the named reading of some inherited property |
| PackageWalker.InheritedOperationsMembers | src/main/java/org/eclipse/emf/example/reader/ClassDiagramReader.java:285-290 | an operation is kept exactly when it is the reading of some inherited operation |
| PackageWalker.InheritedAttributesAsOwned | src/main/java/org/eclipse/emf/example/reader/ClassDiagramReader.java:276-282 | inherited properties are filtered exactly as owned ones (`NamedAttributes` of the inherited properties) |
| PackageWalker.InheritedOperationsAsOwned | src/main/java/org/eclipse/emf/example/reader/ClassDiagramReader.java:285-290 | inherited operations are read exactly as owned ones (`OperationsOf` of the inherited operations) |
| PackageWalker.ReadRules | src/main/java/org/eclipse/emf/example/reader/ClassDiagramReader.java:245-251 | the rule loop collects the bodies of the opaque-expression rules |
| PackageWalker.RulesOfAppend | src/main/java/org/eclipse/emf/example/reader/ClassDiagramReader.java:245-251 | rule bodies keep source order |
| PackageWalker.AddSuperClasses | src/main/java/org/eclipse/emf/example/reader/ClassDiagramReader.java:254-261 | the superclass loop appends one empty placeholder per superclass and leaves the last superclass's name and package on the class |
| PackageWalker.AddInheritedMembers | src/main/java/org/eclipse/emf/example/reader/ClassDiagramReader.java:276-293 | the inherited attributes and operations are appended after the owned ones, in order, and nothing else changes |
| PackageWalker.ReadClass | src/main/java/org/eclipse/emf/example/reader/ClassDiagramReader.java:238-297 | the class keeps its own name and the enclosing package; it has one unnamed placeholder per superclass and only named attributes |
| PackageWalker.ChildPackageNameExtends | src/main/java/org/eclipse/emf/example/reader/ClassDiagramReader.java:122-132 | a child's qualified name starts with its parent's; after a non-empty parent it starts with `parent.`; an unnamed child keeps the parent's name |
| PackageWalker.PackageOf | src/main/java/org/eclipse/emf/example/reader/ClassDiagramReader.java:104-138 | the node carries the qualified name it was read under |
| PackageWalker.ReadPackage | src/main/java/org/eclipse/emf/example/reader/ClassDiagramReader.java:104-138 | the recursive walk builds `PackageTree`, dispatching each element by kind |
| PackageWalker.PackageOfExtends | src/main/java/org/eclipse/emf/example/reader/ClassDiagramReader.java:109-135 | source order is kept: reading more elements only appends, at most one entry per element |
| PackageWalker.PackageOfLast | src/main/java/org/eclipse/emf/example/reader/ClassDiagramReader.java:111-134 | a class, enumeration, instance or package element appends its structure to the list of its kind and leaves the other lists unchanged; any other element changes nothing |
| PackageWalker.PackageOfElement | src/main/java/org/eclipse/emf/example/reader/ClassDiagramReader.java:109-135 | every class, enumeration, instance and child package of the input appears in the tree |
| PackageWalker.PackageNamesExtend | src/main/java/org/eclipse/emf/example/reader/ClassDiagramReader.java:122-133 | every nested package's qualified name extends its parent's, at every depth |
| NameIndex.LastWinsAppend | src/main/java/org/eclipse/emf/example/reader/ClassDiagramReader.java:81-86 | `putAll` of a later run's map is the same as putting its entries one by one |
| NameIndex.LastWinsLast | src/main/java/org/eclipse/emf/example/reader/ClassDiagramReader.java:77-89 | the keys are exactly the entries' names; each key holds the last entry of that name |
| NameIndex.LastWinsKeyed | src/main/java/org/eclipse/emf/example/reader/ClassDiagramReader.java:77-89 | every value is an entry stored under its own name |
| NameIndex.CollectAll | src/main/java/org/eclipse/emf/example/reader/ClassDiagramReader.java:77-89 | a property of every package's own entries holds of every collected entry |
| NameIndex.IndexByName | src/main/java/org/eclipse/emf/example/reader/ClassDiagramReader.java:64-101 | the put loop and the recursive `putAll` loop build the last-wins map of the pre-order entries |
| Resolver.Resolve | src/main/java/org/eclipse/emf/example/reader/ClassDiagramReader.java:42 | a placeholder resolves to the class under its name when there is one, and to null otherwise |
| Resolver.ResolveAll | src/main/java/org/eclipse/emf/example/reader/ClassDiagramReader.java:40-44 | resolution keeps the length and resolves entry by entry |
| Resolver.ResolveList | src/main/java/org/eclipse/emf/example/reader/ClassDiagramReader.java:40-44 | the inner loop computes `ResolveAll` |
| Resolver.ResolveSuperClasses | src/main/java/org/eclipse/emf/example/reader/ClassDiagramReader.java:39-47 | in any order over the classes, each class gets its resolved list and nothing else changes |
| Resolver.ResolutionSound | src/main/java/org/eclipse/emf/example/reader/ClassDiagramReader.java:39-47 | resolution keeps the keys and list lengths; every resolved entry names a class stored under that name |
| Resolver.UniformResolution | src/main/java/org/eclipse/emf/example/reader/ClassDiagramReader.java:42 | with unnamed placeholders, every entry resolves to the null-keyed class if there is one, and to null otherwise |
| Resolver.TreeClassesFresh | src/main/java/org/eclipse/emf/example/reader/ClassDiagramReader.java:254-261 | every class read into the tree has only unnamed placeholders and no instances |
| Resolver.ClassIndexFresh | src/main/java/org/eclipse/emf/example/reader/ClassDiagramReader.java:77-89 | every class of the class map is fresh and stored under its own name |
| Resolver.CopiesMembers | src/main/java/org/eclipse/emf/example/reader/ClassDiagramReader.java:52-54 | an instance is appended to a class exactly when one of its classifiers names that class |
| Resolver.AttachedMembers | src/main/java/org/eclipse/emf/example/reader/ClassDiagramReader.java:51-55 | an instance is attached to a class exactly when it is in the instance map and names the class |
| Resolver.AttachOne | src/main/java/org/eclipse/emf/example/reader/ClassDiagramReader.java:52-54 | the inner loop appends the instance once per classifier naming each class |
| Resolver.AttachInstances | src/main/java/org/eclipse/emf/example/reader/ClassDiagramReader.java:51-55 | each class gets the instances naming it appended, in the map's iteration order, and nothing else changes |
| Resolver.CopiesCount | src/main/java/org/eclipse/emf/example/reader/ClassDiagramReader.java:52-54 | the inner loop's appends for one instance hold that instance and nothing else |
| Resolver.AttachedCount | src/main/java/org/eclipse/emf/example/reader/ClassDiagramReader.java:51-55 | with distinct visited instances, a class receives each visited instance once per classifier naming it, and nothing else |
| Resolver.AttachedExactly | src/main/java/org/eclipse/emf/example/reader/ClassDiagramReader.java:51-55 | starting from empty lists, each class holds exactly the instances that name it |
| Resolver.AttachedCounts | src/main/java/org/eclipse/emf/example/reader/ClassDiagramReader.java:51-55 | starting from empty lists, each class holds each instance of the map once per classifier naming the class, and no other instance |
| Resolver.KeyOrder | src/main/java/org/eclipse/emf/example/reader/ClassDiagramReader.java:51 | the iteration visits each instance key exactly once |
| Resolver.BuildDiagram | src/main/java/org/eclipse/emf/example/reader/ClassDiagramReader.java:38-59 | the diagram has the maps of the tree, classes resolved uniformly, and each class holding exactly the instances that name it, each once per naming classifier |
| Resolver.GetRefModelDetails | src/main/java/org/eclipse/emf/example/reader/ClassDiagramReader.java:24-61 | a null root gives null; otherwise the diagram of the tree read under the root's name, or "" when the root has none |

## Left out

- The EMF/UML2 object graph is left out. `EList`, `eClass()` tests, `instanceof` on `*Impl` classes, `eProxyURI().fragment()`, `getInheritedMembers` and `getRelationships` become fields of the input datatypes.
- The `System.err.println` on a null root (34) is left out, because it is I/O. Only the null result is modelled.
- `LiteralReal` values are kept as opaque text, because they are floating point.
- The order of the `ClassDiagram` lists filled from `HashMap.values()` (57-59) is left out. The diagram holds the three maps instead. The instance loop's iteration order is an arbitrary enumeration of the keys, chosen by `Resolver.KeyOrder`, which `Resolver.BuildDiagram` calls.
- Object identity and aliasing are left out. A resolved superclass is the key of the class in the class map (`Resolved(key)`), not a shared object. Because the key addresses the final map entry, the instances attached later are still reachable from it.
- `Visibility.toString()` is an opaque string; the `Keywords` constants and `Serializable` are library plumbing.
- Exceptions are preconditions. These cover `substring` at 663-664 and 672-673 (`FragmentReadable`), the casts at 584-585 and 609-610 (`EndsReadable`), and the dereference at 53 (`ClassifiersKnown`).
- Other exceptions the code can raise are ruled out by the shape of the input datatypes, not by a precondition. A slot always has a defining feature, and the feature always has a type (153-154). The classifier's package (215) and the superclass's package (258) are never null; only their names may be. A loaded primitive with an empty name always has a proxy URI (357, 376, 491). An interface always has a proxy URI (440-441, 529-530).
- Lower multiplicities (590, 615) are never set, as in the code, and the model has no field for them.
- Resolver.GetRefModelDetails: gives each class's instance list by which instances it holds and how many times, not by their order, because the order follows the `HashMap` iteration. `Resolver.AttachInstances` states the exact lists for a given iteration order.
- Resolver.BuildDiagram: the same; the instance lists are stated by content and multiplicity, not order.
