/**
 * The recursive descent over the package tree (`readPackage`, `readClass`,
 * `readEnumeration`), producing a `PackageStructure` tree that mirrors the input.
 */
module PackageWalker {
  import opened Wrappers
  import opened Uml
  import opened Diagram
  import opened MemberReader
  import opened RelationReader
  import opened InstanceReader

  /** The literal names of an enumeration, in order. */
  function EnumOf(e: UmlEnumeration, pkg: string): (r: EnumStructure) {
    EnumStructure(e.name, pkg, e.literals)
  }

  /** `readEnumeration`. */
  method ReadEnumeration(e: UmlEnumeration, pkg: string) returns (r: EnumStructure)
    ensures r == EnumOf(e, pkg)
    ensures |r.literals| == |e.literals| && forall i :: 0 <= i < |e.literals| ==> r.literals[i] == e.literals[i]
  {
    r := EnumStructure(e.name, pkg, []);
    for i := 0 to |e.literals|
      invariant r == EnumStructure(e.name, pkg, e.literals[..i])
    {
      r := r.(literals := r.literals + [e.literals[i]]);
      assert e.literals[..i + 1] == e.literals[..i] + [e.literals[i]];
    }
    assert e.literals[..|e.literals|] == e.literals;
  }

  /** The value-constraint bodies of the opaque-expression rules, in order. */
  function RulesOf(rules: seq<Constraint>): (r: seq<string>) {
    if rules == [] then []
    else
      var last := rules[|rules| - 1];
      RulesOf(rules[..|rules| - 1]) + (if last.OpaqueRule? then last.bodies else [])
  }

  /** The unnamed placeholder `readClass` records for each superclass (254-261). */
  function Placeholders(n: nat): (r: seq<SuperClass>)
    ensures |r| == n && forall i :: 0 <= i < n ==> r[i] == Placeholder(None, None)
  {
    if n == 0 then [] else Placeholders(n - 1) + [Placeholder(None, None)]
  }

  predicate MembersReadable(ms: seq<Member>) {
    forall i :: 0 <= i < |ms| ==>
      (ms[i].PropertyMember? ==> TypeReadable(ms[i].property.typ))
      && (ms[i].OperationMember? ==> OperationReadable(ms[i].operation))
  }

  /** The inherited attributes that are kept: named readings of inherited properties, in order. */
  function InheritedAttributes(ms: seq<Member>): (r: seq<ClassAttribute>)
    requires MembersReadable(ms)
    ensures |r| <= |ms|
    ensures forall a :: a in r ==> a.name.Some?
  {
    if ms == [] then []
    else
      var last := ms[|ms| - 1];
      InheritedAttributes(ms[..|ms| - 1])
        + (if last.PropertyMember? && ReadAttribute(last.property).name.Some? then [ReadAttribute(last.property)] else [])
  }

  /** The inherited operations, in order. */
  function InheritedOperations(ms: seq<Member>): (r: seq<ClassOperation>)
    requires MembersReadable(ms)
    ensures |r| <= |ms|
  {
    if ms == [] then []
    else
      var last := ms[|ms| - 1];
      InheritedOperations(ms[..|ms| - 1]) + (if last.OperationMember? then [OperationOf(last.operation)] else [])
  }

  /** The kept inherited attributes are exactly the named readings of the inherited properties. */
  lemma {:induction false} InheritedAttributesMembers(ms: seq<Member>, a: ClassAttribute)
    requires MembersReadable(ms)
    ensures a in InheritedAttributes(ms) <==>
      a.name.Some? && exists i :: 0 <= i < |ms| && ms[i].PropertyMember? && a == ReadAttribute(ms[i].property)
  {
    if ms != [] {
      var init, last := ms[..|ms| - 1], ms[|ms| - 1];
      InheritedAttributesMembers(init, a);
      var tail := if last.PropertyMember? && ReadAttribute(last.property).name.Some? then [ReadAttribute(last.property)] else [];
      assert InheritedAttributes(ms) == InheritedAttributes(init) + tail;
      if a in InheritedAttributes(init) {
        var i :| 0 <= i < |init| && init[i].PropertyMember? && a == ReadAttribute(init[i].property);
        assert ms[i] == init[i];
      } else if a in tail {
        assert ms[|ms| - 1] == last;
      }
      if a.name.Some? && exists i :: 0 <= i < |ms| && ms[i].PropertyMember? && a == ReadAttribute(ms[i].property) {
        var i :| 0 <= i < |ms| && ms[i].PropertyMember? && a == ReadAttribute(ms[i].property);
        if i < |init| {
          assert init[i] == ms[i];
        }
      }
    }
  }

  /** The inherited operations are exactly the readings of the inherited operations. */
  lemma {:induction false} InheritedOperationsMembers(ms: seq<Member>, x: ClassOperation)
    requires MembersReadable(ms)
    ensures x in InheritedOperations(ms) <==>
      exists i :: 0 <= i < |ms| && ms[i].OperationMember? && x == OperationOf(ms[i].operation)
  {
    if ms != [] {
      var init, last := ms[..|ms| - 1], ms[|ms| - 1];
      InheritedOperationsMembers(init, x);
      var tail := if last.OperationMember? then [OperationOf(last.operation)] else [];
      assert InheritedOperations(ms) == InheritedOperations(init) + tail;
      if x in InheritedOperations(init) {
        var i :| 0 <= i < |init| && init[i].OperationMember? && x == OperationOf(init[i].operation);
        assert ms[i] == init[i];
      } else if x in tail {
        assert ms[|ms| - 1] == last;
      }
      if exists i :: 0 <= i < |ms| && ms[i].OperationMember? && x == OperationOf(ms[i].operation) {
        var i :| 0 <= i < |ms| && ms[i].OperationMember? && x == OperationOf(ms[i].operation);
        if i < |init| {
          assert init[i] == ms[i];
        }
      }
    }
  }

  /** The inherited members that are properties, in order. */
  function InheritedProperties(ms: seq<Member>): (r: seq<Property>)
    ensures |r| <= |ms|
  {
    if ms == [] then []
    else
      var last := ms[|ms| - 1];
      InheritedProperties(ms[..|ms| - 1]) + (if last.PropertyMember? then [last.property] else [])
  }

  /** The inherited members that are operations, in order. */
  function InheritedOperationList(ms: seq<Member>): (r: seq<Operation>)
    ensures |r| <= |ms|
  {
    if ms == [] then []
    else
      var last := ms[|ms| - 1];
      InheritedOperationList(ms[..|ms| - 1]) + (if last.OperationMember? then [last.operation] else [])
  }

  /**
   * Inherited attributes are filtered as owned ones: they are
   * `readAttribute(Class)`'s selection applied to the inherited properties.
   */
  lemma {:induction false} InheritedAttributesAsOwned(ms: seq<Member>)
    requires MembersReadable(ms)
    ensures PropertiesReadable(InheritedProperties(ms))
    ensures InheritedAttributes(ms) == NamedAttributes(InheritedProperties(ms))
  {
    if ms != [] {
      var init, last := ms[..|ms| - 1], ms[|ms| - 1];
      assert MembersReadable(init) by {
        assert forall i :: 0 <= i < |init| ==> init[i] == ms[i];
      }
      InheritedAttributesAsOwned(init);
      var ps0 := InheritedProperties(init);
      if last.PropertyMember? {
        var ps := ps0 + [last.property];
        assert ps[..|ps| - 1] == ps0;
        assert PropertiesReadable(ps);
        var a := ReadAttribute(last.property);
        assert NamedAttributes(ps) == NamedAttributes(ps0) + (if a.name.Some? then [a] else []);
      } else {
        assert InheritedProperties(ms) == ps0;
      }
    }
  }

  /**
   * Inherited operations are read as owned ones: they are `readClassOperations`
   * applied to the inherited operations.
   */
  lemma {:induction false} InheritedOperationsAsOwned(ms: seq<Member>)
    requires MembersReadable(ms)
    ensures OperationsReadable(InheritedOperationList(ms))
    ensures InheritedOperations(ms) == OperationsOf(InheritedOperationList(ms))
  {
    if ms != [] {
      var init, last := ms[..|ms| - 1], ms[|ms| - 1];
      assert MembersReadable(init) by {
        assert forall i :: 0 <= i < |init| ==> init[i] == ms[i];
      }
      InheritedOperationsAsOwned(init);
      if last.OperationMember? {
        var ops := InheritedOperationList(init) + [last.operation];
        assert ops[..|ops| - 1] == InheritedOperationList(init);
      }
    }
  }

  /** Reading the class raises no exception. */
  predicate ClassReadable(c: UmlClass) {
    PropertiesReadable(c.ownedAttributes) && OperationsReadable(c.ownedOperations)
    && RelationshipsReadable(c.relationships) && MembersReadable(c.inheritedMembers)
  }

  /** The class structure `readClass` builds for `c` in package `pkg`. */
  function ClassOf(c: UmlClass, pkg: string): (r: ClassStructure)
    requires ClassReadable(c)
  {
    ClassStructure(
      c.name, Some(pkg), Some(c.visibility), c.isAbstract, c.isLeaf,
      NamedAttributes(c.ownedAttributes) + InheritedAttributes(c.inheritedMembers),
      OperationsOf(c.ownedOperations) + InheritedOperations(c.inheritedMembers),
      RelationsOf(c.relationships),
      RulesOf(c.rules),
      Placeholders(|c.superClasses|),
      [])
  }

  /** The loop over the owned rules of `readClass`. */
  method ReadRules(rules: seq<Constraint>) returns (r: seq<string>)
    ensures r == RulesOf(rules)
  {
    r := [];
    for i := 0 to |rules|
      invariant r == RulesOf(rules[..i])
    {
      if rules[i].OpaqueRule? {
        r := r + rules[i].bodies;
      }
      assert rules[..i + 1][..i] == rules[..i];
    }
    assert rules[..|rules|] == rules;
  }

  /** Each owned rule's bodies appear in the rules, in order. */
  lemma {:induction false} RulesOfAppend(a: seq<Constraint>, b: seq<Constraint>)
    ensures RulesOf(a + b) == RulesOf(a) + RulesOf(b)
  {
    if b == [] {
      assert a + b == a;
    } else {
      var b' := b[..|b| - 1];
      assert (a + b)[..|a + b| - 1] == a + b';
      RulesOfAppend(a, b');
    }
  }

  /**
   * The superclass loop of `readClass`: it writes each superclass's name and
   * package onto the structure being built and appends an empty placeholder.
   */
  method AddSuperClasses(r0: ClassStructure, supers: seq<SuperClassInfo>) returns (r: ClassStructure)
    ensures r.superClasses == r0.superClasses + Placeholders(|supers|)
    ensures supers != [] ==> r.name == supers[|supers| - 1].name && r.pkg == supers[|supers| - 1].packageName
    ensures supers == [] ==> r.name == r0.name && r.pkg == r0.pkg
    ensures r.(name := r0.name, pkg := r0.pkg, superClasses := r0.superClasses) == r0
  {
    r := r0;
    for i := 0 to |supers|
      invariant r.superClasses == r0.superClasses + Placeholders(i)
      invariant i > 0 ==> r.name == supers[i - 1].name && r.pkg == supers[i - 1].packageName
      invariant i == 0 ==> r.name == r0.name && r.pkg == r0.pkg
      invariant r.(name := r0.name, pkg := r0.pkg, superClasses := r0.superClasses) == r0
    {
      var superClassStructure := Placeholder(None, None);
      r := r.(name := supers[i].name);
      r := r.(pkg := supers[i].packageName);
      r := r.(superClasses := r.superClasses + [superClassStructure]);
    }
  }

  /** The loop over the inherited members of `readClass`. */
  method AddInheritedMembers(r0: ClassStructure, ms: seq<Member>) returns (r: ClassStructure)
    requires MembersReadable(ms)
    ensures r == r0.(attributes := r0.attributes + InheritedAttributes(ms),
                     operations := r0.operations + InheritedOperations(ms))
  {
    var attributes, operations := r0.attributes, r0.operations;
    for i := 0 to |ms|
      invariant attributes == r0.attributes + InheritedAttributes(ms[..i])
      invariant operations == r0.operations + InheritedOperations(ms[..i])
    {
      assert ms[..i + 1][..i] == ms[..i];
      match ms[i]
      case PropertyMember(property) =>
        var attribute := ReadAttribute(property);
        if attribute.name.Some? {
          attributes := attributes + [attribute];
        }
      case OperationMember(operation) =>
        var classOperation := ReadClassOperation(operation);
        operations := operations + [classOperation];
      case OtherMember =>
    }
    assert ms[..|ms|] == ms;
    r := r0.(attributes := attributes, operations := operations);
  }

  /**
   * `readClass`. The superclass loop's writes of the superclass's name and
   * package are overwritten by the later writes of the class's own, so the
   * class keeps its own name and package and every superclass is an unnamed
   * placeholder.
   */
  method ReadClass(c: UmlClass, pkg: string) returns (r: ClassStructure)
    requires ClassReadable(c)
    ensures r == ClassOf(c, pkg)
    ensures r.name == c.name && r.pkg == Some(pkg)
    ensures |r.superClasses| == |c.superClasses|
    ensures forall i :: 0 <= i < |r.superClasses| ==> r.superClasses[i] == Placeholder(None, None)
    ensures forall a :: a in r.attributes ==> a.name.Some?
  {
    r := ClassStructure(None, None, None, false, false, [], [], [], [], [], []);
    var rules := ReadRules(c.rules);
    r := AddSuperClasses(r, c.superClasses);
    assert r.superClasses == Placeholders(|c.superClasses|);
    r := r.(pkg := Some(pkg));
    r := r.(visibility := Some(c.visibility));
    r := r.(rules := rules);
    r := r.(isAbstract := c.isAbstract);
    r := r.(isFinal := c.isLeaf);
    r := r.(name := c.name);
    var attributes := ReadClassAttributes(c.ownedAttributes);
    r := r.(attributes := attributes);
    var operations := ReadClassOperations(c.ownedOperations);
    r := r.(operations := operations);
    var relations := ReadClassRelations(c.relationships);
    r := r.(relations := relations);
    r := AddInheritedMembers(r, c.inheritedMembers);
  }

  /** The qualified name of a child package (122-132). */
  function ChildPackageName(parent: string, child: Option<string>): (r: string) {
    if parent == "" then (if child.Some? then child.value else parent)
    else (if child.Some? then parent + "." + child.value else parent)
  }

  /** A qualified name starts with its parent's, and an unnamed child keeps its parent's name. */
  lemma ChildPackageNameExtends(parent: string, child: Option<string>)
    ensures parent <= ChildPackageName(parent, child)
    ensures child.None? ==> ChildPackageName(parent, child) == parent
    ensures child.Some? && parent != "" ==> ChildPackageName(parent, child)[..|parent| + 1] == parent + "."
  {
  }

  /** No reader raises an exception anywhere in the package's tree. */
  predicate PackageReadable(p: UmlPackage)
    decreases p
  {
    forall i :: 0 <= i < |p.elements| ==>
      (p.elements[i].ClassElement? ==> ClassReadable(p.elements[i].cls))
      && (p.elements[i].PackageElement? ==> PackageReadable(p.elements[i].pkg))
  }

  /**
   * The package structure `readPackage` builds from the first `n` elements of
   * `p` under the qualified name `name`.
   */
  function PackageOf(p: UmlPackage, n: nat, name: string): (r: PackageStructure)
    requires PackageReadable(p) && n <= |p.elements|
    ensures r.name == name
    decreases p, n
  {
    if n == 0 then PackageStructure(name, [], [], [], [])
    else
      var r := PackageOf(p, n - 1, name);
      match p.elements[n - 1]
      case ClassElement(c) => r.(classes := r.classes + [ClassOf(c, name)])
      case EnumerationElement(e) => r.(enums := r.enums + [EnumOf(e, name)])
      case InstanceElement(s) => r.(instances := r.instances + [InstanceOf(s, name)])
      case PackageElement(q) =>
        r.(packages := r.packages + [PackageOf(q, |q.elements|, ChildPackageName(name, q.name))])
      case OtherElement => r
  }

  /** The package structure read from all of `p`'s elements. */
  function PackageTree(p: UmlPackage, name: string): (r: PackageStructure)
    requires PackageReadable(p)
  {
    PackageOf(p, |p.elements|, name)
  }

  /** `readPackage`, over the elements of `p`. */
  method ReadPackage(p: UmlPackage, name: string) returns (r: PackageStructure)
    requires PackageReadable(p)
    ensures r == PackageTree(p, name)
    decreases p
  {
    var es := p.elements;
    r := PackageStructure(name, [], [], [], []);
    for i := 0 to |es|
      invariant r == PackageOf(p, i, name)
    {
      match es[i]
      case ClassElement(c) =>
        var classStructure := ReadClass(c, name);
        r := r.(classes := r.classes + [classStructure]);
      case EnumerationElement(e) =>
        var enumStructure := ReadEnumeration(e, name);
        r := r.(enums := r.enums + [enumStructure]);
      case InstanceElement(s) =>
        var classInstance := ReadInstance(s, name);
        r := r.(instances := r.instances + [classInstance]);
      case PackageElement(q) =>
        var newName: string;
        if name == "" {
          newName := if q.name.Some? then q.name.value else name;
        } else {
          newName := if q.name.Some? then name + "." + q.name.value else name;
        }
        var nested := ReadPackage(q, newName);
        r := r.(packages := r.packages + [nested]);
      case OtherElement =>
    }
  }

  /**
   * The structure keeps source order: reading further elements only appends
   * to each of the four lists, and each list grows by at most one per element.
   */
  lemma {:induction false} PackageOfExtends(p: UmlPackage, n: nat, m: nat, name: string)
    requires PackageReadable(p) && n <= m <= |p.elements|
    ensures var a, b := PackageOf(p, n, name), PackageOf(p, m, name);
      a.classes <= b.classes && a.enums <= b.enums && a.instances <= b.instances && a.packages <= b.packages
      && |b.classes| + |b.enums| + |b.instances| + |b.packages| <= |a.classes| + |a.enums| + |a.instances| + |a.packages| + (m - n)
    decreases m
  {
    if n < m {
      PackageOfExtends(p, n, m - 1, name);
    }
  }

  /**
   * Reading element `n` appends one entry to the list of its kind and leaves
   * the other lists as they were; an element of any other kind changes nothing.
   */
  lemma PackageOfLast(p: UmlPackage, n: nat, name: string)
    requires PackageReadable(p) && n < |p.elements|
    ensures var x, a, b := p.elements[n], PackageOf(p, n, name), PackageOf(p, n + 1, name);
      (x.ClassElement? ==> b == a.(classes := a.classes + [ClassOf(x.cls, name)]))
      && (x.EnumerationElement? ==> b == a.(enums := a.enums + [EnumOf(x.enumeration, name)]))
      && (x.InstanceElement? ==> b == a.(instances := a.instances + [InstanceOf(x.instance, name)]))
      && (x.PackageElement? ==> b == a.(packages := a.packages + [PackageTree(x.pkg, ChildPackageName(name, x.pkg.name))]))
      && (x.OtherElement? ==> b == a)
  {
  }

  /** Each element of the package contributes to the list of its kind. */
  lemma {:induction false} PackageOfElement(p: UmlPackage, i: nat, name: string)
    requires PackageReadable(p) && i < |p.elements|
    ensures var x, t := p.elements[i], PackageTree(p, name);
      (x.ClassElement? ==> ClassOf(x.cls, name) in t.classes)
      && (x.EnumerationElement? ==> EnumOf(x.enumeration, name) in t.enums)
      && (x.InstanceElement? ==> InstanceOf(x.instance, name) in t.instances)
      && (x.PackageElement? ==> PackageTree(x.pkg, ChildPackageName(name, x.pkg.name)) in t.packages)
  {
    PackageOfExtends(p, i + 1, |p.elements|, name);
    PackageOfLast(p, i, name);
    var x, a, t := p.elements[i], PackageOf(p, i, name), PackageTree(p, name);
    if x.ClassElement? {
      AppendedInLonger(a.classes, ClassOf(x.cls, name), t.classes);
    } else if x.EnumerationElement? {
      AppendedInLonger(a.enums, EnumOf(x.enumeration, name), t.enums);
    } else if x.InstanceElement? {
      AppendedInLonger(a.instances, InstanceOf(x.instance, name), t.instances);
    } else if x.PackageElement? {
      AppendedInLonger(a.packages, PackageTree(x.pkg, ChildPackageName(name, x.pkg.name)), t.packages);
    }
  }

  /** An entry appended to a prefix of a list is in the list. */
  lemma AppendedInLonger<T>(xs: seq<T>, y: T, ys: seq<T>)
    requires xs + [y] <= ys
    ensures y in ys
  {
    assert ys[|xs|] == (xs + [y])[|xs|];
  }

  /** Every package below `p` has a qualified name that starts with its parent's. */
  ghost predicate NamesExtend(p: PackageStructure)
    decreases p
  {
    forall i :: 0 <= i < |p.packages| ==>
      p.name <= p.packages[i].name
      && (p.name != "" && p.name != p.packages[i].name ==> p.name + "." <= p.packages[i].name)
      && NamesExtend(p.packages[i])
  }

  lemma {:induction false} PackageNamesExtend(p: UmlPackage, n: nat, name: string)
    requires PackageReadable(p) && n <= |p.elements|
    ensures NamesExtend(PackageOf(p, n, name))
    decreases p, n
  {
    if n > 0 {
      PackageNamesExtend(p, n - 1, name);
      PackageOfLast(p, n - 1, name);
      var a, b := PackageOf(p, n - 1, name), PackageOf(p, n, name);
      if p.elements[n - 1].PackageElement? {
        var q := p.elements[n - 1].pkg;
        var childName := ChildPackageName(name, q.name);
        PackageNamesExtend(q, |q.elements|, childName);
        ChildPackageNameExtends(name, q.name);
        NamesExtendAppend(a, PackageTree(q, childName));
      } else {
        NamesExtendSamePackages(a, b);
      }
    }
  }

  /** Appending a child whose name extends the parent's keeps `NamesExtend`. */
  lemma NamesExtendAppend(a: PackageStructure, c: PackageStructure)
    requires NamesExtend(a) && NamesExtend(c) && a.name <= c.name
    requires a.name != "" && a.name != c.name ==> a.name + "." <= c.name
    ensures NamesExtend(a.(packages := a.packages + [c]))
  {
    var b := a.(packages := a.packages + [c]);
    assert forall i :: 0 <= i < |a.packages| ==> b.packages[i] == a.packages[i];
  }

  /** `NamesExtend` depends only on the name and the child packages. */
  lemma NamesExtendSamePackages(a: PackageStructure, b: PackageStructure)
    requires NamesExtend(a) && a.name == b.name && a.packages == b.packages
    ensures NamesExtend(b)
  {
  }
}
