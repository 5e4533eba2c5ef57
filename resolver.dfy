/**
 * `getRefModelDetails`: read the root package, index classes, enumerations
 * and instances by name, replace each class's superclass placeholders by the
 * class found under the placeholder's name, and attach each instance to the
 * classes it names.
 */
module Resolver {
  import opened Wrappers
  import opened Uml
  import opened Diagram
  import opened PackageWalker
  import opened NameIndex

  /** A class reference after resolution: the key of the class found, or `Absent` when the lookup found none. */
  function Resolve(classes: map<Option<string>, ClassStructure>, s: SuperClass): (r: SuperClass)
    requires s.Placeholder?
    ensures r.Resolved? || r.Absent?
    ensures r.Resolved? <==> s.name in classes
    ensures r.Resolved? ==> r.key == s.name
  {
    if s.name in classes then Resolved(s.name) else Absent
  }

  predicate Unresolved(ss: seq<SuperClass>) {
    forall i :: 0 <= i < |ss| ==> ss[i].Placeholder?
  }

  /** The resolved list of superclasses, entry by entry. */
  function ResolveAll(classes: map<Option<string>, ClassStructure>, ss: seq<SuperClass>): (r: seq<SuperClass>)
    requires Unresolved(ss)
    ensures |r| == |ss| && forall i :: 0 <= i < |ss| ==> r[i] == Resolve(classes, ss[i])
  {
    if ss == [] then []
    else ResolveAll(classes, ss[..|ss| - 1]) + [Resolve(classes, ss[|ss| - 1])]
  }

  predicate AllUnresolved(classes: map<Option<string>, ClassStructure>) {
    forall k :: k in classes ==> Unresolved(classes[k].superClasses)
  }

  /** Every class is stored under its own name. */
  predicate KeyedByName(classes: map<Option<string>, ClassStructure>) {
    forall k :: k in classes ==> classes[k].name == k
  }

  /** The loop over one class's superclasses. */
  method ResolveList(classes: map<Option<string>, ClassStructure>, ss: seq<SuperClass>) returns (r: seq<SuperClass>)
    requires Unresolved(ss)
    ensures r == ResolveAll(classes, ss)
  {
    r := [];
    for i := 0 to |ss|
      invariant r == ResolveAll(classes, ss[..i])
    {
      assert ss[..i + 1][..i] == ss[..i];
      r := r + [Resolve(classes, ss[i])];
    }
    assert ss[..|ss|] == ss;
  }

  /**
   * The first loop of `getRefModelDetails`: every class, in whatever order
   * the map yields them, gets its superclass list replaced by the lookups of
   * the placeholders' names.
   */
  method ResolveSuperClasses(classes: map<Option<string>, ClassStructure>) returns (r: map<Option<string>, ClassStructure>)
    requires AllUnresolved(classes)
    ensures r.Keys == classes.Keys
    ensures forall k :: k in r ==> r[k] == classes[k].(superClasses := ResolveAll(classes, classes[k].superClasses))
  {
    r := classes;
    var todo := classes.Keys;
    while todo != {}
      invariant todo <= classes.Keys && r.Keys == classes.Keys
      invariant forall k :: k in todo ==> r[k] == classes[k]
      invariant forall k :: k in classes && k !in todo ==>
        r[k] == classes[k].(superClasses := ResolveAll(classes, classes[k].superClasses))
      decreases todo
    {
      var k :| k in todo;
      var cs := classes[k];
      var superClasses := ResolveList(classes, cs.superClasses);
      r := r[k := cs.(superClasses := superClasses)];
      todo := todo - {k};
    }
  }

  /**
   * After resolution every superclass entry either names a class that is in
   * the map under that name, or is `Absent`; the number of entries is kept.
   */
  lemma ResolutionSound(classes: map<Option<string>, ClassStructure>, r: map<Option<string>, ClassStructure>)
    requires AllUnresolved(classes) && KeyedByName(classes)
    requires r.Keys == classes.Keys
    requires forall k :: k in r ==> r[k] == classes[k].(superClasses := ResolveAll(classes, classes[k].superClasses))
    ensures KeyedByName(r)
    ensures forall k :: k in r ==> |r[k].superClasses| == |classes[k].superClasses|
    ensures forall k, i :: k in r && 0 <= i < |r[k].superClasses| && r[k].superClasses[i].Resolved? ==>
      var j := r[k].superClasses[i].key; j in r && r[j].name == j
  {
  }

  /** Every superclass entry is the unnamed placeholder `readClass` records. */
  predicate UnnamedSupers(c: ClassStructure) {
    forall i :: 0 <= i < |c.superClasses| ==> c.superClasses[i] == Placeholder(None, None)
  }

  /** A class as `readClass` returns it: unnamed placeholders and no instances yet. */
  predicate FreshClass(c: ClassStructure) {
    UnnamedSupers(c) && c.instances == []
  }

  /**
   * Because every placeholder is unnamed, every superclass entry of every
   * class resolves the same way: to the class stored under the null key when
   * there is one, and to `Absent` (null) otherwise.
   */
  lemma UniformResolution(classes: map<Option<string>, ClassStructure>, k: Option<string>, i: int)
    requires k in classes && UnnamedSupers(classes[k]) && 0 <= i < |classes[k].superClasses|
    ensures ResolveAll(classes, classes[k].superClasses)[i] == (if None in classes then Resolved(None) else Absent)
  {
  }

  /** Every class of the tree read from `p` is fresh. */
  lemma {:induction false} TreeClassesFresh(p: UmlPackage, n: nat, name: string)
    requires PackageReadable(p) && n <= |p.elements|
    ensures OwnAll(PackageOf(p, n, name), OwnClasses, FreshClass)
    decreases p, n
  {
    if n > 0 {
      TreeClassesFresh(p, n - 1, name);
      PackageOfLast(p, n - 1, name);
      var r, t := PackageOf(p, n - 1, name), PackageOf(p, n, name);
      var x := p.elements[n - 1];
      if x.PackageElement? {
        var childName := ChildPackageName(name, x.pkg.name);
        TreeClassesFresh(x.pkg, |x.pkg.elements|, childName);
        FreshWithPackage(r, PackageTree(x.pkg, childName));
      } else if x.ClassElement? {
        FreshWithClass(r, ClassOf(x.cls, name));
      } else {
        FreshSameClasses(r, t);
      }
    }
  }

  /** Adding a fresh class keeps every class of the tree fresh. */
  lemma FreshWithClass(r: PackageStructure, c: ClassStructure)
    requires OwnAll(r, OwnClasses, FreshClass) && FreshClass(c)
    ensures OwnAll(r.(classes := r.classes + [c]), OwnClasses, FreshClass)
  {
    var t := r.(classes := r.classes + [c]);
    assert t.packages == r.packages;
  }

  /** Adding a child package whose classes are fresh keeps every class of the tree fresh. */
  lemma FreshWithPackage(r: PackageStructure, q: PackageStructure)
    requires OwnAll(r, OwnClasses, FreshClass) && OwnAll(q, OwnClasses, FreshClass)
    ensures OwnAll(r.(packages := r.packages + [q]), OwnClasses, FreshClass)
  {
    var t := r.(packages := r.packages + [q]);
    assert forall i :: 0 <= i < |r.packages| ==> t.packages[i] == r.packages[i];
  }

  /** Freshness depends only on the classes and the child packages. */
  lemma FreshSameClasses(r: PackageStructure, t: PackageStructure)
    requires OwnAll(r, OwnClasses, FreshClass) && t.classes == r.classes && t.packages == r.packages
    ensures OwnAll(t, OwnClasses, FreshClass)
  {
  }

  /** The package structure of the whole model, under the root's name or "". */
  function RootName(root: UmlPackage): (r: string) {
    if root.name.Some? then root.name.value else ""
  }

  function TreeOf(root: UmlPackage): (r: PackageStructure)
    requires PackageReadable(root)
  {
    PackageTree(root, RootName(root))
  }

  /** The class map `classStructures` builds from a tree. */
  function ClassIndex(t: PackageStructure): (r: map<Option<string>, ClassStructure>) {
    LastWins(Collect(t, OwnClasses), ClassName)
  }

  /** The enumeration map `enumStructure` builds from a tree. */
  function EnumIndex(t: PackageStructure): (r: map<Option<string>, EnumStructure>) {
    LastWins(Collect(t, OwnEnums), EnumName)
  }

  /** The instance map `classInstances` builds from a tree. */
  function InstanceIndex(t: PackageStructure): (r: map<Option<string>, ClassInstance>) {
    LastWins(Collect(t, OwnInstances), InstanceName)
  }

  /** Every class of the class map of a tree of fresh classes is fresh and stored under its own name. */
  lemma ClassIndexFresh(t: PackageStructure)
    requires OwnAll(t, OwnClasses, FreshClass)
    ensures KeyedByName(ClassIndex(t))
    ensures forall k :: k in ClassIndex(t) ==> FreshClass(ClassIndex(t)[k])
  {
    CollectAll(t, OwnClasses, FreshClass);
    LastWinsKeyed(Collect(t, OwnClasses), ClassName);
  }

  /** Every class named by an instance is a key of the class map (otherwise the lookup yields null). */
  predicate ClassifiersKnown(classes: map<Option<string>, ClassStructure>, instances: map<Option<string>, ClassInstance>) {
    forall k, j :: k in instances && 0 <= j < |instances[k].classes| ==> Some(instances[k].classes[j].name) in classes
  }

  /** `order` lists each key of `instances` exactly once. */
  predicate Enumerates(order: seq<Option<string>>, instances: map<Option<string>, ClassInstance>) {
    (forall k :: k in instances ==> k in order) && (forall i :: 0 <= i < |order| ==> order[i] in instances)
    && forall i, j :: 0 <= i < j < |order| ==> order[i] != order[j]
  }

  /** One copy of `x` per classifier of `x` named `k`, among its first `n`. */
  function Copies(x: ClassInstance, n: nat, k: Option<string>): (r: seq<ClassInstance>)
    requires n <= |x.classes|
  {
    if n == 0 then []
    else Copies(x, n - 1, k) + (if Some(x.classes[n - 1].name) == k then [x] else [])
  }

  /** `x` has a copy for `k` exactly when one of its first `n` classifiers names `k`. */
  lemma {:induction false} CopiesMembers(x: ClassInstance, n: nat, k: Option<string>, y: ClassInstance)
    requires n <= |x.classes|
    ensures y in Copies(x, n, k) <==> y == x && exists j :: 0 <= j < n && Some(x.classes[j].name) == k
  {
    if n > 0 {
      CopiesMembers(x, n - 1, k, y);
      if y == x && Some(x.classes[n - 1].name) == k {
        assert y in Copies(x, n, k);
      }
    }
  }

  /** The instances attached to the class keyed `k`, visiting the instances in `order`. */
  function Attached(k: Option<string>, order: seq<Option<string>>, instances: map<Option<string>, ClassInstance>): (r: seq<ClassInstance>)
    requires forall i :: 0 <= i < |order| ==> order[i] in instances
  {
    if order == [] then []
    else
      var x := instances[order[|order| - 1]];
      Attached(k, order[..|order| - 1], instances) + Copies(x, |x.classes|, k)
  }

  /** One of the classifiers of `y` names the class keyed `k`. */
  predicate Names(y: ClassInstance, k: Option<string>) {
    exists j :: 0 <= j < |y.classes| && Some(y.classes[j].name) == k
  }

  /** An instance is attached to class `k` exactly when it is one of the instances and names `k`. */
  lemma {:induction false} AttachedMembers(k: Option<string>, order: seq<Option<string>>, instances: map<Option<string>, ClassInstance>, y: ClassInstance)
    requires forall i :: 0 <= i < |order| ==> order[i] in instances
    ensures y in Attached(k, order, instances) <==> Names(y, k) && exists i :: 0 <= i < |order| && instances[order[i]] == y
  {
    if order != [] {
      var init, last := order[..|order| - 1], |order| - 1;
      var x := instances[order[last]];
      AttachedMembers(k, init, instances, y);
      CopiesMembers(x, |x.classes|, k, y);
      assert Attached(k, order, instances) == Attached(k, init, instances) + Copies(x, |x.classes|, k);
      if y in Attached(k, init, instances) {
        var i :| 0 <= i < |init| && instances[init[i]] == y;
        assert instances[order[i]] == y;
      } else if y in Copies(x, |x.classes|, k) {
        assert instances[order[last]] == y;
      }
      if Names(y, k) && exists i :: 0 <= i < |order| && instances[order[i]] == y {
        var i :| 0 <= i < |order| && instances[order[i]] == y;
        if i < last {
          assert init[i] == order[i];
        }
      }
    }
  }

  /** `Copies` holds `x` and nothing else, as many times as it has naming classifiers. */
  lemma {:induction false} CopiesCount(x: ClassInstance, n: nat, k: Option<string>, y: ClassInstance)
    requires n <= |x.classes|
    ensures multiset(Copies(x, n, k))[y] == if y == x then |Copies(x, n, k)| else 0
  {
    if n > 0 {
      CopiesCount(x, n - 1, k, y);
    }
  }

  /** One of the first `n` visited instances is `y`. */
  predicate Visited(order: seq<Option<string>>, n: nat, instances: map<Option<string>, ClassInstance>, y: ClassInstance)
    requires n <= |order| && forall i :: 0 <= i < |order| ==> order[i] in instances
  {
    exists i :: 0 <= i < n && instances[order[i]] == y
  }

  /**
   * When the visited instances are distinct, each one is attached to class
   * `k` once per classifier naming `k`, and nothing else is attached.
   */
  lemma {:induction false} AttachedCount(k: Option<string>, order: seq<Option<string>>, instances: map<Option<string>, ClassInstance>, y: ClassInstance)
    requires forall i :: 0 <= i < |order| ==> order[i] in instances
    requires forall i, j :: 0 <= i < j < |order| ==> instances[order[i]] != instances[order[j]]
    ensures multiset(Attached(k, order, instances))[y] == if Visited(order, |order|, instances, y) then NamingCount(y, k) else 0
  {
    if order != [] {
      var init := order[..|order| - 1];
      var x := instances[order[|order| - 1]];
      AttachedCount(k, init, instances, y);
      CopiesCount(x, |x.classes|, k, y);
      VisitedLast(order, instances, y);
      AttachedLast(k, order, init, instances, y);
    }
  }

  /** The instance loop's last turn adds the copies of the last visited instance. */
  lemma AttachedLast(k: Option<string>, order: seq<Option<string>>, init: seq<Option<string>>,
                     instances: map<Option<string>, ClassInstance>, y: ClassInstance)
    requires order != [] && init == order[..|order| - 1]
    requires forall i :: 0 <= i < |order| ==> order[i] in instances
    requires forall i :: 0 <= i < |init| ==> init[i] in instances
    ensures var x := instances[order[|order| - 1]];
      multiset(Attached(k, order, instances))[y]
        == multiset(Attached(k, init, instances))[y] + multiset(Copies(x, |x.classes|, k))[y]
  {
  }

  /** `y` is among the visited instances when it is the last one or among the earlier ones, and never both. */
  lemma VisitedLast(order: seq<Option<string>>, instances: map<Option<string>, ClassInstance>, y: ClassInstance)
    requires order != [] && forall i :: 0 <= i < |order| ==> order[i] in instances
    requires forall i, j :: 0 <= i < j < |order| ==> instances[order[i]] != instances[order[j]]
    ensures var init, x := order[..|order| - 1], instances[order[|order| - 1]];
      (forall i :: 0 <= i < |init| ==> init[i] in instances)
      && (forall i, j :: 0 <= i < j < |init| ==> instances[init[i]] != instances[init[j]])
      && (Visited(order, |order|, instances, y) <==> x == y || Visited(init, |init|, instances, y))
      && (x == y ==> !Visited(init, |init|, instances, y))
  {
    var init, last := order[..|order| - 1], |order| - 1;
    var x := instances[order[last]];
    assert forall i :: 0 <= i < |init| ==> init[i] == order[i];
    if x == y {
      assert Visited(order, |order|, instances, y);
      forall i | 0 <= i < |init|
        ensures instances[init[i]] != y
      {
        assert instances[order[i]] != instances[order[last]];
      }
    }
    if Visited(order, |order|, instances, y) && x != y {
      var i :| 0 <= i < |order| && instances[order[i]] == y;
      assert instances[init[i]] == y;
    }
    if Visited(init, |init|, instances, y) {
      var i :| 0 <= i < |init| && instances[init[i]] == y;
      assert instances[order[i]] == y;
    }
  }

  /** `c` with `xs` appended to its instances. */
  function AddInstances(c: ClassStructure, xs: seq<ClassInstance>): (r: ClassStructure) {
    c.(instances := c.instances + xs)
  }

  lemma AddInstancesTwice(c: ClassStructure, a: seq<ClassInstance>, b: seq<ClassInstance>)
    ensures AddInstances(AddInstances(c, a), b) == AddInstances(c, a + b)
  {
    assert c.instances + a + b == c.instances + (a + b);
  }

  /** Attaching `x` to the class its `j`th classifier names. */
  lemma AttachStep(r0: map<Option<string>, ClassStructure>, r: map<Option<string>, ClassStructure>, x: ClassInstance, j: nat)
    requires j < |x.classes| && Some(x.classes[j].name) in r
    requires forall k :: k in r ==> k in r0 && r[k] == AddInstances(r0[k], Copies(x, j, k))
    ensures var key := Some(x.classes[j].name);
      forall k :: k in r ==> r[key := AddInstances(r[key], [x])][k] == AddInstances(r0[k], Copies(x, j + 1, k))
  {
    var key := Some(x.classes[j].name);
    forall k | k in r
      ensures r[key := AddInstances(r[key], [x])][k] == AddInstances(r0[k], Copies(x, j + 1, k))
    {
      if k == key {
        AddInstancesTwice(r0[k], Copies(x, j, k), [x]);
      } else {
        assert Copies(x, j + 1, k) == Copies(x, j, k) + [];
      }
    }
  }

  /** The inner loop: attach `x` to each class it names. */
  method AttachOne(r0: map<Option<string>, ClassStructure>, x: ClassInstance) returns (r: map<Option<string>, ClassStructure>)
    requires forall j :: 0 <= j < |x.classes| ==> Some(x.classes[j].name) in r0
    ensures r.Keys == r0.Keys
    ensures forall k :: k in r ==> r[k] == AddInstances(r0[k], Copies(x, |x.classes|, k))
  {
    r := r0;
    for j := 0 to |x.classes|
      invariant r.Keys == r0.Keys
      invariant forall k :: k in r ==> r[k] == AddInstances(r0[k], Copies(x, j, k))
    {
      var key := Some(x.classes[j].name);
      AttachStep(r0, r, x, j);
      r := r[key := AddInstances(r[key], [x])];
    }
  }

  /**
   * The second loop of `getRefModelDetails`: each instance, in the map's
   * iteration order `order`, is appended to every class it names, once per
   * naming classifier.
   */
  method AttachInstances(classes: map<Option<string>, ClassStructure>, instances: map<Option<string>, ClassInstance>,
                         order: seq<Option<string>>) returns (r: map<Option<string>, ClassStructure>)
    requires Enumerates(order, instances)
    requires ClassifiersKnown(classes, instances)
    ensures r.Keys == classes.Keys
    ensures forall k :: k in r ==> r[k] == AddInstances(classes[k], Attached(k, order, instances))
  {
    r := classes;
    for i := 0 to |order|
      invariant r.Keys == classes.Keys
      invariant forall k :: k in r ==> r[k] == AddInstances(classes[k], Attached(k, order[..i], instances))
    {
      var x := instances[order[i]];
      assert forall j :: 0 <= j < |x.classes| ==> Some(x.classes[j].name) in r;
      var r1 := AttachOne(r, x);
      AttachNext(classes, instances, order, i, r, r1);
      r := r1;
    }
    assert order[..|order|] == order;
  }

  /** One turn of the instance loop. */
  lemma AttachNext(classes: map<Option<string>, ClassStructure>, instances: map<Option<string>, ClassInstance>,
                   order: seq<Option<string>>, i: nat, r: map<Option<string>, ClassStructure>, r1: map<Option<string>, ClassStructure>)
    requires i < |order| && forall n :: 0 <= n < |order| ==> order[n] in instances
    requires r.Keys == classes.Keys && r1.Keys == classes.Keys
    requires forall k :: k in r ==> r[k] == AddInstances(classes[k], Attached(k, order[..i], instances))
    requires var x := instances[order[i]];
      forall k :: k in r1 ==> r1[k] == AddInstances(r[k], Copies(x, |x.classes|, k))
    ensures forall k :: k in r1 ==> r1[k] == AddInstances(classes[k], Attached(k, order[..i + 1], instances))
  {
    assert order[..i + 1][..i] == order[..i];
    var x := instances[order[i]];
    forall k | k in r1
      ensures r1[k] == AddInstances(classes[k], Attached(k, order[..i + 1], instances))
    {
      AddInstancesTwice(classes[k], Attached(k, order[..i], instances), Copies(x, |x.classes|, k));
    }
  }

  /** An order of the keys, as the map's iteration yields them. */
  method KeyOrder(instances: map<Option<string>, ClassInstance>) returns (order: seq<Option<string>>)
    ensures Enumerates(order, instances)
  {
    order := [];
    var todo := instances.Keys;
    while todo != {}
      invariant todo <= instances.Keys
      invariant forall k :: k in instances <==> k in todo || k in order
      invariant forall k :: k in order ==> k !in todo
      invariant forall i, j :: 0 <= i < j < |order| ==> order[i] != order[j]
      decreases todo
    {
      var k :| k in todo;
      order := order + [k];
      todo := todo - {k};
    }
  }

  /**
   * `d` is the diagram made from the class, instance and enumeration maps:
   * the enumeration and instance maps unchanged, and every class under its
   * key with its contents kept except that each superclass entry is resolved
   * (all alike, since the placeholders are unnamed) and it holds exactly the
   * instances that name it, each once per naming classifier.
   */
  ghost predicate DiagramOf(d: ClassDiagram, classes: map<Option<string>, ClassStructure>,
                            instances: map<Option<string>, ClassInstance>, enums: map<Option<string>, EnumStructure>) {
    d.enums == enums && d.instances == instances && d.classes.Keys == classes.Keys
    && ContentsKept(d.classes, classes) && UniformSupers(d.classes) && ExactInstances(d.classes, instances)
    && ExactCounts(d.classes, instances)
  }

  /** Every class keeps everything but its superclass and instance lists, and the number of superclasses. */
  predicate ContentsKept(after: map<Option<string>, ClassStructure>, before: map<Option<string>, ClassStructure>) {
    forall k :: k in after && k in before ==>
      after[k].(superClasses := [], instances := []) == before[k].(superClasses := [], instances := [])
      && |after[k].superClasses| == |before[k].superClasses|
  }

  /** Every superclass entry is the class under the null key, or `Absent` when there is none. */
  predicate UniformSupers(classes: map<Option<string>, ClassStructure>) {
    forall k, i :: k in classes && 0 <= i < |classes[k].superClasses| ==>
      classes[k].superClasses[i] == (if None in classes then Resolved(None) else Absent)
  }

  /** Every class holds exactly the instances that name it. */
  ghost predicate ExactInstances(classes: map<Option<string>, ClassStructure>, instances: map<Option<string>, ClassInstance>) {
    forall k, y :: k in classes ==> (y in classes[k].instances <==> y in instances.Values && Names(y, k))
  }

  /** Every instance is stored under its own name. */
  predicate InstancesKeyed(instances: map<Option<string>, ClassInstance>) {
    forall k :: k in instances ==> instances[k].name == k
  }

  /** How many times `y` occurs in `xs`. */
  function Occurrences(xs: seq<ClassInstance>, y: ClassInstance): (r: nat)
    ensures r > 0 <==> y in xs
  {
    multiset(xs)[y]
  }

  /** How many classifiers of `y` name the class keyed `k`: the copies the instance loop appends. */
  function NamingCount(y: ClassInstance, k: Option<string>): (r: nat) {
    |Copies(y, |y.classes|, k)|
  }

  /**
   * Every class holds each instance once per classifier of it naming the
   * class, and no other instance.
   */
  ghost predicate ExactCounts(classes: map<Option<string>, ClassStructure>, instances: map<Option<string>, ClassInstance>) {
    forall k, y :: k in classes ==>
      Occurrences(classes[k].instances, y) == if y in instances.Values then NamingCount(y, k) else 0
  }

  /** The part of `getRefModelDetails` after the package tree is read. */
  method BuildDiagram(tree: PackageStructure) returns (d: ClassDiagram)
    requires OwnAll(tree, OwnClasses, FreshClass)
    requires ClassifiersKnown(ClassIndex(tree), InstanceIndex(tree))
    ensures DiagramOf(d, ClassIndex(tree), InstanceIndex(tree), EnumIndex(tree))
  {
    var classes := IndexByName(tree, OwnClasses, ClassName);
    ClassIndexFresh(tree);
    var resolved := ResolveSuperClasses(classes);
    var instances := IndexByName(tree, OwnInstances, InstanceName);
    LastWinsKeyed(Collect(tree, OwnInstances), InstanceName);
    var order := KeyOrder(instances);
    var attached := AttachInstances(resolved, instances, order);
    var enums := IndexByName(tree, OwnEnums, EnumName);
    d := ClassDiagram(attached, enums, instances);
    BuildSteps(classes, resolved, attached, instances, order, enums);
  }

  /** The two loops of `getRefModelDetails` make the diagram `DiagramOf` describes. */
  lemma BuildSteps(classes: map<Option<string>, ClassStructure>, resolved: map<Option<string>, ClassStructure>,
                   attached: map<Option<string>, ClassStructure>, instances: map<Option<string>, ClassInstance>,
                   order: seq<Option<string>>, enums: map<Option<string>, EnumStructure>)
    requires forall k :: k in classes ==> FreshClass(classes[k])
    requires AllUnresolved(classes) && resolved.Keys == classes.Keys
    requires forall k :: k in resolved ==> resolved[k] == classes[k].(superClasses := ResolveAll(classes, classes[k].superClasses))
    requires Enumerates(order, instances) && InstancesKeyed(instances)
    requires attached.Keys == resolved.Keys
    requires forall k :: k in attached ==> attached[k] == AddInstances(resolved[k], Attached(k, order, instances))
    ensures DiagramOf(ClassDiagram(attached, enums, instances), classes, instances, enums)
  {
    BuildKeepsContents(classes, resolved, attached, instances, order);
    BuildResolvesUniformly(classes, resolved, attached, instances, order);
    AttachedExactly(resolved, attached, instances, order);
    AttachedCounts(resolved, attached, instances, order);
  }

  lemma BuildKeepsContents(classes: map<Option<string>, ClassStructure>, resolved: map<Option<string>, ClassStructure>,
                           attached: map<Option<string>, ClassStructure>, instances: map<Option<string>, ClassInstance>,
                           order: seq<Option<string>>)
    requires forall k :: k in classes ==> FreshClass(classes[k])
    requires AllUnresolved(classes) && resolved.Keys == classes.Keys
    requires forall k :: k in resolved ==> resolved[k] == classes[k].(superClasses := ResolveAll(classes, classes[k].superClasses))
    requires forall i :: 0 <= i < |order| ==> order[i] in instances
    requires attached.Keys == resolved.Keys
    requires forall k :: k in attached ==> attached[k] == AddInstances(resolved[k], Attached(k, order, instances))
    ensures ContentsKept(attached, classes)
    ensures forall k :: k in resolved ==> resolved[k].instances == []
  {
    forall k | k in attached
      ensures attached[k].(superClasses := [], instances := []) == classes[k].(superClasses := [], instances := [])
      ensures |attached[k].superClasses| == |classes[k].superClasses|
      ensures resolved[k].instances == []
    {
      ClassKept(classes[k], resolved[k], attached[k], ResolveAll(classes, classes[k].superClasses),
                Attached(k, order, instances));
    }
  }

  lemma BuildResolvesUniformly(classes: map<Option<string>, ClassStructure>, resolved: map<Option<string>, ClassStructure>,
                               attached: map<Option<string>, ClassStructure>, instances: map<Option<string>, ClassInstance>,
                               order: seq<Option<string>>)
    requires forall k :: k in classes ==> FreshClass(classes[k])
    requires AllUnresolved(classes) && resolved.Keys == classes.Keys
    requires forall k :: k in resolved ==> resolved[k] == classes[k].(superClasses := ResolveAll(classes, classes[k].superClasses))
    requires forall i :: 0 <= i < |order| ==> order[i] in instances
    requires attached.Keys == resolved.Keys
    requires forall k :: k in attached ==> attached[k] == AddInstances(resolved[k], Attached(k, order, instances))
    ensures UniformSupers(attached)
  {
    forall k, i | k in attached && 0 <= i < |attached[k].superClasses|
      ensures attached[k].superClasses[i] == (if None in attached then Resolved(None) else Absent)
    {
      assert attached[k].superClasses == resolved[k].superClasses;
      UniformResolution(classes, k, i);
    }
  }

  /** Resolving and attaching change only the superclass and instance lists. */
  lemma ClassKept(c: ClassStructure, resolved: ClassStructure, attached: ClassStructure,
                  supers: seq<SuperClass>, xs: seq<ClassInstance>)
    requires |supers| == |c.superClasses|
    requires resolved == c.(superClasses := supers) && attached == AddInstances(resolved, xs)
    ensures attached.(superClasses := [], instances := []) == c.(superClasses := [], instances := [])
    ensures |attached.superClasses| == |c.superClasses| && resolved.instances == c.instances
  {
  }

  /** Reading the model raises no exception. */
  predicate ModelReadable(root: UmlPackage) {
    PackageReadable(root) && ClassifiersKnown(ClassIndex(TreeOf(root)), InstanceIndex(TreeOf(root)))
  }

  /**
   * `getRefModelDetails`. A null root yields null; otherwise the result is
   * the diagram made from the maps of the tree read under the root's name.
   */
  method GetRefModelDetails(root: Option<UmlPackage>) returns (r: Option<ClassDiagram>)
    requires root.Some? ==> ModelReadable(root.value)
    ensures r.None? <==> root.None?
    ensures r.Some? ==> var t := TreeOf(root.value);
      DiagramOf(r.value, ClassIndex(t), InstanceIndex(t), EnumIndex(t))
  {
    if root.None? {
      return None;
    }
    var p := root.value;
    var packageName := if p.name.Some? then p.name.value else "";
    var tree := ReadPackage(p, packageName);
    TreeClassesFresh(p, |p.elements|, packageName);
    var d := BuildDiagram(tree);
    r := Some(d);
  }

  /** After the instance loop, each class holds exactly the instances that name it. */
  lemma AttachedExactly(before: map<Option<string>, ClassStructure>, after: map<Option<string>, ClassStructure>,
                        instances: map<Option<string>, ClassInstance>, order: seq<Option<string>>)
    requires Enumerates(order, instances)
    requires after.Keys == before.Keys
    requires forall k :: k in after ==> after[k] == AddInstances(before[k], Attached(k, order, instances))
    requires forall k :: k in before ==> before[k].instances == []
    ensures ExactInstances(after, instances)
  {
    forall k, y | k in after
      ensures y in after[k].instances <==> y in instances.Values && Names(y, k)
    {
      AttachedMembers(k, order, instances, y);
      if y in instances.Values {
        var key :| key in instances && instances[key] == y;
        assert key in order;
      }
    }
  }

  /** After the instance loop, each class holds each naming instance once per naming classifier. */
  lemma AttachedCounts(before: map<Option<string>, ClassStructure>, after: map<Option<string>, ClassStructure>,
                       instances: map<Option<string>, ClassInstance>, order: seq<Option<string>>)
    requires Enumerates(order, instances) && InstancesKeyed(instances)
    requires after.Keys == before.Keys
    requires forall k :: k in after ==> after[k] == AddInstances(before[k], Attached(k, order, instances))
    requires forall k :: k in before ==> before[k].instances == []
    ensures ExactCounts(after, instances)
  {
    KeyedDistinct(order, instances);
    forall k, y | k in after
      ensures Occurrences(after[k].instances, y) == if y in instances.Values then NamingCount(y, k) else 0
    {
      ClassCount(before[k], after[k], k, order, instances, y);
    }
  }

  /** One class of `AttachedCounts`. */
  lemma ClassCount(before: ClassStructure, after: ClassStructure, k: Option<string>,
                   order: seq<Option<string>>, instances: map<Option<string>, ClassInstance>, y: ClassInstance)
    requires Enumerates(order, instances)
    requires forall i, j :: 0 <= i < j < |order| ==> instances[order[i]] != instances[order[j]]
    requires before.instances == [] && after == AddInstances(before, Attached(k, order, instances))
    ensures Occurrences(after.instances, y) == if y in instances.Values then NamingCount(y, k) else 0
  {
    assert after.instances == Attached(k, order, instances);
    AttachedCountOf(k, order, instances, y);
  }

  /** Instances stored under distinct names are distinct. */
  lemma KeyedDistinct(order: seq<Option<string>>, instances: map<Option<string>, ClassInstance>)
    requires Enumerates(order, instances) && InstancesKeyed(instances)
    ensures forall i, j :: 0 <= i < j < |order| ==> instances[order[i]] != instances[order[j]]
  {
    forall i, j | 0 <= i < j < |order|
      ensures instances[order[i]] != instances[order[j]]
    {
      assert instances[order[i]].name == order[i];
    }
  }

  /** `AttachedCount`, with the visited instances named as the map's values. */
  lemma AttachedCountOf(k: Option<string>, order: seq<Option<string>>, instances: map<Option<string>, ClassInstance>, y: ClassInstance)
    requires Enumerates(order, instances)
    requires forall i, j :: 0 <= i < j < |order| ==> instances[order[i]] != instances[order[j]]
    ensures multiset(Attached(k, order, instances))[y] == if y in instances.Values then |Copies(y, |y.classes|, k)| else 0
  {
    AttachedCount(k, order, instances, y);
    if y in instances.Values {
      var key :| key in instances && instances[key] == y;
      var i :| 0 <= i < |order| && order[i] == key;
      assert instances[order[i]] == y;
      assert Visited(order, |order|, instances, y);
    }
  }
}
