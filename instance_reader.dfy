/** Reading an instance specification (`readInstance`). */
module InstanceReader {
  import opened Wrappers
  import opened Uml
  import opened Diagram

  /**
   * The value a slot records for one value specification: the referenced
   * instance's name, or the literal's value; nothing for an instance value
   * without an instance and for other kinds of specification.
   */
  function ValueOf(v: ValueSpec): (r: Option<SlotValue>) {
    match v
    case InstanceValueSpec(target) =>
      if target.TargetInstance? then Some(InstanceNameValue(target.name)) else None
    case LiteralStringSpec(text) => Some(StringValue(text))
    case LiteralIntegerSpec(n) => Some(IntegerValue(n))
    case LiteralBooleanSpec(b) => Some(BooleanValue(b))
    case LiteralRealSpec(text) => Some(RealValue(text))
    case LiteralUnlimitedNaturalSpec(n) => Some(UnlimitedNaturalValue(n))
    case OtherLiteralSpec => None
    case OtherValueSpec => None
  }

  /** The value specification that denotes a recorded value. */
  function SpecOf(x: SlotValue): (r: ValueSpec) {
    match x
    case InstanceNameValue(name) => InstanceValueSpec(TargetInstance(name))
    case StringValue(text) => LiteralStringSpec(text)
    case IntegerValue(n) => LiteralIntegerSpec(n)
    case BooleanValue(b) => LiteralBooleanSpec(b)
    case RealValue(text) => LiteralRealSpec(text)
    case UnlimitedNaturalValue(n) => LiteralUnlimitedNaturalSpec(n)
  }

  /** Every recorded value round-trips: reading its specification gives it back, with its kind. */
  lemma ValueRoundTrip(x: SlotValue)
    ensures ValueOf(SpecOf(x)) == Some(x)
  {
  }

  /** The values a slot records, in order. */
  function SlotValues(vs: seq<ValueSpec>): (r: seq<SlotValue>)
    ensures |r| <= |vs|
    ensures forall x :: x in r ==> exists i :: 0 <= i < |vs| && ValueOf(vs[i]) == Some(x)
  {
    if vs == [] then []
    else
      var init, last := vs[..|vs| - 1], vs[|vs| - 1];
      assert forall i :: 0 <= i < |init| ==> init[i] == vs[i];
      SlotValues(init) + (match ValueOf(last) case Some(x) => [x] case None => [])
  }

  /** Values keep source order: reading a concatenation concatenates the values. */
  lemma {:induction false} SlotValuesAppend(a: seq<ValueSpec>, b: seq<ValueSpec>)
    ensures SlotValues(a + b) == SlotValues(a) + SlotValues(b)
  {
    if b == [] {
      assert a + b == a;
    } else {
      assert (a + b)[..|a + b| - 1] == a + b[..|b| - 1];
      SlotValuesAppend(a, b[..|b| - 1]);
    }
  }

  /** A slot whose values are all recorded values' specifications records exactly those values. */
  lemma {:induction false} SlotValuesOfSpecs(xs: seq<SlotValue>)
    ensures SlotValues(seq(|xs|, i requires 0 <= i < |xs| => SpecOf(xs[i]))) == xs
  {
    if xs != [] {
      var init := xs[..|xs| - 1];
      var specs := seq(|xs|, i requires 0 <= i < |xs| => SpecOf(xs[i]));
      assert specs[..|xs| - 1] == seq(|init|, i requires 0 <= i < |init| => SpecOf(init[i]));
      SlotValuesOfSpecs(init);
      ValueRoundTrip(xs[|xs| - 1]);
    }
  }

  /** Some value of the slot is an instance value. */
  predicate HasInstanceValue(vs: seq<ValueSpec>) {
    exists i :: 0 <= i < |vs| && vs[i].InstanceValueSpec?
  }

  /** The attribute recorded for a slot. */
  function SlotAttribute(s: Slot): (r: InstanceAttribute) {
    InstanceAttribute(s.featureName, s.featureTypeName, HasInstanceValue(s.values), SlotValues(s.values))
  }

  /** One attribute per slot, in order. */
  function SlotAttributes(slots: seq<Slot>): (r: seq<InstanceAttribute>)
    ensures |r| == |slots|
    ensures forall i :: 0 <= i < |slots| ==> r[i] == SlotAttribute(slots[i])
  {
    if slots == [] then [] else SlotAttributes(slots[..|slots| - 1]) + [SlotAttribute(slots[|slots| - 1])]
  }

  /** The (name, package) keys of the named classifiers, in order. */
  function ClassifierKeys(cs: seq<Classifier>): (r: seq<ClassifierKey>)
    ensures |r| <= |cs|
    ensures forall k :: k in r ==> exists i :: 0 <= i < |cs| && cs[i].name == Some(k.name) && cs[i].packageName == k.pkg
    ensures forall i :: 0 <= i < |cs| && cs[i].name.Some? ==> ClassifierKey(cs[i].name.value, cs[i].packageName) in r
  {
    if cs == [] then []
    else
      var init, last := cs[..|cs| - 1], cs[|cs| - 1];
      assert forall i :: 0 <= i < |init| ==> init[i] == cs[i];
      ClassifierKeys(init) + (if last.name.Some? then [ClassifierKey(last.name.value, last.packageName)] else [])
  }

  /** Classifier keys keep source order: reading a concatenation concatenates the keys. */
  lemma {:induction false} ClassifierKeysAppend(a: seq<Classifier>, b: seq<Classifier>)
    ensures ClassifierKeys(a + b) == ClassifierKeys(a) + ClassifierKeys(b)
  {
    if b == [] {
      assert a + b == a;
    } else {
      var b' := b[..|b| - 1];
      assert (a + b)[..|a + b| - 1] == a + b';
      assert (a + b)[|a + b| - 1] == b[|b| - 1];
      ClassifierKeysAppend(a, b');
    }
  }

  /** The instance built for `spec` in package `pkg`; an unnamed specification yields an empty instance. */
  function InstanceOf(spec: InstanceSpec, pkg: string): (r: ClassInstance) {
    if spec.name.None? || spec.name.value == "" then EmptyInstance
    else ClassInstance(spec.name, Some(pkg), SlotAttributes(spec.slots), ClassifierKeys(spec.classifiers))
  }

  /** Reading one more value specification. */
  lemma SlotStep(vs: seq<ValueSpec>, j: int)
    requires 0 <= j < |vs|
    ensures SlotValues(vs[..j + 1]) == SlotValues(vs[..j]) + (match ValueOf(vs[j]) case Some(x) => [x] case None => [])
    ensures HasInstanceValue(vs[..j + 1]) <==> HasInstanceValue(vs[..j]) || vs[j].InstanceValueSpec?
  {
    assert vs[..j + 1][..j] == vs[..j];
    assert vs[..j + 1][j] == vs[j];
    if HasInstanceValue(vs[..j]) {
      var k :| 0 <= k < j && vs[..j][k].InstanceValueSpec?;
      assert vs[..j + 1][k] == vs[..j][k];
    }
  }

  /** The body of `readInstance`'s slot loop: the attribute recorded for one slot. */
  method ReadSlot(slot: Slot) returns (attribute: InstanceAttribute)
    ensures attribute == SlotAttribute(slot)
  {
    attribute := InstanceAttribute(slot.featureName, slot.featureTypeName, false, []);
    var values: seq<SlotValue> := [];
    var vs := slot.values;
    for j := 0 to |vs|
      invariant values == SlotValues(vs[..j])
      invariant attribute == InstanceAttribute(slot.featureName, slot.featureTypeName, HasInstanceValue(vs[..j]), [])
    {
      SlotStep(vs, j);
      match vs[j]
      case InstanceValueSpec(target) =>
        attribute := attribute.(isClass := true);
        if target.TargetInstance? {
          values := values + [InstanceNameValue(target.name)];
        }
      case LiteralStringSpec(text) => values := values + [StringValue(text)];
      case LiteralIntegerSpec(n) => values := values + [IntegerValue(n)];
      case LiteralBooleanSpec(b) => values := values + [BooleanValue(b)];
      case LiteralRealSpec(text) => values := values + [RealValue(text)];
      case LiteralUnlimitedNaturalSpec(n) => values := values + [UnlimitedNaturalValue(n)];
      case OtherLiteralSpec =>
      case OtherValueSpec =>
    }
    assert vs[..|vs|] == vs;
    attribute := attribute.(values := values);
  }

  /** `readInstance`. */
  method ReadInstance(spec: InstanceSpec, pkg: string) returns (r: ClassInstance)
    ensures r == InstanceOf(spec, pkg)
    ensures spec.name.None? || spec.name.value == "" ==> r.name.None? && r.attributes == [] && r.classes == []
    ensures spec.name.Some? && spec.name.value != "" ==>
      r.name == spec.name && |r.attributes| == |spec.slots|
      && forall i :: 0 <= i < |spec.slots| ==>
           (r.attributes[i].isClass <==> exists j :: 0 <= j < |spec.slots[i].values| && spec.slots[i].values[j].InstanceValueSpec?)
  {
    r := EmptyInstance;
    if spec.name.Some? && spec.name.value != "" {
      r := r.(name := spec.name, pkg := Some(pkg));
      var slots := spec.slots;
      for i := 0 to |slots|
        invariant r == ClassInstance(spec.name, Some(pkg), SlotAttributes(slots[..i]), [])
      {
        var attribute := ReadSlot(slots[i]);
        r := r.(attributes := r.attributes + [attribute]);
        assert slots[..i + 1][..i] == slots[..i];
      }
      assert slots[..|slots|] == slots;
      var classifiers := spec.classifiers;
      for i := 0 to |classifiers|
        invariant r == ClassInstance(spec.name, Some(pkg), SlotAttributes(slots), ClassifierKeys(classifiers[..i]))
      {
        var classifier := classifiers[i];
        if spec.name.Some? && classifier.name.Some? {
          r := r.(classes := r.classes + [ClassifierKey(classifier.name.value, classifier.packageName)]);
        }
        assert classifiers[..i + 1][..i] == classifiers[..i];
      }
      assert classifiers[..|classifiers|] == classifiers;
    }
  }
}
