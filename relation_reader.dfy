/** Reading a class's relationships (`readGeneralization`, `readAssociation`, `readClassRelations`). */
module RelationReader {
  import opened Wrappers
  import opened Uml
  import opened Diagram

  /** The names of the related elements that are classes, in order. */
  function ClassNames(rs: seq<RelatedElement>): (r: seq<Option<string>>)
    ensures |r| <= |rs|
    ensures forall i :: 0 <= i < |rs| && rs[i].RelatedClass? ==> rs[i].name in r
  {
    if rs == [] then []
    else
      var init, last := rs[..|rs| - 1], rs[|rs| - 1];
      assert forall i :: 0 <= i < |init| ==> init[i] == rs[i];
      ClassNames(init) + (if last.RelatedClass? then [last.name] else [])
  }

  lemma {:induction false} ClassNamesAppend(a: seq<RelatedElement>, b: seq<RelatedElement>)
    ensures ClassNames(a + b) == ClassNames(a) + ClassNames(b)
  {
    if b == [] {
      assert a + b == a;
    } else {
      assert (a + b)[..|a + b| - 1] == a + b[..|b| - 1];
      ClassNamesAppend(a, b[..|b| - 1]);
    }
  }

  /**
   * The generalization relation: the first related class is `class1`; each
   * later one overwrites `class2`, so `class2` is the last of at least two.
   */
  function GeneralizationOf(rs: seq<RelatedElement>): (r: ClassRelation) {
    var names := ClassNames(rs);
    EmptyRelation(GeneralizationKind).(
      class1 := if |names| >= 1 then names[0] else None,
      class2 := if |names| >= 2 then names[|names| - 1] else None)
  }

  /** `readGeneralization`. */
  method ReadGeneralization(rs: seq<RelatedElement>) returns (r: ClassRelation)
    ensures r == GeneralizationOf(rs)
    ensures r.kind == GeneralizationKind
  {
    r := EmptyRelation(GeneralizationKind);
    var first := true;
    for i := 0 to |rs|
      invariant first <==> ClassNames(rs[..i]) == []
      invariant r == GeneralizationOf(rs[..i])
    {
      ClassNamesAppend(rs[..i], [rs[i]]);
      assert rs[..i + 1] == rs[..i] + [rs[i]];
      if rs[i].RelatedClass? {
        if first {
          first := false;
          r := r.(class1 := rs[i].name);
        } else {
          r := r.(class2 := rs[i].name);
        }
      }
    }
    assert rs[..|rs|] == rs;
  }

  /** Related elements that are not classes do not affect the relation. */
  lemma GeneralizationIgnoresOthers(a: seq<RelatedElement>, b: seq<RelatedElement>)
    ensures GeneralizationOf(a + [RelatedOther] + b) == GeneralizationOf(a + b)
  {
    ClassNamesAppend(a + [RelatedOther], b);
    ClassNamesAppend(a, [RelatedOther]);
    ClassNamesAppend(a, b);
  }

  /** A generalization between two classes relates the first to the second. */
  lemma GeneralizationOfTwoClasses(rs: seq<RelatedElement>)
    requires |ClassNames(rs)| == 2
    ensures GeneralizationOf(rs).class1 == ClassNames(rs)[0]
    ensures GeneralizationOf(rs).class2 == ClassNames(rs)[1]
  {
  }

  /** The member ends typed by a class, in order. */
  function ClassEnds(ends: seq<AssociationEnd>): (r: seq<AssociationEnd>)
    ensures |r| <= |ends|
    ensures forall e :: e in r ==> e.typ.ClassType?
  {
    if ends == [] then []
    else
      var init, last := ends[..|ends| - 1], ends[|ends| - 1];
      ClassEnds(init) + (if last.typ.ClassType? then [last] else [])
  }

  /** An end is kept exactly when it is one of the ends and is typed by a class. */
  lemma {:induction false} ClassEndsMembers(ends: seq<AssociationEnd>, e: AssociationEnd)
    ensures e in ClassEnds(ends) <==> e in ends && e.typ.ClassType?
  {
    if ends != [] {
      var init, last := ends[..|ends| - 1], ends[|ends| - 1];
      ClassEndsMembers(init, e);
      assert ends == init + [last];
    }
  }

  lemma {:induction false} ClassEndsAppend(a: seq<AssociationEnd>, b: seq<AssociationEnd>)
    ensures ClassEnds(a + b) == ClassEnds(a) + ClassEnds(b)
  {
    if b == [] {
      assert a + b == a;
    } else {
      assert (a + b)[..|a + b| - 1] == a + b[..|b| - 1];
      ClassEndsAppend(a, b[..|b| - 1]);
    }
  }

  /** The upper value of each end the reader inspects is absent or an unlimited-natural literal (584-585, 609-610). */
  predicate EndsReadable(ends: seq<AssociationEnd>) {
    var ce := ClassEnds(ends);
    forall k :: 0 <= k < |ce| && k < 2 ==> !ce[k].upperValue.OtherUpperValue?
  }

  /** The role name: the end's name, or `""` when it is null or empty. */
  function RoleName(e: AssociationEnd): (r: string)
    ensures r == "" <==> e.name.None? || e.name.value == ""
    ensures r != "" ==> e.name == Some(r)
  {
    if e.name.Some? && e.name.value != "" then e.name.value else ""
  }

  /** The upper multiplicity recorded for an end; left unset when there is no upper value. */
  function UpperOf(e: AssociationEnd): (r: Option<int>)
    requires !e.upperValue.OtherUpperValue?
  {
    match e.upperValue
    case UnlimitedNaturalUpper(v) => Some(v)
    case NoUpperValue => None
  }

  /** The relation after reading its first class-typed end. */
  function WithFirstEnd(r: ClassRelation, e: AssociationEnd): (r': ClassRelation)
    requires e.typ.ClassType? && !e.upperValue.OtherUpperValue?
  {
    r.(visibility := Some(e.visibility), class1 := e.typ.name, roleName1 := Some(RoleName(e)),
       navigable1 := e.navigable, upper1 := if e.upperValue.UnlimitedNaturalUpper? then UpperOf(e) else r.upper1)
  }

  /** The relation after reading its second class-typed end. */
  function WithSecondEnd(r: ClassRelation, e: AssociationEnd): (r': ClassRelation)
    requires e.typ.ClassType? && !e.upperValue.OtherUpperValue?
  {
    r.(class2 := e.typ.name, roleName2 := Some(RoleName(e)),
       navigable2 := e.navigable, upper2 := if e.upperValue.UnlimitedNaturalUpper? then UpperOf(e) else r.upper2)
  }

  /** The association relation: filled from the first two class-typed ends only. */
  function AssociationOf(ends: seq<AssociationEnd>): (r: ClassRelation)
    requires EndsReadable(ends)
    ensures r.kind == AssociationKind
    ensures |ClassEnds(ends)| == 0 <==> r == EmptyRelation(AssociationKind)
  {
    var ce := ClassEnds(ends);
    var r0 := EmptyRelation(AssociationKind);
    if |ce| == 0 then r0
    else if |ce| == 1 then WithFirstEnd(r0, ce[0])
    else WithSecondEnd(WithFirstEnd(r0, ce[0]), ce[1])
  }

  /** The class-typed ends of a prefix start the class-typed ends of the whole. */
  lemma ClassEndsPrefix(ends: seq<AssociationEnd>, i: int)
    requires 0 <= i <= |ends|
    ensures ClassEnds(ends[..i]) <= ClassEnds(ends)
    ensures EndsReadable(ends) ==> EndsReadable(ends[..i])
  {
    assert ends == ends[..i] + ends[i..];
    ClassEndsAppend(ends[..i], ends[i..]);
  }

  /** `readAssociation`: returns as soon as the second class-typed end has been read. */
  method ReadAssociation(ends: seq<AssociationEnd>) returns (r: ClassRelation)
    requires EndsReadable(ends)
    ensures r == AssociationOf(ends)
  {
    r := EmptyRelation(AssociationKind);
    var first := true;
    for i := 0 to |ends|
      invariant |ClassEnds(ends[..i])| <= 1
      invariant first <==> |ClassEnds(ends[..i])| == 0
      invariant EndsReadable(ends[..i]) && r == AssociationOf(ends[..i])
    {
      var end := ends[i];
      assert ends[..i + 1][..i] == ends[..i];
      ClassEndsPrefix(ends, i + 1);
      if end.typ.ClassType? {
        assert ClassEnds(ends[..i + 1]) == ClassEnds(ends[..i]) + [end];
        assert ClassEnds(ends)[|ClassEnds(ends[..i])|] == end;
        if first {
          first := false;
          r := WithFirstEnd(r, end);
        } else {
          r := WithSecondEnd(r, end);
          assert r == AssociationOf(ends[..i + 1]);
          assert ends == ends[..i + 1] + ends[i + 1..];
          AssociationIgnoresLaterEnds(ends[..i + 1], ends[i + 1..]);
          return;
        }
      }
    }
    assert ends[..|ends|] == ends;
  }

  /** Ends after the second class-typed end are never inspected. */
  lemma AssociationIgnoresLaterEnds(a: seq<AssociationEnd>, b: seq<AssociationEnd>)
    requires |ClassEnds(a)| >= 2 && EndsReadable(a)
    ensures EndsReadable(a + b)
    ensures AssociationOf(a + b) == AssociationOf(a)
  {
    ClassEndsAppend(a, b);
  }

  /** An end that is not typed by a class is skipped. */
  lemma AssociationSkipsNonClassEnd(a: seq<AssociationEnd>, e: AssociationEnd, b: seq<AssociationEnd>)
    requires !e.typ.ClassType? && EndsReadable(a + b)
    ensures EndsReadable(a + [e] + b)
    ensures AssociationOf(a + [e] + b) == AssociationOf(a + b)
  {
    var ae := a + [e];
    ClassEndsAppend(ae, b);
    ClassEndsAppend(a, [e]);
    ClassEndsAppend(a, b);
    assert [e][..0] == [];
    assert ClassEnds([e]) == [];
    assert ClassEnds(ae) == ClassEnds(a) + [];
    assert ClassEnds(ae) == ClassEnds(a);
    SameClassEnds(a + b, ae + b);
  }

  /** The association depends on the class-typed ends only. */
  lemma SameClassEnds(x: seq<AssociationEnd>, y: seq<AssociationEnd>)
    requires EndsReadable(x) && ClassEnds(x) == ClassEnds(y)
    ensures EndsReadable(y) && AssociationOf(y) == AssociationOf(x)
  {
  }

  predicate RelationshipsReadable(rs: seq<Relationship>) {
    forall i :: 0 <= i < |rs| && rs[i].Association? ==> EndsReadable(rs[i].ends)
  }

  /** The relation read from one relationship, if it is an association or a generalization. */
  function RelationOf(rel: Relationship): (r: Option<ClassRelation>)
    requires rel.Association? ==> EndsReadable(rel.ends)
  {
    match rel
    case Association(ends) => Some(AssociationOf(ends))
    case Generalization(related) => Some(GeneralizationOf(related))
    case OtherRelationship => None
  }

  /** The relations of a class: one per association or generalization, in order. */
  function RelationsOf(rs: seq<Relationship>): (r: seq<ClassRelation>)
    requires RelationshipsReadable(rs)
    ensures |r| <= |rs|
    ensures forall x :: x in r ==> exists i :: 0 <= i < |rs| && RelationOf(rs[i]) == Some(x)
  {
    if rs == [] then []
    else
      var init, last := rs[..|rs| - 1], rs[|rs| - 1];
      assert forall i :: 0 <= i < |init| ==> init[i] == rs[i];
      RelationsOf(init) + (match RelationOf(last) case Some(x) => [x] case None => [])
  }

  /** Relations keep source order: reading a concatenation concatenates the lists. */
  lemma {:induction false} RelationsOfAppend(a: seq<Relationship>, b: seq<Relationship>)
    requires RelationshipsReadable(a) && RelationshipsReadable(b)
    ensures RelationshipsReadable(a + b)
    ensures RelationsOf(a + b) == RelationsOf(a) + RelationsOf(b)
  {
    assert forall i :: 0 <= i < |a + b| ==> (a + b)[i] == if i < |a| then a[i] else b[i - |a|];
    if b == [] {
      assert a + b == a;
    } else {
      var b' := b[..|b| - 1];
      assert (a + b)[..|a + b| - 1] == a + b';
      assert (a + b)[|a + b| - 1] == b[|b| - 1];
      assert RelationshipsReadable(b') by {
        assert forall i :: 0 <= i < |b'| ==> b'[i] == b[i];
      }
      RelationsOfAppend(a, b');
    }
  }

  /** Every association and generalization of the class yields a relation. */
  lemma {:induction false} RelationsOfComplete(rs: seq<Relationship>, i: int)
    requires RelationshipsReadable(rs)
    requires 0 <= i < |rs| && !rs[i].OtherRelationship?
    ensures RelationOf(rs[i]).value in RelationsOf(rs)
  {
    var init := rs[..|rs| - 1];
    if i < |rs| - 1 {
      assert init[i] == rs[i];
      RelationsOfComplete(init, i);
    }
  }

  /** `readClassRelations`. */
  method ReadClassRelations(rs: seq<Relationship>) returns (r: seq<ClassRelation>)
    requires RelationshipsReadable(rs)
    ensures r == RelationsOf(rs)
  {
    r := [];
    for i := 0 to |rs|
      invariant r == RelationsOf(rs[..i])
    {
      assert rs[..i + 1][..i] == rs[..i];
      match rs[i]
      case Association(ends) =>
        var relation := ReadAssociation(ends);
        r := r + [relation];
      case Generalization(related) =>
        var relation := ReadGeneralization(related);
        r := r + [relation];
      case OtherRelationship =>
    }
    assert rs[..|rs|] == rs;
  }
}
