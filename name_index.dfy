/**
 * The name-keyed maps `getRefModelDetails` builds from the package tree
 * (`classStructures`, `enumStructure`, `classInstances`): a pre-order walk
 * whose entries are put into a map keyed by name, later entries replacing
 * earlier ones.
 */
module NameIndex {
  import opened Wrappers
  import opened Diagram

  /** A package's own entries, then those of each child package in order, recursively. */
  function Collect<T>(p: PackageStructure, own: PackageStructure -> seq<T>): (r: seq<T>)
    decreases p, 1, 0
  {
    own(p) + CollectChildren(p, |p.packages|, own)
  }

  /** The collected entries of the first `n` child packages of `p`. */
  function CollectChildren<T>(p: PackageStructure, n: nat, own: PackageStructure -> seq<T>): (r: seq<T>)
    requires n <= |p.packages|
    decreases p, 0, n
  {
    if n == 0 then [] else CollectChildren(p, n - 1, own) + Collect(p.packages[n - 1], own)
  }

  /** The map a sequence of `put(key(x), x)` calls leaves behind. */
  function LastWins<T>(xs: seq<T>, key: T -> Option<string>): (r: map<Option<string>, T>) {
    if xs == [] then map[]
    else LastWins(xs[..|xs| - 1], key)[key(xs[|xs| - 1]) := xs[|xs| - 1]]
  }

  /** `putAll` of the map of a later run of entries is putting those entries one by one. */
  lemma {:induction false} LastWinsAppend<T>(a: seq<T>, b: seq<T>, key: T -> Option<string>)
    ensures LastWins(a + b, key) == LastWins(a, key) + LastWins(b, key)
  {
    if b == [] {
      assert a + b == a;
    } else {
      var b', last := b[..|b| - 1], b[|b| - 1];
      assert (a + b)[..|a + b| - 1] == a + b';
      assert (a + b)[|a + b| - 1] == last;
      LastWinsAppend(a, b', key);
      assert LastWins(a + b, key) == (LastWins(a, key) + LastWins(b', key))[key(last) := last];
    }
  }

  /**
   * The map's keys are exactly the names of the entries, and each key holds
   * the last entry carrying that name.
   */
  lemma {:induction false} LastWinsLast<T>(xs: seq<T>, key: T -> Option<string>, k: Option<string>)
    ensures k in LastWins(xs, key) <==> exists i :: 0 <= i < |xs| && key(xs[i]) == k
    ensures k in LastWins(xs, key) ==>
      exists i :: 0 <= i < |xs| && LastWins(xs, key)[k] == xs[i] && key(xs[i]) == k
        && forall j :: i < j < |xs| ==> key(xs[j]) != k
  {
    if xs != [] {
      var init, last := xs[..|xs| - 1], xs[|xs| - 1];
      LastWinsLast(init, key, k);
      assert forall i :: 0 <= i < |init| ==> init[i] == xs[i];
      if key(last) == k {
        assert LastWins(xs, key)[k] == xs[|xs| - 1];
      } else if k in LastWins(init, key) {
        var i :| 0 <= i < |init| && LastWins(init, key)[k] == init[i] && key(init[i]) == k
          && forall j :: i < j < |init| ==> key(init[j]) != k;
        assert LastWins(xs, key)[k] == xs[i];
      }
    }
  }

  /** Every value of the map is an entry keyed under its own name. */
  lemma LastWinsKeyed<T>(xs: seq<T>, key: T -> Option<string>)
    ensures forall k :: k in LastWins(xs, key) ==> key(LastWins(xs, key)[k]) == k && LastWins(xs, key)[k] in xs
  {
    forall k | k in LastWins(xs, key)
      ensures key(LastWins(xs, key)[k]) == k && LastWins(xs, key)[k] in xs
    {
      LastWinsLast(xs, key, k);
    }
  }

  /** Every collected entry satisfies `P` when every package's own entries do. */
  ghost predicate OwnAll<T>(p: PackageStructure, own: PackageStructure -> seq<T>, P: T -> bool)
    decreases p
  {
    (forall x :: x in own(p) ==> P(x))
    && forall i :: 0 <= i < |p.packages| ==> OwnAll(p.packages[i], own, P)
  }

  lemma {:induction false} CollectAll<T>(p: PackageStructure, own: PackageStructure -> seq<T>, P: T -> bool)
    requires OwnAll(p, own, P)
    ensures forall x :: x in Collect(p, own) ==> P(x)
    decreases p, 1, 0
  {
    CollectChildrenAll(p, |p.packages|, own, P);
  }

  lemma {:induction false} CollectChildrenAll<T>(p: PackageStructure, n: nat, own: PackageStructure -> seq<T>, P: T -> bool)
    requires n <= |p.packages| && OwnAll(p, own, P)
    ensures forall x :: x in CollectChildren(p, n, own) ==> P(x)
    decreases p, 0, n
  {
    if n > 0 {
      CollectChildrenAll(p, n - 1, own, P);
      CollectAll(p.packages[n - 1], own, P);
    }
  }

  function OwnClasses(p: PackageStructure): (r: seq<ClassStructure>) { p.classes }
  function OwnEnums(p: PackageStructure): (r: seq<EnumStructure>) { p.enums }
  function OwnInstances(p: PackageStructure): (r: seq<ClassInstance>) { p.instances }
  function ClassName(c: ClassStructure): (r: Option<string>) { c.name }
  function EnumName(e: EnumStructure): (r: Option<string>) { e.name }
  function InstanceName(x: ClassInstance): (r: Option<string>) { x.name }

  /**
   * `classStructures`, `enumStructure` and `classInstances`: the entries of
   * `p` put by name, then the maps of the child packages put over them.
   */
  method IndexByName<T>(p: PackageStructure, own: PackageStructure -> seq<T>, key: T -> Option<string>)
    returns (m: map<Option<string>, T>)
    ensures m == LastWins(Collect(p, own), key)
    decreases p
  {
    var xs := own(p);
    m := map[];
    for i := 0 to |xs|
      invariant m == LastWins(xs[..i], key)
    {
      assert xs[..i + 1][..i] == xs[..i];
      m := m[key(xs[i]) := xs[i]];
    }
    assert xs[..|xs|] == xs + CollectChildren(p, 0, own);
    for i := 0 to |p.packages|
      invariant m == LastWins(xs + CollectChildren(p, i, own), key)
    {
      var child := IndexByName(p.packages[i], own, key);
      LastWinsAppend(xs + CollectChildren(p, i, own), Collect(p.packages[i], own), key);
      assert xs + CollectChildren(p, i + 1, own) == xs + CollectChildren(p, i, own) + Collect(p.packages[i], own);
      m := m + child;
    }
  }
}
