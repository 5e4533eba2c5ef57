/** The few `java.lang.String` operations the reader relies on. */
module JavaString {

  /** `t` occurs in `s` starting at index `i`. */
  predicate OccursAt(s: string, t: string, i: int) {
    0 <= i && i + |t| <= |s| && s[i..i + |t|] == t
  }

  /** `s.indexOf(t, from)`: the first index `>= from` at which `t` occurs, or -1. */
  function IndexOfFrom(s: string, t: string, from: nat): (r: int)
    decreases |s| - from
    ensures r == -1 || (from <= r && OccursAt(s, t, r))
    ensures forall j :: from <= j && (r == -1 || j < r) ==> !OccursAt(s, t, j)
  {
    if from + |t| > |s| then -1
    else if s[from..from + |t|] == t then from
    else IndexOfFrom(s, t, from + 1)
  }

  /** `s.indexOf(t)`. */
  function IndexOf(s: string, t: string): (r: int)
    ensures r == -1 || OccursAt(s, t, r)
    ensures forall j :: 0 <= j && (r == -1 || j < r) ==> !OccursAt(s, t, j)
  {
    IndexOfFrom(s, t, 0)
  }

  /** `s.contains(t)`. */
  predicate Contains(s: string, t: string) {
    IndexOf(s, t) >= 0
  }

  lemma ContainsIffOccurs(s: string, t: string)
    ensures Contains(s, t) <==> exists j :: OccursAt(s, t, j)
  {
    if exists j :: OccursAt(s, t, j) {
      var j :| OccursAt(s, t, j);
      assert IndexOf(s, t) != -1;
    }
  }

  /** A string that starts with `t` finds `t` at index 0. */
  lemma IndexOfPrefix(t: string, rest: string)
    ensures IndexOf(t + rest, t) == 0
  {
    assert OccursAt(t + rest, t, 0);
  }

  /**
   * When the first character of `t` never occurs in `a`, the first occurrence
   * of `t` in `a + b` is the first occurrence in `b`, shifted by `|a|`.
   */
  lemma {:induction false} IndexOfSkips(a: string, b: string, t: string)
    requires t != [] && t[0] !in a
    ensures IndexOf(a + b, t) == if IndexOf(b, t) == -1 then -1 else |a| + IndexOf(b, t)
  {
    var s := a + b;
    forall j | 0 <= j < |a|
      ensures !OccursAt(s, t, j)
    {
      assert s[j] == a[j] != t[0];
    }
    forall j | 0 <= j
      ensures OccursAt(s, t, |a| + j) <==> OccursAt(b, t, j)
    {
      if |a| + j + |t| <= |s| {
        assert s[|a| + j..|a| + j + |t|] == b[j..j + |t|];
      }
    }
    var rb := IndexOf(b, t);
    if rb != -1 {
      assert OccursAt(s, t, |a| + rb);
    }
    var rs := IndexOf(s, t);
    if rs >= |a| {
      assert OccursAt(s, t, |a| + (rs - |a|)) <==> OccursAt(b, t, rs - |a|);
    }
  }

  /** A slice that ends at the first occurrence of `t` does not contain `t`. */
  lemma {:induction false} NoOccurrenceBeforeFirst(s: string, t: string, start: int)
    requires t != []
    requires 0 <= start <= IndexOf(s, t)
    ensures !Contains(s[start..IndexOf(s, t)], t)
  {
    var e := IndexOf(s, t);
    var r := s[start..e];
    forall j | 0 <= j
      ensures !OccursAt(r, t, j)
    {
      if j + |t| <= |r| {
        assert r[j..j + |t|] == s[start + j..start + j + |t|];
        assert !OccursAt(s, t, start + j);
      }
    }
    ContainsIffOccurs(r, t);
  }

  /**
   * In `p + x + m + rest`, `p` is found at 0 and, when the first character of
   * `m` occurs in neither `p` nor `x`, `m` is first found right after `x`.
   */
  lemma {:induction false} MarkersFound(p: string, x: string, m: string, rest: string)
    requires m != [] && m[0] !in p && m[0] !in x
    ensures IndexOf(p + x + m + rest, p) == 0
    ensures IndexOf(p + x + m + rest, m) == |p| + |x|
    ensures (p + x + m + rest)[|p|..|p| + |x|] == x
  {
    var s := p + x + m + rest;
    assert s == p + (x + m + rest);
    IndexOfPrefix(p, x + m + rest);
    assert m[0] !in p + x;
    assert s == (p + x) + (m + rest);
    IndexOfSkips(p + x, m + rest, m);
    IndexOfPrefix(m, rest);
  }
}
