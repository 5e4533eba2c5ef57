/**
 * The parser for the proxy fragment of an interface-typed feature
 * (`attributeInterfaceCollection` and `attributeInterface`). The fragment
 * names a generic container and its element type, e.g.
 * `java.util.List[project^id=Foo]$uml.Interface` stands for `java.util.List<Foo>`.
 */
module TypeClassifier {
  import opened Wrappers
  import opened JavaString

  const ListToken: string := "java.util.List"
  const ArrayListToken: string := "java.util.ArrayList"
  const IdMarker: string := "[project^id="
  const InterfaceMarker: string := "]$uml.Interface"

  /** The container token the parser settles on: `java.util.List` first, else `java.util.ArrayList`, else none (""). */
  function ContainerToken(s: string): (r: string)
    ensures Contains(s, ListToken) ==> r == ListToken
    ensures !Contains(s, ListToken) && Contains(s, ArrayListToken) ==> r == ArrayListToken
    ensures r == "" <==> !Contains(s, ListToken) && !Contains(s, ArrayListToken)
    ensures r != "" ==> Contains(s, r)
  {
    if Contains(s, ListToken) then ListToken
    else if Contains(s, ArrayListToken) then ArrayListToken
    else ""
  }

  /** `attributeInterfaceCollection`: the fragment is non-null, non-empty and names one of the two containers. */
  function AttributeInterfaceCollection(fragment: Option<string>): (r: bool)
    ensures r <==> fragment.Some? && fragment.value != "" && ContainerToken(fragment.value) != ""
  {
    fragment.Some? && fragment.value != ""
    && (Contains(fragment.value, ListToken) || Contains(fragment.value, ArrayListToken))
  }

  /**
   * Where the element type name starts: just after the first `<token>[project^id=`.
   * When that text is missing, `indexOf` gives -1 and the offset is one short of
   * the length of the prefix searched for, as in the source.
   */
  function ElementStart(s: string): (r: int)
    ensures r >= |IdMarker| - 1
  {
    var prefix := ContainerToken(s) + IdMarker;
    IndexOf(s, prefix) + |prefix|
  }

  /** The two `substring` calls of `attributeInterface` do not throw. */
  predicate FragmentReadable(fragment: Option<string>) {
    fragment.None? || fragment.value == ""
    || ElementStart(fragment.value) <= IndexOf(fragment.value, InterfaceMarker)
  }

  /** The element type name: from `ElementStart` up to the first `]$uml.Interface`. */
  function ElementName(s: string): (r: string)
    requires ElementStart(s) <= IndexOf(s, InterfaceMarker)
    ensures |r| < |s|
  {
    s[ElementStart(s)..IndexOf(s, InterfaceMarker)]
  }

  /**
   * `attributeInterface`: `Token<Element>` for a container fragment, the bare
   * element name otherwise, `""` for a null or empty fragment. It takes its
   * container branch exactly when `attributeInterfaceCollection` holds.
   */
  function AttributeInterface(fragment: Option<string>): (r: string)
    requires FragmentReadable(fragment)
    ensures fragment.None? || fragment.value == "" ==> r == ""
    ensures AttributeInterfaceCollection(fragment) ==>
      r == ContainerToken(fragment.value) + "<" + ElementName(fragment.value) + ">"
    ensures !AttributeInterfaceCollection(fragment) && fragment.Some? && fragment.value != "" ==>
      r == ElementName(fragment.value)
  {
    if fragment.None? || fragment.value == "" then ""
    else
      var s := fragment.value;
      var token := ContainerToken(s);
      if token != "" then token + "<" + ElementName(s) + ">"
      else ElementName(s)
  }

  /** The element name never contains the closing marker: it stops at its first occurrence. */
  lemma ElementNameHasNoMarker(s: string)
    requires ElementStart(s) <= IndexOf(s, InterfaceMarker)
    ensures !Contains(ElementName(s), InterfaceMarker)
  {
    NoOccurrenceBeforeFirst(s, InterfaceMarker, ElementStart(s));
  }

  /** The container type recognised in a fragment is the token it contains. */
  lemma {:induction false} ContainerTokenOf(token: string, rest: string)
    requires token == ListToken || (token == ArrayListToken && !Contains(token + rest, ListToken))
    ensures ContainerToken(token + rest) == token
  {
    IndexOfPrefix(token, rest);
  }

  /**
   * Round trip for a container fragment: encoding a container and an element
   * name (free of `]`) as `<token>[project^id=<name>]$uml.Interface...` parses
   * back to `<token><<name>>`, marked as a collection.
   */
  lemma {:induction false} ContainerFragmentRoundTrip(token: string, name: string, rest: string)
    requires ']' !in name
    requires token == ListToken
      || (token == ArrayListToken && !Contains(token + IdMarker + name + InterfaceMarker + rest, ListToken))
    ensures var f := token + IdMarker + name + InterfaceMarker + rest;
      AttributeInterfaceCollection(Some(f)) && FragmentReadable(Some(f))
      && AttributeInterface(Some(f)) == token + "<" + name + ">"
  {
    var f := token + IdMarker + name + InterfaceMarker + rest;
    assert f == token + (IdMarker + name + InterfaceMarker + rest);
    ContainerTokenOf(token, IdMarker + name + InterfaceMarker + rest);
    assert ContainerToken(f) == token;
    assert ']' !in token + IdMarker;
    MarkersFound(token + IdMarker, name, InterfaceMarker, rest);
    assert f == (token + IdMarker) + name + InterfaceMarker + rest;
    assert ElementStart(f) == |token + IdMarker|;
    assert IndexOf(f, InterfaceMarker) == |token + IdMarker| + |name|;
    assert ElementName(f) == name;
  }

  /**
   * Round trip for a plain fragment: `[project^id=<name>]$uml.Interface...`
   * without a container token parses back to `<name>`, not a collection.
   */
  lemma {:induction false} PlainFragmentRoundTrip(name: string, rest: string)
    requires ']' !in name
    requires !Contains(IdMarker + name + InterfaceMarker + rest, ListToken)
    requires !Contains(IdMarker + name + InterfaceMarker + rest, ArrayListToken)
    ensures var f := IdMarker + name + InterfaceMarker + rest;
      !AttributeInterfaceCollection(Some(f)) && FragmentReadable(Some(f))
      && AttributeInterface(Some(f)) == name
  {
    var f := IdMarker + name + InterfaceMarker + rest;
    assert ContainerToken(f) == "";
    assert "" + IdMarker == IdMarker;
    assert ']' !in IdMarker;
    MarkersFound(IdMarker, name, InterfaceMarker, rest);
  }
}
