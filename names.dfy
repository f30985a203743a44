/**
 * Qualified XML names: the user-facing `Name` and `Namespace` values and the
 * borrowed `UnsafeName` view that events carry. A `StringSource` is modelled
 * as the UTF-8 bytes it stands for.
 */
module Names {
  import opened Wrappers
  import opened StringPointers

  datatype Namespace = Namespace(uri: seq<Byte>)

  datatype Name = Name(ns: Option<Namespace>, localName: seq<Byte>)

  /** A name whose strings point into parser (or caller) memory. */
  datatype UnsafeName = UnsafeName(unsafeNSURIString: Option<UnsafeStringPointer>, unsafeLocalNameString: UnsafeStringPointer)

  predicate ReadableName(u: UnsafeName)
  {
    Readable(u.unsafeLocalNameString) &&
    (u.unsafeNSURIString.Some? ==> Readable(u.unsafeNSURIString.value))
  }

  function HasNS(u: UnsafeName): bool
  {
    u.unsafeNSURIString.Some?
  }

  /** `asName()`: the owned name with the same namespace URI and local name. */
  function AsName(u: UnsafeName): (n: Name)
    requires ReadableName(u)
    ensures n.ns.Some? <==> HasNS(u)
  {
    Name(
      if HasNS(u) then Some(Namespace(Bytes(u.unsafeNSURIString.value))) else None,
      Bytes(u.unsafeLocalNameString))
  }

  /** `withUnsafeName`: a borrowed view of an owned name. */
  function WithUnsafeName(n: Name): (u: UnsafeName)
    ensures ReadableName(u) && AsName(u) == n
  {
    UnsafeName(
      if n.ns.Some? then Some(WithString(n.ns.value.uri)) else None,
      WithString(n.localName))
  }

  /** `has(localName:)`: the namespace is not looked at. */
  function HasLocalName(u: UnsafeName, localName: seq<Byte>): (r: bool)
    requires ReadableName(u)
    ensures r <==> AsName(u).localName == localName
  {
    EqualsString(u.unsafeLocalNameString, localName)
  }

  /** `has(ns:)`: false for a name without a namespace. */
  function HasNamespace(u: UnsafeName, ns: Namespace): (r: bool)
    requires ReadableName(u)
    ensures r <==> AsName(u).ns == Some(ns)
  {
    if u.unsafeNSURIString.Some? then EqualsPointer(u.unsafeNSURIString.value, WithString(ns.uri))
    else false
  }

  /** `has(ns:andLocalName:)`. */
  function HasNamespaceAndLocalName(u: UnsafeName, ns: Namespace, localName: seq<Byte>): (r: bool)
    requires ReadableName(u)
    ensures r <==> AsName(u) == Name(Some(ns), localName)
  {
    HasLocalName(u, localName) && HasNamespace(u, ns)
  }

  /**
   * `equals(_: Name)`: a namespace on one side only never matches; when both
   * have one the URIs must agree; then the local names decide.
   */
  function Equals(u: UnsafeName, other: Name): (r: bool)
    requires ReadableName(u)
    ensures r <==> AsName(u) == other
  {
    if HasNS(u) != other.ns.Some? then false
    else
      var o := WithUnsafeName(other);
      if u.unsafeNSURIString.Some? && o.unsafeNSURIString.Some? &&
         !EqualsPointer(u.unsafeNSURIString.value, o.unsafeNSURIString.value)
      then false
      else EqualsPointer(u.unsafeLocalNameString, o.unsafeLocalNameString)
  }

  /** The namespace subscript `ns[localName]`. */
  function InNamespace(ns: Namespace, localName: seq<Byte>): Name
  {
    Name(Some(ns), localName)
  }

  /** `init(_ localName:)` and string literals: no namespace. */
  function LocalName(localName: seq<Byte>): Name
  {
    Name(None, localName)
  }

  /** `Namespace.==`: byte equality of the URIs. */
  function NamespaceEquals(a: Namespace, b: Namespace): (r: bool)
    ensures r <==> a == b
  {
    EqualsPointer(WithString(a.uri), WithString(b.uri))
  }

  /** `Namespace.equals(ns:)`. */
  function NamespaceEqualsURI(a: Namespace, uri: seq<Byte>): (r: bool)
    ensures r <==> a.uri == uri
  {
    EqualsString(WithString(a.uri), uri)
  }

  /** `Name.==`: through the borrowed view of the left-hand side. */
  function NameEquals(a: Name, b: Name): (r: bool)
    ensures r <==> a == b
  {
    Equals(WithUnsafeName(a), b)
  }

  /** `Name.has(ns:andLocalName:)`. */
  function NameHasNamespaceAndLocalName(n: Name, ns: Namespace, localName: seq<Byte>): (r: bool)
    ensures r <==> n.ns == Some(ns) && n.localName == localName
  {
    HasNamespaceAndLocalName(WithUnsafeName(n), ns, localName)
  }

  /** `Name.has(localName:)`. */
  function NameHasLocalName(n: Name, localName: seq<Byte>): (r: bool)
    ensures r <==> n.localName == localName
  {
    HasLocalName(WithUnsafeName(n), localName)
  }

  /** `Name.has(ns:)`. */
  function NameHasNamespace(n: Name, ns: Namespace): (r: bool)
    ensures r <==> n.ns == Some(ns)
  {
    HasNamespace(WithUnsafeName(n), ns)
  }

  /** A name written as a bare local name matches only names without a namespace. */
  lemma LocalNameMatchesOnlyUnqualified(u: UnsafeName, localName: seq<Byte>)
    requires ReadableName(u)
    ensures Equals(u, LocalName(localName)) <==> !HasNS(u) && HasLocalName(u, localName)
  {
  }

  /** A name built with the namespace subscript has that namespace and local name. */
  lemma SubscriptNameHasNamespaceAndLocalName(ns: Namespace, localName: seq<Byte>)
    ensures NameHasNamespaceAndLocalName(InNamespace(ns, localName), ns, localName)
    ensures NameEquals(InNamespace(ns, localName), InNamespace(ns, localName))
  {
  }
}
