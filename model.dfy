/** The generator's data model: type identifiers, their canonical key, and discovered services. */
module Model {
  import opened Outcomes

  /** A reference to a type: the package it belongs to, whether it is taken by pointer, and its name. */
  datatype Identifier = Identifier(package: string, isPointer: bool, name: string)
  {
    /** The canonical key of the identifier: an optional "*", the package, ".", the name. */
    function String(): (s: string)
      ensures |s| == (if isPointer then 1 else 0) + |package| + 1 + |name|
    {
      (if isPointer then "*" else "") + package + "." + name
    }
  }

  /** A constructor tagged as a service: what it produces, its own name, and what it takes. */
  datatype Service = Service(identifier: Identifier, factoryName: string, params: seq<Identifier>)

  /** Identifiers whose key can be read back: the package contains neither '.' nor '*'. */
  predicate WellFormed(id: Identifier) {
    '.' !in id.package && '*' !in id.package
  }

  /** The position of the first occurrence of `c` in `s`, if any. */
  function IndexOf(s: string, c: char): (r: Option<nat>)
    ensures r.Some? ==> r.value < |s| && s[r.value] == c && c !in s[..r.value]
    ensures r.None? ==> c !in s
  {
    if |s| == 0 then None
    else if s[0] == c then Some(0)
    else match IndexOf(s[1..], c)
      case None => None
      case Some(i) => assert s[1..][..i] == s[1..i + 1]; Some(i + 1)
  }

  /** Reads a key back: an optional "*", then everything up to the first '.', then the rest. */
  function ParseKey(s: string): (r: Option<Identifier>)
    ensures r.Some? ==> r.value.String() == s
  {
    var ptr := |s| > 0 && s[0] == '*';
    var rest := if ptr then s[1..] else s;
    match IndexOf(rest, '.')
    case None => None
    case Some(i) =>
      var id := Identifier(rest[..i], ptr, rest[i + 1..]);
      assert rest == rest[..i] + "." + rest[i + 1..];
      assert ptr ==> s == "*" + rest;
      Some(id)
  }

  /** The key of an identifier starts with "*" when it is a pointer, then spells the package, a dot and the name. */
  lemma StringShape(id: Identifier)
    ensures var s, off := id.String(), if id.isPointer then 1 else 0;
      && (id.isPointer ==> s[0] == '*')
      && s[off..off + |id.package|] == id.package
      && s[off + |id.package|] == '.'
      && s[off + |id.package| + 1..] == id.name
  {
  }

  /** Reading the key of a well-formed identifier gives the identifier back. */
  lemma {:induction false} ParseKeyString(id: Identifier)
    requires WellFormed(id)
    ensures ParseKey(id.String()) == Some(id)
  {
    var s := id.String();
    var rest := id.package + "." + id.name;
    if id.isPointer {
      assert s == "*" + rest;
      assert s[1..] == rest;
    } else {
      assert s == rest;
      assert |id.package| > 0 ==> s[0] == id.package[0];
      assert |id.package| == 0 ==> s[0] == '.';
    }
    var k := |id.package|;
    assert rest[k] == '.';
    assert rest[..k] == id.package;
    assert rest[k + 1..] == id.name;
  }

  /** For a well-formed identifier the key starts with "*" exactly when the identifier is a pointer. */
  lemma LeadingStarIffPointer(id: Identifier)
    requires WellFormed(id)
    ensures id.String()[0] == '*' <==> id.isPointer
  {
  }

  /** Two well-formed identifiers with the same key are the same identifier. */
  lemma KeyInjective(a: Identifier, b: Identifier)
    requires WellFormed(a) && WellFormed(b)
    requires a.String() == b.String()
    ensures a == b
  {
    ParseKeyString(a);
    ParseKeyString(b);
  }

  /** The pointer and the value identifier of the same type have different keys. */
  lemma PointerAndValueKeysDiffer(package: string, name: string)
    ensures Identifier(package, true, name).String() != Identifier(package, false, name).String()
  {
  }

  /** Without well-formedness, distinct identifiers can share a key. */
  lemma KeyCollisions()
    ensures Identifier("a.b", false, "c").String() == Identifier("a", false, "b.c").String()
    ensures Identifier("*p", false, "A").String() == Identifier("p", true, "A").String()
  {
  }
}
