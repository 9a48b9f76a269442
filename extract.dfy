/**
 * The service extractor: tag detection on doc comments, and the identifiers read off a
 * constructor's result and parameter types. The visitor's receiver is only consulted for its
 * current package, which is passed here as `pkg`.
 */
module Extract {
  import opened Outcomes
  import opened Model
  import opened Text
  import opened Syntax

  // ---------------------------------------------------------------- tag detection

  /** The literal that marks a service constructor. */
  const Marker: string := "@Service"

  /** A doc line marks a service when, trimmed of '/' and ' ' at both ends, it contains the marker. */
  predicate LineTagged(line: string) {
    Contains(Trim(line), Marker)
  }

  /** Some line of the comment text marks a service. */
  predicate CommentTagged(text: string) {
    exists j | 0 <= j < |SplitLines(text)| :: LineTagged(SplitLines(text)[j])
  }

  /** Some comment of the doc comment group marks a service. */
  predicate Tagged(comments: seq<string>) {
    exists i | 0 <= i < |comments| :: CommentTagged(comments[i])
  }

  /**
   * Scans the doc comments line by line and stops at the first tagged line. A declaration
   * without a doc comment group makes the scan dereference nil.
   */
  method IsService(doc: Option<seq<string>>) returns (r: Outcome<bool>)
    ensures doc.None? ==> r == Panic(NilDoc)
    ensures doc.Some? ==> r.Ok? && (r.value <==> Tagged(doc.value))
  {
    if doc.None? {
      return Panic(NilDoc);
    }
    var comments := doc.value;
    for i := 0 to |comments|
      invariant forall k :: 0 <= k < i ==> !CommentTagged(comments[k])
    {
      var tagged := ScanComment(comments[i]);
      if tagged {
        return Ok(true);
      }
    }
    return Ok(false);
  }

  /** The inner loop of the scan: the lines of one comment text, trimmed, searched for the marker. */
  method ScanComment(text: string) returns (tagged: bool)
    ensures tagged <==> CommentTagged(text)
  {
    var lines := SplitLines(text);
    for j := 0 to |lines|
      invariant forall k :: 0 <= k < j ==> !LineTagged(lines[k])
    {
      if LineTagged(lines[j]) {
        return true;
      }
    }
    return false;
  }

  /**
   * The marker contains no '/', space or newline, so splitting and trimming change nothing:
   * a doc comment group is tagged exactly when one of its comment texts contains the marker.
   */
  lemma TaggedIffSomeCommentContainsMarker(comments: seq<string>)
    ensures Tagged(comments) <==> exists i :: 0 <= i < |comments| && Contains(comments[i], Marker)
    ensures comments == [] ==> !Tagged(comments)
  {
    forall text | text in comments
      ensures CommentTagged(text) <==> Contains(text, Marker)
    {
      var lines := SplitLines(text);
      forall j | 0 <= j < |lines|
        ensures LineTagged(lines[j]) <==> Contains(lines[j], Marker)
      {
        ContainsTrim(lines[j], Marker);
      }
      SplitLinesJoin(text);
      ContainsJoin(lines, Marker);
    }
  }

  // ---------------------------------------------------------------- type shapes

  /** `*X` with X not a plain name: the type assertion to an identifier fails. */
  predicate Malformed(t: TypeExpr) {
    t.Star? && !t.elem.Ident?
  }

  /** The two shapes that yield an identifier: `Name` and `*Name`. */
  predicate Recognised(t: TypeExpr) {
    t.Ident? || (t.Star? && t.elem.Ident?)
  }

  /** The identifier a recognised parameter type stands for, in package `pkg`. */
  function ParamIdent(pkg: string, t: TypeExpr): (id: Identifier)
    requires Recognised(t)
  {
    if t.Star? then Identifier(pkg, true, t.elem.name) else Identifier(pkg, false, t.name)
  }

  /** The identifiers of the recognised parameter fields, in field order; other shapes are dropped. */
  function ParamIds(pkg: string, fields: seq<TypeExpr>): (ids: seq<Identifier>)
    ensures |ids| <= |fields|
    ensures forall k :: 0 <= k < |ids| ==> ids[k].package == pkg
    decreases |fields|
  {
    if |fields| == 0 then []
    else
      var last := fields[|fields| - 1];
      ParamIds(pkg, fields[..|fields| - 1]) + (if Recognised(last) then [ParamIdent(pkg, last)] else [])
  }

  /**
   * Reads the produced identifier off the first result type. Only `*Name` yields a name; every
   * other shape leaves the name empty and the identifier a value. A missing result list or a
   * `*X` with X not a plain name panics.
   */
  function ParseIdentifier(pkg: string, results: seq<TypeExpr>): (r: Outcome<Identifier>)
    ensures r.Panic? <==> |results| == 0 || Malformed(results[0])
    ensures r.Panic? ==> r.reason == (if |results| == 0 then NoResults else StarOfNonIdent)
    ensures r.Ok? ==> r.value.package == pkg && (r.value.isPointer <==> results[0].Star?)
    ensures r.Ok? && r.value.isPointer ==> r.value.name == results[0].elem.name
    ensures r.Ok? && !r.value.isPointer ==> r.value.name == ""
  {
    if |results| == 0 then Panic(NoResults)
    else match results[0]
      case Star(Ident(n)) => Ok(Identifier(pkg, true, n))
      case Star(_) => Panic(StarOfNonIdent)
      case _ => Ok(Identifier(pkg, false, ""))
  }

  /** Maps each parameter field to an identifier, in order, and panics at the first malformed pointer. */
  method ParseParams(pkg: string, fields: seq<TypeExpr>) returns (r: Outcome<seq<Identifier>>)
    ensures r.Panic? <==> exists i :: 0 <= i < |fields| && Malformed(fields[i])
    ensures r.Panic? ==> r.reason == StarOfNonIdent
    ensures r.Ok? ==> r.value == ParamIds(pkg, fields)
  {
    var params: seq<Identifier> := [];
    for i := 0 to |fields|
      invariant params == ParamIds(pkg, fields[..i])
      invariant forall k :: 0 <= k < i ==> !Malformed(fields[k])
    {
      assert fields[..i + 1][..i] == fields[..i];
      match fields[i]
      case Star(Ident(n)) =>
        params := params + [Identifier(pkg, true, n)];
      case Star(_) =>
        return Panic(StarOfNonIdent);
      case Ident(n) =>
        params := params + [Identifier(pkg, false, n)];
      case OtherType =>
    }
    assert fields[..|fields|] == fields;
    return Ok(params);
  }

  /** The parameter identifiers of two field lists put one after the other. */
  lemma {:induction false} ParamIdsAppend(pkg: string, a: seq<TypeExpr>, b: seq<TypeExpr>)
    ensures ParamIds(pkg, a + b) == ParamIds(pkg, a) + ParamIds(pkg, b)
    decreases |b|
  {
    if |b| == 0 {
      assert a + b == a;
    } else {
      var init := b[..|b| - 1];
      assert (a + b)[..|a + b| - 1] == a + init;
      assert (a + b)[|a + b| - 1] == b[|b| - 1];
      ParamIdsAppend(pkg, a, init);
    }
  }

  /** When every field is `Name` or `*Name`, there is one identifier per field, in field order, a pointer exactly for `*Name`. */
  lemma {:induction false} ParamIdsAllRecognised(pkg: string, fields: seq<TypeExpr>)
    requires forall i :: 0 <= i < |fields| ==> Recognised(fields[i])
    ensures |ParamIds(pkg, fields)| == |fields|
    ensures forall i :: 0 <= i < |fields| ==> ParamIds(pkg, fields)[i] == ParamIdent(pkg, fields[i])
    ensures forall i :: 0 <= i < |fields| ==> (ParamIds(pkg, fields)[i].isPointer <==> fields[i].Star?)
    decreases |fields|
  {
    if |fields| > 0 {
      ParamIdsAllRecognised(pkg, fields[..|fields| - 1]);
    }
  }

  /** The number of elements of `s` that satisfy `p`. */
  function Count<T>(s: seq<T>, p: T -> bool): (n: nat)
    ensures n <= |s|
    decreases |s|
  {
    if |s| == 0 then 0 else Count(s[..|s| - 1], p) + (if p(s[|s| - 1]) then 1 else 0)
  }

  /** One identifier per recognised field, and a pointer identifier per `*Name` field. */
  lemma {:induction false} ParamIdsCounts(pkg: string, fields: seq<TypeExpr>)
    ensures |ParamIds(pkg, fields)| == Count(fields, Recognised)
    ensures Count(ParamIds(pkg, fields), (id: Identifier) => id.isPointer)
         == Count(fields, (t: TypeExpr) => t.Star? && t.elem.Ident?)
    decreases |fields|
  {
    if |fields| > 0 {
      var init := fields[..|fields| - 1];
      ParamIdsCounts(pkg, init);
      var ids := ParamIds(pkg, fields);
      var head := ParamIds(pkg, init);
      if Recognised(fields[|fields| - 1]) {
        assert ids[..|ids| - 1] == head;
      } else {
        assert ids == head;
      }
    }
  }

  /** Only the first result type matters. */
  lemma ParseIdentifierFirstResultOnly(pkg: string, results: seq<TypeExpr>)
    requires |results| > 0
    ensures ParseIdentifier(pkg, results) == ParseIdentifier(pkg, results[..1])
  {
  }

  /**
   * A constructor producing `*T` is registered under the same key as a `*T` parameter of
   * another constructor in the same package; this is what ties a dependency to its producer.
   */
  lemma PointerResultMatchesPointerParam(pkg: string, results: seq<TypeExpr>, n: string)
    requires |results| > 0 && results[0] == Star(Ident(n))
    ensures ParseIdentifier(pkg, results).Ok?
    ensures ParseIdentifier(pkg, results).value == ParamIds(pkg, [Star(Ident(n))])[0]
  {
  }

  /**
   * A constructor producing a value `T` is registered under the key `pkg.` with an empty name:
   * never the key of a `T` parameter, and the same for every such constructor of the package.
   */
  lemma ValueResultKey(pkg: string, results: seq<TypeExpr>, n: string)
    requires |results| > 0 && results[0] == Ident(n) && n != ""
    ensures ParseIdentifier(pkg, results).Ok?
    ensures ParseIdentifier(pkg, results).value.String() == pkg + "."
    ensures ParseIdentifier(pkg, results).value.String() != ParamIds(pkg, [Ident(n)])[0].String()
  {
  }

  // ---------------------------------------------------------------- one declaration

  /**
   * What visiting a function declaration yields: a panic, no service (the declaration is not
   * tagged), or the service built from it.
   */
  function ExtractService(pkg: string, d: FuncDecl): (r: Outcome<Option<Service>>)
    ensures d.doc.None? ==> r == Panic(NilDoc)
    ensures d.doc.Some? && !Tagged(d.doc.value) ==> r == Ok(None)
    ensures d.doc.Some? && Tagged(d.doc.value) && !IsExported(d.name) ==> r == Panic(NotExported(d.name))
    ensures d.doc.Some? && Tagged(d.doc.value) && IsExported(d.name) && |d.results| == 0 ==> r == Panic(NoResults)
    ensures d.doc.Some? && Tagged(d.doc.value) && IsExported(d.name) && |d.results| > 0 ==>
      && (Malformed(d.results[0]) ==> r == Panic(StarOfNonIdent))
      && ((exists i :: 0 <= i < |d.params| && Malformed(d.params[i])) ==> r == Panic(StarOfNonIdent))
      && (!Malformed(d.results[0]) && (forall i :: 0 <= i < |d.params| ==> !Malformed(d.params[i])) ==>
            r == Ok(Some(Service(ParseIdentifier(pkg, d.results).value, d.name, ParamIds(pkg, d.params)))))
    ensures r.Ok? && r.value.Some? ==>
      && d.doc.Some? && Tagged(d.doc.value) && IsExported(d.name)
      && r.value.value.factoryName == d.name
      && Ok(r.value.value.identifier) == ParseIdentifier(pkg, d.results)
      && r.value.value.params == ParamIds(pkg, d.params)
  {
    if d.doc.None? then Panic(NilDoc)
    else if !Tagged(d.doc.value) then Ok(None)
    else if !IsExported(d.name) then Panic(NotExported(d.name))
    else match ParseIdentifier(pkg, d.results)
      case Panic(why) => Panic(why)
      case Ok(id) =>
        if exists i :: 0 <= i < |d.params| && Malformed(d.params[i]) then Panic(StarOfNonIdent)
        else Ok(Some(Service(id, d.name, ParamIds(pkg, d.params))))
  }

  /**
   * A tagged, exported constructor with a `*T` result and N parameters, each `Name` or `*Name`,
   * yields a service with N parameter identifiers in declaration order.
   */
  lemma ExtractedServiceParams(pkg: string, d: FuncDecl)
    requires d.doc.Some? && Tagged(d.doc.value) && IsExported(d.name)
    requires |d.results| > 0 && d.results[0].Star? && d.results[0].elem.Ident?
    requires forall i :: 0 <= i < |d.params| ==> Recognised(d.params[i])
    ensures ExtractService(pkg, d).Ok? && ExtractService(pkg, d).value.Some?
    ensures var s := ExtractService(pkg, d).value.value;
      && s.identifier == Identifier(pkg, true, d.results[0].elem.name)
      && |s.params| == |d.params|
      && forall i :: 0 <= i < |d.params| ==> s.params[i] == ParamIdent(pkg, d.params[i])
  {
    assert !exists i :: 0 <= i < |d.params| && Malformed(d.params[i]);
    assert ParseIdentifier(pkg, d.results) == Ok(Identifier(pkg, true, d.results[0].elem.name));
    assert ExtractService(pkg, d) == Ok(Some(Service(Identifier(pkg, true, d.results[0].elem.name), d.name, ParamIds(pkg, d.params))));
    ParamIdsAllRecognised(pkg, d.params);
  }
}
