/** The syntax-tree visitor that registers every tagged constructor it meets. */
module Visitor {
  import opened Outcomes
  import opened Model
  import opened Syntax
  import opened Text
  import opened Extract
  import opened Registry

  /** What the walk does after a node: visit its children (the visitor is returned) or skip them (nil is returned). */
  datatype Next = Descend | Prune

  class ServiceVisitor {
    /** The name of the package whose nodes are being visited. */
    var currentPackage: string
    /** The services found so far, under their canonical keys. */
    var services: map<string, Service>

    /** A visitor with no current package and no services. */
    constructor ()
      ensures currentPackage == "" && services == map[]
    {
      currentPackage := "";
      services := map[];
    }

    /**
     * Visits one node. A package node sets the current package; package, file and type
     * declaration nodes are descended into; a function declaration is descended into after
     * its service, if it is one, is written into the map; every other node is pruned.
     */
    method Visit(n: Node) returns (r: Outcome<Next>)
      modifies this
      ensures n.PackageNode? ==> currentPackage == n.name
      ensures !n.PackageNode? ==> currentPackage == old(currentPackage)
      ensures !n.FuncDeclNode? ==> services == old(services)
      ensures !n.FuncDeclNode? ==>
        r == Ok(if n.PackageNode? || n.FileNode? || n == GenDeclNode(TypeTok) then Descend else Prune)
      ensures n.FuncDeclNode? ==>
        match ExtractService(old(currentPackage), n.decl)
        case Panic(why) => r == Panic(why) && services == old(services)
        case Ok(None) => r == Ok(Descend) && services == old(services)
        case Ok(Some(s)) => r == Ok(Descend) && services == Register(old(services), s.identifier.String(), s)
      ensures |services| <= |old(services)| + 1
    {
      match n {
      case PackageNode(name) =>
        currentPackage := name;
        return Ok(Descend);
      case FileNode =>
        return Ok(Descend);
      case GenDeclNode(tok) =>
        if tok == TypeTok {
          return Ok(Descend);
        }
      case FuncDeclNode(d) =>
        var tagged := IsService(d.doc);
        if tagged.Panic? {
          return Panic(tagged.reason);
        }
        if !tagged.value {
          return Ok(Descend);
        }
        if !IsExported(d.name) {
          return Panic(NotExported(d.name));
        }
        var id := ParseIdentifier(currentPackage, d.results);
        if id.Panic? {
          return Panic(id.reason);
        }
        var params := ParseParams(currentPackage, d.params);
        if params.Panic? {
          return Panic(params.reason);
        }
        var service := Service(id.value, d.name, params.value);
        RegisterSize(services, service.identifier.String(), service);
        services := Register(services, service.identifier.String(), service);
        return Ok(Descend);
      case OtherNode =>
      }
      return Ok(Prune);
    }

    /**
     * Visits the nodes of the current package one after another, as the walk meets them. When no
     * function declaration among them panics, the map ends as the old map with the services the
     * declarations yield written in order, each under its key.
     */
    method VisitAll(nodes: seq<Node>)
      modifies this
      requires forall i :: 0 <= i < |nodes| ==> !nodes[i].PackageNode?
      requires NoPanic(currentPackage, nodes)
      ensures currentPackage == old(currentPackage)
      ensures services == RegisterAll(old(services), Entries(Extracted(currentPackage, nodes)))
    {
      for i := 0 to |nodes|
        invariant currentPackage == old(currentPackage)
        invariant services == RegisterAll(old(services), Entries(Extracted(currentPackage, nodes[..i])))
      {
        var before := services;
        assert nodes[..i + 1][..i] == nodes[..i];
        var r := Visit(nodes[i]);
        if nodes[i].FuncDeclNode? && ExtractService(currentPackage, nodes[i].decl).value.Some? {
          var s := ExtractService(currentPackage, nodes[i].decl).value.value;
          assert Extracted(currentPackage, nodes[..i + 1]) == Extracted(currentPackage, nodes[..i]) + [s];
          EntriesSnoc(Extracted(currentPackage, nodes[..i]), s);
          RegisterAllSnoc(old(services), Entries(Extracted(currentPackage, nodes[..i])), s.identifier.String(), s);
        } else {
          assert Extracted(currentPackage, nodes[..i + 1]) == Extracted(currentPackage, nodes[..i]);
        }
      }
      assert nodes[..|nodes|] == nodes;
    }
  }

  /** No function declaration among `nodes` panics when visited in package `pkg`. */
  predicate NoPanic(pkg: string, nodes: seq<Node>) {
    forall i :: 0 <= i < |nodes| && nodes[i].FuncDeclNode? ==> ExtractService(pkg, nodes[i].decl).Ok?
  }

  /** A node that is not a function declaration adds no service. */
  lemma ExtractedSkip(pkg: string, nodes: seq<Node>, n: Node)
    requires NoPanic(pkg, nodes) && !n.FuncDeclNode?
    ensures NoPanic(pkg, nodes + [n])
    ensures Extracted(pkg, nodes + [n]) == Extracted(pkg, nodes)
  {
  }

  /** A function declaration that yields service `s` adds `s` after the services before it. */
  lemma ExtractedTake(pkg: string, nodes: seq<Node>, d: FuncDecl, s: Service)
    requires NoPanic(pkg, nodes) && ExtractService(pkg, d) == Ok(Some(s))
    ensures NoPanic(pkg, nodes + [FuncDeclNode(d)])
    ensures Extracted(pkg, nodes + [FuncDeclNode(d)]) == Extracted(pkg, nodes) + [s]
  {
  }

  /** The services the function declarations among `nodes` yield in package `pkg`, in node order. */
  function Extracted(pkg: string, nodes: seq<Node>): (ss: seq<Service>)
    requires NoPanic(pkg, nodes)
    ensures |ss| <= |nodes|
    decreases |nodes|
  {
    if |nodes| == 0 then []
    else
      var init, last := nodes[..|nodes| - 1], nodes[|nodes| - 1];
      assert NoPanic(pkg, init) by {
        assert forall i :: 0 <= i < |init| ==> init[i] == nodes[i];
      }
      Extracted(pkg, init) + (if last.FuncDeclNode? && ExtractService(pkg, last.decl).value.Some?
                              then [ExtractService(pkg, last.decl).value.value] else [])
  }

  /**
   * The two constructors of the demo package, `NewA() *A` and `NewB(a *A) *B`, with the given
   * doc comments, and the services they stand for.
   */
  function DemoNewA(doc: seq<string>): FuncDecl {
    FuncDecl("NewA", Some(doc), [], [Star(Ident("A"))])
  }

  function DemoNewB(doc: seq<string>): FuncDecl {
    FuncDecl("NewB", Some(doc), [Star(Ident("A"))], [Star(Ident("B"))])
  }

  const DemoA := Service(Identifier("demo", true, "A"), "NewA", [])
  const DemoB := Service(Identifier("demo", true, "B"), "NewB", [Identifier("demo", true, "A")])

  /** Some comment text of the group contains the marker. */
  predicate HasMarker(doc: seq<string>) {
    exists i | 0 <= i < |doc| :: Contains(doc[i], Marker)
  }

  /** Tagged, exported and well shaped, each demo constructor yields its service. */
  lemma DemoExtraction(docA: seq<string>, docB: seq<string>)
    requires HasMarker(docA) && HasMarker(docB)
    ensures ExtractService("demo", DemoNewA(docA)) == Ok(Some(DemoA))
    ensures ExtractService("demo", DemoNewB(docB)) == Ok(Some(DemoB))
  {
    TaggedIffSomeCommentContainsMarker(docA);
    TaggedIffSomeCommentContainsMarker(docB);
    assert IsExported("NewA") && IsExported("NewB");
    assert ParamIds("demo", [Star(Ident("A"))]) == [Identifier("demo", true, "A")] by {
      assert [Star(Ident("A"))][..0] == [];
    }
  }

  /** The keys of the demo services. */
  lemma DemoKeys()
    ensures DemoA.identifier.String() == "*demo.A" && DemoB.identifier.String() == "*demo.B"
  {
  }

  /**
   * The nodes of the demo package after the package node on which `Visit` does more than return
   * nil, in the order the walk meets them. The other visits (names, comment groups, type specs,
   * function types and bodies, and the closing nil visits) are `OtherNode`s and add no service.
   */
  function DemoNodes(docA: seq<string>, docB: seq<string>): (ns: seq<Node>) {
    [FileNode, GenDeclNode(TypeTok), FuncDeclNode(DemoNewA(docA)), GenDeclNode(TypeTok), FuncDeclNode(DemoNewB(docB))]
  }

  /** In the demo package the walk meets no panic and yields the two demo services, A first. */
  lemma DemoExtracted(docA: seq<string>, docB: seq<string>)
    requires HasMarker(docA) && HasMarker(docB)
    ensures NoPanic("demo", DemoNodes(docA, docB))
    ensures Extracted("demo", DemoNodes(docA, docB)) == [DemoA, DemoB]
  {
    DemoExtraction(docA, docB);
    var ns1: seq<Node> := [FileNode];
    ExtractedSkip("demo", [], FileNode);
    assert [] + [FileNode] == ns1;
    ExtractedSkip("demo", ns1, GenDeclNode(TypeTok));
    var ns2 := ns1 + [GenDeclNode(TypeTok)];
    ExtractedTake("demo", ns2, DemoNewA(docA), DemoA);
    var ns3 := ns2 + [FuncDeclNode(DemoNewA(docA))];
    ExtractedSkip("demo", ns3, GenDeclNode(TypeTok));
    var ns4 := ns3 + [GenDeclNode(TypeTok)];
    ExtractedTake("demo", ns4, DemoNewB(docB), DemoB);
    assert ns4 + [FuncDeclNode(DemoNewB(docB))] == DemoNodes(docA, docB);
  }

  /**
   * The walk over the demo package: the package node, then its file, a type declaration before
   * each constructor, and the two constructors, whose doc comments carry the marker. Both are
   * registered under pointer keys, and B's parameter carries the key under which A was registered.
   */
  method WalkDemo(docA: seq<string>, docB: seq<string>) returns (services: map<string, Service>)
    requires HasMarker(docA) && HasMarker(docB)
    ensures services == map["*demo.A" := DemoA, "*demo.B" := DemoB]
    ensures services["*demo.A"].identifier.String() == services["*demo.B"].params[0].String()
  {
    DemoExtracted(docA, docB);
    DemoKeys();
    var v := new ServiceVisitor();
    var r := v.Visit(PackageNode("demo"));
    v.VisitAll(DemoNodes(docA, docB));
    services := v.services;
    assert Entries([DemoA, DemoB]) == [("*demo.A", DemoA), ("*demo.B", DemoB)];
    var wa: seq<(string, Service)> := [("*demo.A", DemoA)];
    RegisterAllSnoc(map[], [], "*demo.A", DemoA);
    RegisterAllSnoc(map[], wa, "*demo.B", DemoB);
    assert [] + wa == wa && wa + [("*demo.B", DemoB)] == Entries([DemoA, DemoB]);
  }
}
