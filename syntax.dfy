/** The few shapes of Go syntax the visitor distinguishes. */
module Syntax {
  import opened Outcomes

  /** A type expression: a plain name, a pointer `*X`, or any other shape (selector, slice, map, func, ...). */
  datatype TypeExpr = Ident(name: string) | Star(elem: TypeExpr) | OtherType

  /**
   * A function declaration: its name, the texts of its doc comments (None when it has no doc
   * comment group), and one type per parameter field and per result field. A field that
   * declares several names (`a, b *A`) is one field.
   */
  datatype FuncDecl = FuncDecl(name: string, doc: Option<seq<string>>, params: seq<TypeExpr>, results: seq<TypeExpr>)

  /** The keyword of a general declaration. */
  datatype Token = TypeTok | ImportTok | ConstTok | VarTok

  /** The node kinds the visitor tells apart; every other node, and the nil node, is OtherNode. */
  datatype Node =
    | PackageNode(name: string)
    | FileNode
    | GenDeclNode(tok: Token)
    | FuncDeclNode(decl: FuncDecl)
    | OtherNode

  /** A Go name is exported when its first letter is upper case. */
  predicate IsExported(name: string) {
    |name| > 0 && 'A' <= name[0] <= 'Z'
  }
}
