# golang-di service discovery, modelled in Dafny

golang-di is a dependency-injection generator for Go. Its command parses the Go sources of a
package directory, walks the syntax tree with a visitor, and records every function whose doc
comment carries the `@Service` marker as a *service*. A service has three parts:

- an `Identifier` for the type it produces: package, pointer flag and type name;
- the name of the factory function;
- the identifiers of the factory's parameters, which are its dependencies.

Services are kept in a map keyed by the identifier's canonical text, `[*]package.Name`.

This project models that discovery step (cmd/golang-di/main.go) and proves properties of it:

- `outcomes.dfy`: the ways the visitor can panic, and the `Outcome` of a step that may panic.
- `model.dfy`:
  - the `Identifier` and `Service` values;
  - the canonical key, `Identifier.String`;
  - a reader that inverts it, which gives injectivity of the key on well-formed identifiers.
- `text.dfy`: the three Go string functions the tagging test uses, with the facts needed to reason about them:
  - `strings.Split` on newlines (`SplitLines`, with `Join` as its inverse);
  - `strings.Trim` with the cutset `"/ "`;
  - `strings.Contains`.
- `syntax.dfy`: the part of the Go syntax tree the visitor inspects. It covers node kinds, type expressions and function declarations.
- `extract.dfy`: `isService`, `parseIdentifier` and `parseParams`, and what a function declaration yields when visited.
- `registry.dfy`: the write `v.Services[key] = service` and a fold of such writes in scan order.
- `visitor.dfy`:
  - the visitor object with its two mutable fields;
  - its `Visit` method;
  - a walk over the demo package (demo/service.go).

Every Go panic on the paths modelled here is an explicit `Panic(reason)` result. These are:

- the nil doc dereference;
- `log.Panicf` for an unexported factory;
- reading the first result of a function whose result list is nil (no results declared) or empty (`()`);
- the failing `*ast.Ident` type assertion.

Behaviour of the code that the model keeps as it is:

- Discovery only records services. The order in which they would be constructed is not computed here.
- A second service under an existing key silently replaces the first. `Registry.CollisionOrderDecides` shows that the scan order then decides which one is kept.
- Type shapes are handled as follows:
  - a parameter that is neither `Name` nor `*Name` is dropped from the parameter list;
  - a `*X` parameter or result where X is not a plain name (`*pkg.T`, `**T`) panics at the type assertion;
  - a result that is not a `*` type at all (`T`, `pkg.T`, `[]T`) yields a non-pointer identifier with an empty name, whose key is `pkg.`.
- Only the first result type is read. Further results are ignored.
- A function declaration without any doc comment panics on the nil comment group.
- An unexported tagged function aborts the whole run.

## Model

| member | source | states |
|---|---|---|
| Model.Identifier.String | cmd/golang-di/main.go:29-41 | the key is an optional `*` for pointers, the package, one dot and the name, so its length is their sum |
| Model.StringShape | cmd/golang-di/main.go:29-41 | the key of a pointer identifier starts with `*`; after that optional `*` come the package, a dot and the name at known positions |
| Model.LeadingStarIffPointer | cmd/golang-di/main.go:29-41 | when the package contains no `.` or `*`, the key starts with `*` exactly when the identifier is a pointer |
| Model.ParseKey | cmd/golang-di/main.go:29-41 | any identifier read back from a key prints as that same key |
| Model.ParseKeyString | cmd/golang-di/main.go:29-41 | the key of an identifier whose package has no `.` or `*` reads back as exactly that identifier |
| Model.KeyInjective | cmd/golang-di/main.go:29-41 | two such identifiers with the same key are equal, so services producing distinct identifiers get distinct keys (two constructors of one type still share a key) |
| Model.PointerAndValueKeysDiffer | cmd/golang-di/main.go:29-41 | `*T` and `T` of one package never share a key |
| Model.KeyCollisions | cmd/golang-di/main.go:29-41 | without the package restriction the key is not injective (`a.b`+`c` against `a`+`b.c`, and `*p`+`A` against pointer `p`+`A`) |
| Text.SplitLines | cmd/golang-di/main.go:93 | splitting on newlines always yields at least one line |
| Text.SplitLinesJoin | cmd/golang-di/main.go:93 | the lines of a comment contain no newline and joined with newlines give the comment back |
| Text.TrimLeftShape | cmd/golang-di/main.go:94 | trimming the left removes a prefix made only of `/` and spaces, and what remains starts with neither |
| Text.TrimRightShape | cmd/golang-di/main.go:94 | trimming the right removes a suffix made only of `/` and spaces, and what remains ends with neither |
| Text.ContainsTrimLeft | cmd/golang-di/main.go:94-96 | left-trimming does not change whether a text not starting with `/` or space occurs |
| Text.ContainsTrimRight | cmd/golang-di/main.go:94-96 | right-trimming does not change whether a text not ending with `/` or space occurs |
| Text.ContainsTrim | cmd/golang-di/main.go:94-96 | trimming a line does not change whether the marker occurs in it |
| Text.ContainsJoin | cmd/golang-di/main.go:93-96 | a newline-free text occurs in newline-joined lines exactly when it occurs in one of the lines |
| Extract.ScanComment | cmd/golang-di/main.go:93-99 | the line scan reports true exactly when some trimmed line of the comment contains the marker |
| Extract.IsService | cmd/golang-di/main.go:91-103 | a missing doc panics; otherwise the result is true exactly when some trimmed line of some comment contains the marker |
| Extract.TaggedIffSomeCommentContainsMarker | cmd/golang-di/main.go:91-103 | a function is tagged exactly when one of its comments contains `@Service` anywhere, and an empty comment group is never tagged |
| Extract.ParseIdentifier | cmd/golang-di/main.go:105-119 | panics exactly on an empty result list or a `*` over a non-name; otherwise uses the current package, is a pointer exactly for a `*` result, takes the name from `*Name`, and has an empty name for any other shape |
| Extract.ParseIdentifierFirstResultOnly | cmd/golang-di/main.go:110 | only the first result type affects the identifier |
| Extract.PointerResultMatchesPointerParam | cmd/golang-di/main.go:110-115 | a `*T` result gives the same identifier as a `*T` parameter in the same package, which is how a dependency names its producer |
| Extract.ValueResultKey | cmd/golang-di/main.go:105-119 | a value result `T` is registered under `pkg.`, which is never the key of a `T` parameter |
| Extract.ParamIds | cmd/golang-di/main.go:121-150 | the parameter identifiers are at most as many as the fields and all carry the current package |
| Extract.ParseParams | cmd/golang-di/main.go:121-150 | panics exactly when some field is a `*` over a non-name; otherwise returns the identifiers of the `Name` and `*Name` fields in order |
| Extract.ParamIdsAppend | cmd/golang-di/main.go:124-145 | the identifiers of two field lists in sequence are the two lists' identifiers concatenated |
| Extract.ParamIdsAllRecognised | cmd/golang-di/main.go:124-145 | when every field is `Name` or `*Name` there is one identifier per field, in position, pointer exactly for `*` fields |
| Extract.ParamIdsCounts | cmd/golang-di/main.go:124-145 | one identifier per `Name` or `*Name` field, and as many pointer identifiers as `*Name` fields |
| Extract.ExtractService | cmd/golang-di/main.go:165-178 | no doc panics; an untagged function yields nothing; a tagged unexported one panics with its name; a tagged exported one panics without results or on a `*` over a non-name in its first result or any parameter, and otherwise yields the service with the parsed identifier, the function's name and the parameter identifiers |
| Extract.ExtractedServiceParams | cmd/golang-di/main.go:170-178 | a tagged exported `func F(...) *T` whose fields are all `Name` or `*Name` yields the service `*pkg.T` with one dependency per field in order |
| Registry.Register | cmd/golang-di/main.go:182 | the map write adds the key, stores the service under it and leaves every other entry unchanged |
| Registry.RegisterSize | cmd/golang-di/main.go:182 | the map grows by one for a new key and keeps its size when a key is replaced |
| Registry.RegisterAllSnoc | cmd/golang-di/main.go:182 | writing one more entry after a sequence of writes is the same as writing the longer sequence, so the fold is the writes in scan order |
| Registry.EntriesSnoc | cmd/golang-di/main.go:182 | one more service adds one more write, under that service's key |
| Registry.RegisterAllKeys | cmd/golang-di/main.go:182 | after a sequence of writes the keys are the old keys plus every written key |
| Registry.RegisterAllUntouched | cmd/golang-di/main.go:182 | an entry under a key never written keeps its old service |
| Registry.RegisterAllLastWins | cmd/golang-di/main.go:182 | an entry that no later write replaces is the value the map holds under its key |
| Registry.RegisterAllOrderIrrelevant | cmd/golang-di/main.go:182 | with pairwise distinct keys the final map does not depend on the order of the writes |
| Registry.CollisionOrderDecides | cmd/golang-di/main.go:182 | two different services under one key: the one written last is kept, so the two orders give different maps |
| Visitor.ServiceVisitor.constructor | cmd/golang-di/main.go:85-89 | a new visitor has an empty service map and no current package |
| Visitor.ServiceVisitor.Visit | cmd/golang-di/main.go:153-188 | a package node sets the current package; package, file and type-declaration nodes are descended into and other non-function nodes pruned, all without touching the map; a function declaration panics as its extraction does, or is descended into with its service written under its key; the map grows by at most one |
| Visitor.ServiceVisitor.VisitAll | cmd/golang-di/main.go:153-188 | visiting the nodes of one package in order, with no panic, keeps the current package and leaves the map equal to the old map with the services of the function declarations written in node order, so the registry lemmas apply to the visitor |
| Visitor.ExtractedSkip | cmd/golang-di/main.go:159-164 | a node that is not a function declaration adds no service |
| Visitor.ExtractedTake | cmd/golang-di/main.go:165-184 | a function declaration that yields a service appends that service to the ones before it |
| Visitor.DemoExtraction | demo/service.go:7-24 | the tagged `NewA() *A` and `NewB(a *A) *B` yield the services `*demo.A` without dependencies and `*demo.B` depending on `*demo.A` |
| Visitor.DemoKeys | demo/service.go:7-24 | the demo services' keys are `*demo.A` and `*demo.B` |
| Visitor.DemoExtracted | demo/service.go:1-24 | the nodes of the demo package cause no panic and yield exactly `*demo.A` then `*demo.B` |
| Visitor.WalkDemo | demo/service.go:1-24 | visiting the package node and then the demo's nodes with `VisitAll` registers exactly `*demo.A` and `*demo.B`, and B's dependency is the key A is registered under |

## Left out

- `main` (cmd/golang-di/main.go:53-75) is not modelled: it parses a directory, calls `ast.Walk` over a map of packages and prints. That is I/O plus Go's unordered map iteration over packages. Within one package, `Visitor.ServiceVisitor.VisitAll` ties a sequence of visits to the registry fold.
- `ast.Walk` is not modelled. `Visitor.ServiceVisitor.VisitAll` takes the nodes of one package, in the order the walk meets them, as its input. `Visitor.WalkDemo` lists those nodes for the demo package. It leaves out every visit on which `Visit` only returns nil: the file's name, comment groups, type specs, a declaration's name, type and body, and the closing `Visit(nil)` after each descended node. Each of those is an `OtherNode`, which `Visitor.ExtractedSkip` shows adds no service.
- `Generator`, `NewGenerator` and `Generate` (cmd/golang-di/main.go:190-242) are not part of this model.
- The `fmt.Printf` output in `parseParams` and `Visit` is not modelled. The `log.Panicf` message is reduced to the `NotExported(name)` reason.
- The `currentService` field of the visitor is never read or written by the code, so it is not modelled.
- Syntax.IsExported: only ASCII upper-case letters count as exported. Go's `unicode.IsUpper` on the first rune is not modelled for other scripts.
- Go strings are byte sequences. The model uses `seq<char>`, which agrees on ASCII input.
- A parameter field that names several parameters of one type (`a, b *A`) is one field in the model, as in the code, which appends one identifier per field.
- Receivers are not modelled. Methods are treated like plain functions, as in the code.
- Parenthesised, qualified (`pkg.T`), slice and other type shapes are all `OtherType`. The code distinguishes none of them.
- Visitor.ServiceVisitor.VisitAll: describes only walks inside one package (no package node among the nodes) that do not panic. A panicking visit is described by `Visit` alone.
- Visitor.DemoExtraction, Visitor.WalkDemo: the doc comments of the demo constructors are parameters that must contain the marker. The literal comment texts of demo/service.go are not spelled out.
