/** Optional values and the outcome of a step that may abort the generator. */
module Outcomes {

  datatype Option<+T> = None | Some(value: T)

  /** Why the generator process aborts. Each reason is a Go panic of the original program. */
  datatype PanicReason =
    | NilDoc                      // a function declaration without a doc comment (nil pointer dereference)
    | NotExported(name: string)   // a tagged constructor whose name is not exported (log.Panicf)
    | NoResults                   // a tagged constructor without result types (nil or empty result list)
    | StarOfNonIdent              // `*X` where X is not a plain identifier (failed type assertion)

  /** Either a value, or the panic that aborts the run. */
  datatype Outcome<+T> = Ok(value: T) | Panic(reason: PanicReason)
}
