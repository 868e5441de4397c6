/** JSON values as decoded by Go's encoding/json into interface{}, and the
    failure-carrying wrappers shared by the resolver's modules. */
module Json {

  /** A decoded JSON value. Numbers are kept as opaque tokens: nothing in the
      resolver inspects or computes with them. */
  datatype Json =
    | JNull
    | JBool(b: bool)
    | JNum(token: string)
    | JStr(str: string)
    | JArr(items: seq<Json>)
    | JObj(fields: map<string, Json>)

  /** A configuration document: a JSON object at top level (map[string]interface{}). */
  type Document = map<string, Json>

  /** The key that declares a document's parents. */
  const ExtendsKey: string := "extends"

  datatype Option<+T> = None | Some(value: T)

  /** What a Fetcher may fail with. UnknownReference is the not-found error
      (ErrUnknownReference); anything a transport could raise is opaque. */
  datatype FetchError = UnknownReference | TransportFailure(detail: string)

  /** Every way a resolution can fail. */
  datatype ResolveError =
    | InvalidJson                     // the top-level text did not decode
    | NilFetcher                      // no Fetcher was supplied
    | BadExtendsShape                 // extends is neither a string nor an array of strings
    | Circular(reference: string)     // ErrCircularReference carrying the reference
    | Unsupported(reference: string)  // a reference without the gitlab scheme
    | InvalidSyntax(reference: string) // gitlab@ without the '>' separator
    | FetchErr(cause: FetchError)     // whatever the Fetcher returned, unchanged

  datatype Result<+T> = Ok(value: T) | Err(error: ResolveError)
}
