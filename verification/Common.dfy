/** Values shared by every component: optional values, AWS error kinds, byte strings. */
module Common {

  datatype Option<+T> = None | Some(value: T)

  /** The error kinds the repository tells apart. `ServiceFault` stands for any injected
      transport fault; `Panic` for a Go run-time panic (a failed type assertion or slice). */
  datatype Error =
    | NotFound | EntityExists | InvalidInput | LimitExceeded | DeleteConflict
    | BadEscape | BadJson | Conflict | InvalidRoleStatus | ServiceFault | Panic

  datatype Result<+T> = Ok(value: T) | Err(error: Error)

  function Unavailable<T>(): Result<T> { Err(ServiceFault) }

  /** `fmt.Sprintf("/%s/", path)`, the path both clients create under. */
  function ClientPath(path: string): string {
    "/" + path + "/"
  }

  /** Marks what a proof looks at. It is always true and only steers the verifier: an invariant over all
      names is used at the names that are marked. */
  predicate Marked<T>(x: T) { true }

  /** Go strings that travel to AWS are byte sequences. */
  type Byte = b: int | 0 <= b < 256
  type Bytes = seq<Byte>

  /** A JSON tree, as `json.Unmarshal` builds it in an `interface{}`. */
  datatype Json = JNull | JBool(b: bool)
    | JNum(n: int) | JStr(s: string) | JArr(items: seq<Json>) | JObj(fields: map<string, Json>)
}
