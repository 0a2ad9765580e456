/** Optional values, results, and the JavaScript notions the canvas-agent sources lean on. */
module Wrappers {
  datatype Option<+T> = None | Some(value: T) {
    function GetOr(default: T): T {
      if Some? then value else default
    }
  }

  datatype Result<+T, +E> = Ok(value: T) | Err(error: E)

  /** The largest integer Number.isSafeInteger accepts. */
  const MAX_SAFE_INTEGER: int := 9007199254740991

  /** JavaScript truthiness of an optional string: absent and empty are both false. */
  predicate Truthy(text: Option<string>) {
    text.Some? && text.value != ""
  }

  /** The pattern [a-z][a-z0-9_]{2,80} of an error code. */
  predicate SafeCode(code: string) {
    && 3 <= |code| <= 81
    && 'a' <= code[0] <= 'z'
    && forall c :: c in code ==> 'a' <= c <= 'z' || '0' <= c <= '9' || c == '_'
  }

  /** The pattern [A-Za-z0-9._:-]{low,high} of identifiers and receipts. */
  predicate SafeId(id: string, low: nat, high: nat) {
    && low <= |id| <= high
    && forall c :: c in id ==> 'A' <= c <= 'Z' || 'a' <= c <= 'z' || '0' <= c <= '9' || c in "._:-"
  }
}
