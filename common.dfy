/** Shared vocabulary of the chat server model: optional values, results and identifiers. */
module Common {

  /** A value that may be absent (JavaScript `undefined`/`null`). */
  datatype Option<+T> = None | Some(value: T) {
    function GetOr(default: T): T {
      match this
      case Some(v) => v
      case None => default
    }
  }

  /** The outcome of an operation that can fail with an error of type E. */
  datatype Result<+T, +E> = Ok(value: T) | Err(error: E)

  /** Identifiers are opaque strings (user ids come from the token, the others from the database). */
  type UserId = string
  type ConversationId = string
  type MessageId = string
  type CallId = string
  /** socket.io's per-connection id. */
  type SocketId = string

  /** Time in milliseconds since the epoch (`Date.now()`), passed in by the caller. */
  type Millis = int

  /** `s` starts with `p` (JavaScript `String.prototype.startsWith`). */
  predicate StartsWith(s: string, p: string) {
    |p| <= |s| && s[..|p|] == p
  }

  /** The elements of `s` are pairwise distinct. */
  ghost predicate Distinct<T>(s: seq<T>) {
    forall i, j :: 0 <= i < j < |s| ==> s[i] != s[j]
  }
}
