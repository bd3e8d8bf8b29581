/** What a route handler sends back to the client. */
module Http {
  import opened Wrappers

  /** JavaScript truthiness of a request string: undefined, null and '' fail. */
  predicate TruthyString(v: Option<string>) {
    v.Some? && v.value != ""
  }

  /** JavaScript truthiness of a JSON number: undefined, null and 0 fail. */
  predicate TruthyNumber(v: Option<int>) {
    v.Some? && v.value != 0
  }

  datatype Reply =
    /** A JSON answer with its status (200 when none is set), success flag and
        message. */
    | Json(status: nat, success: bool, message: string)
    /** A 302 redirect to location. */
    | Redirect(location: string)
    /** A file sent as the answer. */
    | SendFile(path: string)
    /** A plain-text answer with its status. */
    | Text(status: nat, body: string)
}
