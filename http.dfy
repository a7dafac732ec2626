/** The JSON request bodies the route handlers read and the responses they return. */
module Http {

  import opened Wrappers
  import Records
  import JsonWebToken

  datatype Body =
    | Message(message: string)                  // `{ message }` of the register and login routes
    | Error(error: string)                      // `{ error }` of the vault routes
    | TokenIssued(token: JsonWebToken.Token)    // `{ token }` of the login route
    | EntryList(entries: seq<Records.Entry>)    // the listed vault entries
    | EntryCreated(entry: Records.Entry)        // the created vault entry

  datatype Response = Response(status: int, body: Body)

  /** The body of a register or login request; `Unparsable` when `request.json()` throws. */
  datatype UsernamePassword = Unparsable | Fields(username: Option<string>, password: Option<string>)

  /** A response together with the tables a handler leaves behind. */
  datatype RouteOutcome = RouteOutcome(response: Response, tables: Records.Tables)
}
