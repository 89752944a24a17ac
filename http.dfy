/** The JSON responses of the route handlers, and the truthiness test they apply to
    request values. */
module Http {
  import opened Wrappers

  datatype Body =
    | Error(message: string)
    | Received
    | Created(puzzleId: string, token: string, amount: nat)
    | CheckoutStarted(authorizationUrl: string, accessCode: string, reference: string, puzzleToken: string)
    | PuzzleToken(token: string)
    | ExpiredCount(expired: nat, timestamp: int)

  datatype Response = Response(status: nat, body: Body)

  /** `if (value)` on an optional string: present and non-empty. */
  predicate Truthy(value: Option<string>) {
    value.Some? && |value.value| > 0
  }
}
