/**
 * `POST /api/payment/initialize`: points a puzzle that is still awaiting payment at a new
 * provider reference, records a pending payment under it and starts the provider's
 * checkout.
 */
module PaymentInitialize {
  import opened Wrappers
  import opened Types
  import opened Store
  import opened Http

  /** What the provider's initialize call returns; None when the call fails. */
  datatype Checkout = Checkout(authorizationUrl: string, accessCode: string, reference: string)

  /** The fields read from the JSON body. */
  datatype InitializeBody = InitializeBody(puzzleId: Option<string>, email: Option<string>)

  const ReferencePrefix: string := "ll_"

  /** `.eq("id", puzzle_id).eq("status", "pending_payment").single()` finds the row. */
  predicate Payable(puzzles: map<PuzzleId, Puzzle>, id: PuzzleId) {
    id in puzzles && puzzles[id].status == PendingPayment
  }

  /** The row after `update({ payment_reference: reference })`. */
  function WithNewReference(puzzles: map<PuzzleId, Puzzle>, id: PuzzleId, reference: string): map<PuzzleId, Puzzle>
    requires id in puzzles
  {
    puzzles[id := puzzles[id].(paymentReference := Some(reference))]
  }

  /** After the reference update the row awaits activation by exactly that reference, and
      the activation it waits for turns it active stamped with the payment time. */
  lemma NewReferenceAwaitsActivation(puzzles: map<PuzzleId, Puzzle>, id: PuzzleId, reference: string, paidAt: int)
    requires Payable(puzzles, id)
    ensures AwaitsActivation(WithNewReference(puzzles, id, reference)[id], reference)
    ensures id in WithReference(WithNewReference(puzzles, id, reference), reference)
    ensures var activated := Activate(WithNewReference(puzzles, id, reference), reference, paidAt);
      activated[id].status == Active && activated[id].paidAt == Some(paidAt)
  {
    ActivateEffect(WithNewReference(puzzles, id, reference), reference, paidAt);
  }

  /**
   * The handler. `body` is None when the request body is not a JSON object (the catch
   * answers 500); `nonce` is the `nanoid(16)` suffix of the new reference and `checkout`
   * the provider's answer. An existing payment under the same reference makes the insert
   * fail (the reference is the table's unique key); the reference update before it stays.
   */
  method Post(db: Db, body: Option<InitializeBody>, nonce: string, checkout: Option<Checkout>)
    returns (resp: Response)
    modifies db
    ensures body.None? ==> resp == Response(500, Error("Failed to initialize payment")) && unchanged(db)
    ensures body.Some? && (!Truthy(body.value.puzzleId) || !Truthy(body.value.email)) ==>
      resp == Response(400, Error("Missing puzzle_id or email")) && unchanged(db)
    ensures body.Some? && Truthy(body.value.puzzleId) && Truthy(body.value.email)
            && !Payable(old(db.puzzles), body.value.puzzleId.value) ==>
      resp == Response(404, Error("Puzzle not found or already paid")) && unchanged(db)
    ensures body.Some? && Truthy(body.value.puzzleId) && Truthy(body.value.email)
            && Payable(old(db.puzzles), body.value.puzzleId.value) ==>
      var id := body.value.puzzleId.value;
      var p := old(db.puzzles)[id];
      var reference := ReferencePrefix + nonce;
      && db.puzzles == WithNewReference(old(db.puzzles), id, reference)
      && (reference in old(db.payments) ==>
            db.payments == old(db.payments) && resp == Response(500, Error("Failed to initialize payment")))
      && (reference !in old(db.payments) ==>
            && db.payments == old(db.payments)[reference := Payment(id, reference, p.paymentAmount, Pending, None)]
            && resp == match checkout
               case None => Response(500, Error("Failed to initialize payment"))
               case Some(c) => Response(200, CheckoutStarted(c.authorizationUrl, c.accessCode, c.reference, p.token)))
  {
    if body.None? {
      return Response(500, Error("Failed to initialize payment"));
    }
    var puzzleId, email := body.value.puzzleId, body.value.email;
    if !Truthy(puzzleId) || !Truthy(email) {
      return Response(400, Error("Missing puzzle_id or email"));
    }
    var id := puzzleId.value;
    if !Payable(db.puzzles, id) {
      return Response(404, Error("Puzzle not found or already paid"));
    }
    var puzzle := db.puzzles[id];
    var reference := ReferencePrefix + nonce;
    db.puzzles := WithNewReference(db.puzzles, id, reference);
    if reference in db.payments {
      return Response(500, Error("Failed to initialize payment"));
    }
    db.payments := db.payments[reference := Payment(id, reference, puzzle.paymentAmount, Pending, None)];
    match checkout
    case None =>
      resp := Response(500, Error("Failed to initialize payment"));
    case Some(c) =>
      resp := Response(200, CheckoutStarted(c.authorizationUrl, c.accessCode, c.reference, puzzle.token));
  }
}
