/**
 * `GET /api/payment/callback`: the browser's return from checkout. The handler asks the
 * provider to verify the transaction, activates the puzzle waiting on the reference,
 * records the payment and answers with the puzzle's share token.
 */
module PaymentCallback {
  import opened Wrappers
  import opened Types
  import opened Store
  import opened Http

  /** The fields of the provider's verification data the handler reads. */
  datatype Verification = Verification(
    status: string,
    amount: Option<int>,
    metadataPuzzleId: Option<string>,
    metadataToken: Option<string>
  )

  /** `searchParams.get("reference") || searchParams.get("trxref")`. */
  function ChooseReference(reference: Option<string>, trxref: Option<string>): Option<string> {
    if Truthy(reference) then reference else trxref
  }

  /** The token from the metadata, else that of the single row holding the reference. */
  function ResolveToken(puzzles: map<PuzzleId, Puzzle>, metadataToken: Option<string>, reference: string): (r: Option<string>)
    ensures Truthy(metadataToken) ==> r == metadataToken
    ensures !Truthy(metadataToken) ==> (r.Some? <==> |WithReference(puzzles, reference)| == 1)
    ensures !Truthy(metadataToken) && r.Some? ==>
      exists id :: id in puzzles && WithReference(puzzles, reference) == {id} && r.value == puzzles[id].token
  {
    if Truthy(metadataToken) then metadataToken
    else match SingleByReference(puzzles, reference)
      case Some(id) => Some(puzzles[id].token)
      case None => None
  }

  /**
   * The handler. `verification` is None when the provider's verify call fails;
   * `upsertSucceeds` says whether the database accepted the payment upsert, whose result
   * the handler ignores.
   */
  method Get(db: Db, referenceParam: Option<string>, trxrefParam: Option<string>, verification: Option<Verification>,
             upsertSucceeds: bool, now: int) returns (resp: Response)
    modifies db
    ensures !Truthy(ChooseReference(referenceParam, trxrefParam)) ==>
      resp == Response(400, Error("No reference provided")) && unchanged(db)
    ensures Truthy(ChooseReference(referenceParam, trxrefParam)) ==>
      var reference := ChooseReference(referenceParam, trxrefParam).value;
      match verification
      case None =>
        resp == Response(500, Error("Verification failed")) && unchanged(db)
      case Some(v) =>
        if v.status != "success" then
          resp == Response(400, Error("Payment not successful")) && unchanged(db)
        else
          var token := ResolveToken(Activate(old(db.puzzles), reference, now), v.metadataToken, reference);
          && db.puzzles == Activate(old(db.puzzles), reference, now)
          && db.payments == (if Truthy(v.metadataPuzzleId) && upsertSucceeds
                             then old(db.payments)[reference := Payment(v.metadataPuzzleId.value, reference, v.amount, Succeeded, Some(now))]
                             else old(db.payments))
          && resp == (if Truthy(token) then Response(200, PuzzleToken(token.value))
                      else Response(404, Error("Puzzle not found")))
  {
    var chosen := ChooseReference(referenceParam, trxrefParam);
    if !Truthy(chosen) {
      return Response(400, Error("No reference provided"));
    }
    var reference := chosen.value;
    if verification.None? {
      return Response(500, Error("Verification failed"));
    }
    var v := verification.value;
    if v.status != "success" {
      return Response(400, Error("Payment not successful"));
    }
    db.puzzles := Activate(db.puzzles, reference, now);
    if Truthy(v.metadataPuzzleId) && upsertSucceeds {
      db.payments := db.payments[reference := Payment(v.metadataPuzzleId.value, reference, v.amount, Succeeded, Some(now))];
    }
    var token := ResolveToken(db.puzzles, v.metadataToken, reference);
    if !Truthy(token) {
      return Response(404, Error("Puzzle not found"));
    }
    resp := Response(200, PuzzleToken(token.value));
  }

  /** The token lookup sees the same rows before and after the activation, so a puzzle found
      by its reference is found either way. */
  lemma TokenLookupUnaffectedByActivation(puzzles: map<PuzzleId, Puzzle>, metadataToken: Option<string>, reference: string, now: int)
    ensures ResolveToken(Activate(puzzles, reference, now), metadataToken, reference) == ResolveToken(puzzles, metadataToken, reference)
  {
    ActivateEffect(puzzles, reference, now);
  }
}
