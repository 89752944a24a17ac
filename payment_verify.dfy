/**
 * `POST /api/payment/verify`: the provider's webhook. A signed `charge.success` event
 * records the payment as successful and activates the puzzle waiting on its reference.
 */
module PaymentVerify {
  import opened Wrappers
  import opened Types
  import opened Store
  import opened Http

  /** The fields of `event.data` the handler reads; an absent field is None. */
  datatype ChargeData = ChargeData(reference: Option<string>, amount: Option<int>, metadataPuzzleId: Option<string>)

  /** The parsed event; `data` is None when the event carries none. */
  datatype WebhookEvent = WebhookEvent(event: string, data: Option<ChargeData>)

  const ChargeSuccess: string := "charge.success"

  /** The puzzle id from the event's metadata, else the single row holding the reference. */
  function ResolvePuzzleId(puzzles: map<PuzzleId, Puzzle>, data: ChargeData, reference: string): (r: Option<PuzzleId>)
    ensures Truthy(data.metadataPuzzleId) ==> r == data.metadataPuzzleId
    ensures !Truthy(data.metadataPuzzleId) ==>
      (r.Some? <==> |WithReference(puzzles, reference)| == 1 && "" !in WithReference(puzzles, reference))
    ensures !Truthy(data.metadataPuzzleId) && r.Some? ==> WithReference(puzzles, reference) == {r.value}
  {
    if Truthy(data.metadataPuzzleId) then data.metadataPuzzleId
    else match SingleByReference(puzzles, reference)
      case Some(id) => if |id| > 0 then Some(id) else None
      case None => None
  }

  /** The row the upsert writes under `reference` (the conflict key). */
  function SuccessfulPayment(id: PuzzleId, reference: string, amount: Option<int>, now: int): Payment {
    Payment(id, reference, Some(amount.GetOr(0)), Succeeded, Some(now))
  }

  /**
   * The handler. `signatureValid` is the outcome of the HMAC-SHA512 comparison of the raw
   * body with the signature header; `event` is None when the body is not JSON;
   * `upsertSucceeds` says whether the database accepted the payment upsert, whose failure
   * the handler only logs.
   */
  method Post(db: Db, signature: Option<string>, signatureValid: bool, event: Option<WebhookEvent>,
              upsertSucceeds: bool, now: int) returns (resp: Response)
    modifies db
    ensures !Truthy(signature) || !signatureValid ==>
      resp == Response(401, Error("Invalid signature")) && unchanged(db)
    ensures Truthy(signature) && signatureValid ==>
      match event
      case None =>
        resp == Response(500, Error("Webhook processing failed")) && unchanged(db)
      case Some(ev) =>
        if ev.event != ChargeSuccess then
          resp == Response(200, Received) && unchanged(db)
        else if ev.data.None? then
          resp == Response(500, Error("Webhook processing failed")) && unchanged(db)
        else if !Truthy(ev.data.value.reference) then
          resp == Response(400, Error("No reference")) && unchanged(db)
        else
          var data := ev.data.value;
          var reference := data.reference.value;
          var id := ResolvePuzzleId(old(db.puzzles), data, reference);
          && resp == Response(200, Received)
          && db.puzzles == Activate(old(db.puzzles), reference, now)
          && db.payments == (if id.Some? && upsertSucceeds
                             then old(db.payments)[reference := SuccessfulPayment(id.value, reference, data.amount, now)]
                             else old(db.payments))
  {
    if !Truthy(signature) || !signatureValid {
      return Response(401, Error("Invalid signature"));
    }
    if event.None? {
      return Response(500, Error("Webhook processing failed"));
    }
    var ev := event.value;
    if ev.event != ChargeSuccess {
      return Response(200, Received);
    }
    if ev.data.None? {
      return Response(500, Error("Webhook processing failed"));
    }
    var data := ev.data.value;
    if !Truthy(data.reference) {
      return Response(400, Error("No reference"));
    }
    var reference := data.reference.value;
    var id := ResolvePuzzleId(db.puzzles, data, reference);
    if id.Some? && upsertSucceeds {
      db.payments := db.payments[reference := SuccessfulPayment(id.value, reference, data.amount, now)];
    }
    db.puzzles := Activate(db.puzzles, reference, now);
    resp := Response(200, Received);
  }
}
