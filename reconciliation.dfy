/**
 * The two paths that confirm a payment, the provider's webhook and the browser's
 * callback, arriving for the same reference in either order. Each handler is one atomic
 * step on the store; the interleaving of steps inside a handler is not modelled.
 */
module Reconciliation {
  import opened Wrappers
  import opened Types
  import opened Store
  import opened Http
  import PaymentVerify
  import PaymentCallback

  /** The signed `charge.success` event the provider sends for a paid reference. */
  function ChargeEvent(reference: string, amount: Option<int>, id: PuzzleId): PaymentVerify.WebhookEvent {
    PaymentVerify.WebhookEvent(PaymentVerify.ChargeSuccess,
      Some(PaymentVerify.ChargeData(Some(reference), amount, Some(id))))
  }

  /** The provider's verification of the same payment, as the callback receives it. */
  function SuccessfulVerification(amount: Option<int>, id: PuzzleId, token: string): PaymentCallback.Verification {
    PaymentCallback.Verification("success", amount, Some(id), Some(token))
  }

  /** Webhook first: the puzzle turns active with the webhook's time, the callback's
      activation then matches nothing, and the payment row ends up as the callback wrote it. */
  method WebhookThenCallback(db: Db, id: PuzzleId, reference: string, amount: Option<int>, signature: string,
                             webhookAt: int, callbackAt: int)
    returns (webhookResponse: Response, callbackResponse: Response)
    requires id in db.puzzles && AwaitsActivation(db.puzzles[id], reference)
    requires |id| > 0 && |reference| > 0 && |signature| > 0 && |db.puzzles[id].token| > 0
    modifies db
    ensures db.puzzles == Activate(old(db.puzzles), reference, webhookAt)
    ensures db.puzzles[id] == old(db.puzzles)[id].(status := Active, paidAt := Some(webhookAt))
    ensures db.payments == old(db.payments)[reference := Payment(id, reference, amount, Succeeded, Some(callbackAt))]
    ensures webhookResponse == Response(200, Received)
    ensures callbackResponse == Response(200, PuzzleToken(old(db.puzzles)[id].token))
  {
    var token := db.puzzles[id].token;
    webhookResponse := PaymentVerify.Post(db, Some(signature), true, Some(ChargeEvent(reference, amount, id)), true, webhookAt);
    callbackResponse := PaymentCallback.Get(db, Some(reference), None, Some(SuccessfulVerification(amount, id, token)), true, callbackAt);
    ActivateIdempotent(old(db.puzzles), reference, webhookAt, callbackAt);
    ActivateEffect(old(db.puzzles), reference, webhookAt);
  }

  /** Callback first: the puzzle turns active with the callback's time, the webhook's
      activation then matches nothing, and the payment row ends up as the webhook wrote it. */
  method CallbackThenWebhook(db: Db, id: PuzzleId, reference: string, amount: Option<int>, signature: string,
                             callbackAt: int, webhookAt: int)
    returns (callbackResponse: Response, webhookResponse: Response)
    requires id in db.puzzles && AwaitsActivation(db.puzzles[id], reference)
    requires |id| > 0 && |reference| > 0 && |signature| > 0 && |db.puzzles[id].token| > 0
    modifies db
    ensures db.puzzles == Activate(old(db.puzzles), reference, callbackAt)
    ensures db.puzzles[id] == old(db.puzzles)[id].(status := Active, paidAt := Some(callbackAt))
    ensures db.payments == old(db.payments)[reference := PaymentVerify.SuccessfulPayment(id, reference, amount, webhookAt)]
    ensures webhookResponse == Response(200, Received)
    ensures callbackResponse == Response(200, PuzzleToken(old(db.puzzles)[id].token))
  {
    var token := db.puzzles[id].token;
    callbackResponse := PaymentCallback.Get(db, Some(reference), None, Some(SuccessfulVerification(amount, id, token)), true, callbackAt);
    webhookResponse := PaymentVerify.Post(db, Some(signature), true, Some(ChargeEvent(reference, amount, id)), true, webhookAt);
    ActivateIdempotent(old(db.puzzles), reference, callbackAt, webhookAt);
    ActivateEffect(old(db.puzzles), reference, callbackAt);
  }

  /** Whatever the order and the times, exactly one pending-to-active transition happens
      for each row waiting on the reference, and it is stamped by the first arrival. */
  lemma OneActivationEitherOrder(puzzles: map<PuzzleId, Puzzle>, reference: string, first: int, second: int)
    ensures Activate(Activate(puzzles, reference, first), reference, second) == Activate(puzzles, reference, first)
    ensures forall id :: id in puzzles && AwaitsActivation(puzzles[id], reference) ==>
      Activate(Activate(puzzles, reference, first), reference, second)[id].paidAt == Some(first)
  {
    ActivateIdempotent(puzzles, reference, first, second);
    ActivateEffect(puzzles, reference, first);
  }
}
