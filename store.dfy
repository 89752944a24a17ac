/**
 * The two datastore tables the route handlers write, as in-memory maps, and the
 * row-set updates they issue. Each handler step is one atomic update of this store;
 * the database's own atomicity and its failures are outside the model.
 */
module Store {
  import opened Wrappers
  import opened Types

  /** The row id the database assigns to a puzzle. */
  type PuzzleId = string

  datatype PaymentStatus = Pending | Succeeded  // "pending", "success"

  /** A row of the `payments` table, keyed by the provider reference. */
  datatype Payment = Payment(puzzleId: PuzzleId, reference: string, amount: Option<int>, status: PaymentStatus, verifiedAt: Option<int>)

  /** puzzles: id -> row; payments: reference -> row (the upsert key is the reference). */
  class Db {
    var puzzles: map<PuzzleId, Puzzle>
    var payments: map<string, Payment>

    constructor ()
      ensures puzzles == map[] && payments == map[]
    {
      puzzles, payments := map[], map[];
    }
  }

  /** The rows whose `payment_reference` is `reference`. */
  function WithReference(puzzles: map<PuzzleId, Puzzle>, reference: string): set<PuzzleId> {
    set id | id in puzzles && puzzles[id].paymentReference == Some(reference)
  }

  lemma SingletonHasOneElement<T>(s: set<T>, x: T)
    requires |s| == 1 && x in s
    ensures s == {x}
  {
    assert |s - {x}| == 0;
  }

  /** `select ... where payment_reference = reference` followed by `.single()`: a row only
      when exactly one row matches, nothing for none or several. */
  function SingleByReference(puzzles: map<PuzzleId, Puzzle>, reference: string): (r: Option<PuzzleId>)
    ensures r.Some? <==> |WithReference(puzzles, reference)| == 1
    ensures r.Some? ==> WithReference(puzzles, reference) == {r.value}
  {
    var ids := WithReference(puzzles, reference);
    if |ids| == 1 then
      var id := SoleElement(ids);
      SingletonHasOneElement(ids, id);
      Some(id)
    else None
  }

  function SoleElement<T>(s: set<T>): (x: T)
    requires |s| == 1
    ensures x in s
  {
    var x :| x in s;
    SingletonHasOneElement(s, x);
    x
  }

  /** The guard of the idempotent activation. */
  predicate AwaitsActivation(p: Puzzle, reference: string) {
    p.paymentReference == Some(reference) && p.status == PendingPayment
  }

  /** `update puzzles set status = 'active', paid_at = now
       where payment_reference = reference and status = 'pending_payment'`. */
  function Activate(puzzles: map<PuzzleId, Puzzle>, reference: string, now: int): map<PuzzleId, Puzzle> {
    map id | id in puzzles ::
      if AwaitsActivation(puzzles[id], reference) then puzzles[id].(status := Active, paidAt := Some(now))
      else puzzles[id]
  }

  /** The guarded activation turns exactly the pending rows with this reference active,
      stamped `now`, changing no other field, and leaves every other row as it was. */
  lemma ActivateEffect(puzzles: map<PuzzleId, Puzzle>, reference: string, now: int)
    ensures Activate(puzzles, reference, now).Keys == puzzles.Keys
    ensures forall id :: id in puzzles && AwaitsActivation(puzzles[id], reference) ==>
      Activate(puzzles, reference, now)[id] == puzzles[id].(status := Active, paidAt := Some(now))
    ensures forall id :: id in puzzles && !AwaitsActivation(puzzles[id], reference) ==>
      Activate(puzzles, reference, now)[id] == puzzles[id]
    ensures WithReference(Activate(puzzles, reference, now), reference) == WithReference(puzzles, reference)
  {
  }

  /** Once activation has run for a reference no row awaits it, so any later activation
      with that reference, at any time, changes nothing: `paid_at` keeps the first stamp. */
  lemma ActivateIdempotent(puzzles: map<PuzzleId, Puzzle>, reference: string, first: int, later: int)
    ensures forall id :: id in Activate(puzzles, reference, first) ==>
      !AwaitsActivation(Activate(puzzles, reference, first)[id], reference)
    ensures Activate(Activate(puzzles, reference, first), reference, later) == Activate(puzzles, reference, first)
  {
    var once := Activate(puzzles, reference, first);
    var twice := Activate(once, reference, later);
    assert twice.Keys == once.Keys;
    forall id | id in once ensures twice[id] == once[id] {
      assert !AwaitsActivation(once[id], reference);
    }
  }

  /** Re-pointing a row at a new reference detaches it from the old one: an activation
      with any other reference leaves that row as it is. */
  lemma StaleReferenceMissesRow(puzzles: map<PuzzleId, Puzzle>, id: PuzzleId, newRef: string, stale: string, now: int)
    requires id in puzzles && stale != newRef
    ensures var repointed := puzzles[id := puzzles[id].(paymentReference := Some(newRef))];
      Activate(repointed, stale, now)[id] == repointed[id]
  {
  }

  /** The sweep's condition: opened, with an expiry strictly before `now` (a null expiry
      never matches). */
  predicate Lapsed(p: Puzzle, now: int) {
    p.status == Opened && p.expiresAt.Some? && p.expiresAt.value < now
  }

  function LapsedIds(puzzles: map<PuzzleId, Puzzle>, now: int): set<PuzzleId> {
    set id | id in puzzles && Lapsed(puzzles[id], now)
  }

  /** `update puzzles set status = 'expired' where status = 'opened' and expires_at < now`. */
  function ExpireLapsed(puzzles: map<PuzzleId, Puzzle>, now: int): map<PuzzleId, Puzzle> {
    map id | id in puzzles :: if Lapsed(puzzles[id], now) then puzzles[id].(status := Expired) else puzzles[id]
  }

  /** The sweep changes only the status of the lapsed rows, leaves no lapsed row behind, and
      a second sweep at the same time changes nothing. */
  lemma ExpireLapsedEffect(puzzles: map<PuzzleId, Puzzle>, now: int)
    ensures ExpireLapsed(puzzles, now).Keys == puzzles.Keys
    ensures forall id :: id in puzzles && Lapsed(puzzles[id], now) ==>
      ExpireLapsed(puzzles, now)[id] == puzzles[id].(status := Expired)
    ensures forall id :: id in puzzles && !Lapsed(puzzles[id], now) ==> ExpireLapsed(puzzles, now)[id] == puzzles[id]
    ensures LapsedIds(ExpireLapsed(puzzles, now), now) == {}
    ensures ExpireLapsed(ExpireLapsed(puzzles, now), now) == ExpireLapsed(puzzles, now)
  {
    var once := ExpireLapsed(puzzles, now);
    forall id | id in once ensures !Lapsed(once[id], now) {
    }
    var twice := ExpireLapsed(once, now);
    assert twice.Keys == once.Keys;
    forall id | id in once ensures twice[id] == once[id] {
    }
  }
}
