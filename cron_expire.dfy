/**
 * `GET /api/cron/expire-puzzles`: the scheduled sweep that expires opened puzzles whose
 * time is up, guarded by a shared secret.
 */
module CronExpire {
  import opened Wrappers
  import opened JsText
  import opened Types
  import opened Store
  import opened Http

  const BearerPrefix: string := "Bearer "

  /** `request.headers.get("authorization")?.replace("Bearer ", "")`: the first occurrence
      of the prefix is dropped, and an absent header stays absent. */
  function PresentedSecret(authorization: Option<string>): Option<string> {
    match authorization
    case None => None
    case Some(h) => Some(ReplaceFirst(h, BearerPrefix, ""))
  }

  /** `secret !== process.env.CRON_SECRET` fails exactly when the two agree, absence included. */
  predicate Authorized(authorization: Option<string>, cronSecret: Option<string>) {
    PresentedSecret(authorization) == cronSecret
  }

  /** A bearer header is accepted exactly when its token is the configured secret; a header
      without the prefix anywhere is compared as it stands; a request without the header is
      refused while a secret is configured. */
  lemma AuthorizationCases(token: string, secret: string, header: string)
    ensures Authorized(Some(BearerPrefix + token), Some(secret)) <==> token == secret
    ensures !Occurs(header, BearerPrefix) ==> (Authorized(Some(header), Some(secret)) <==> header == secret)
    ensures !Authorized(None, Some(secret))
  {
    ReplaceFirstAtStart(BearerPrefix, token, "");
    assert "" + token == token;
    if !Occurs(header, BearerPrefix) {
      ReplaceFirstWithoutMatch(header, BearerPrefix, "");
    }
  }

  /** With no secret configured, the guard admits every request that carries no
      authorization header and refuses every one that does. */
  lemma UnsetSecretAdmitsBareRequests(header: string)
    ensures Authorized(None, None)
    ensures !Authorized(Some(header), None)
  {
  }

  /**
   * The handler. `cronSecret` is the `CRON_SECRET` setting and `now` both the sweep's
   * cut-off and the reported timestamp. The bulk update visits every row and expires
   * those that have lapsed; the answer counts the rows it returned.
   */
  method Get(db: Db, authorization: Option<string>, cronSecret: Option<string>, now: int) returns (resp: Response)
    modifies db
    ensures !Authorized(authorization, cronSecret) ==> resp == Response(401, Error("Unauthorized")) && unchanged(db)
    ensures Authorized(authorization, cronSecret) ==>
      && db.puzzles == ExpireLapsed(old(db.puzzles), now)
      && db.payments == old(db.payments)
      && resp == Response(200, ExpiredCount(|LapsedIds(old(db.puzzles), now)|, now))
  {
    if !Authorized(authorization, cronSecret) {
      return Response(401, Error("Unauthorized"));
    }
    var expired := ExpireAll(db, now);
    resp := Response(200, ExpiredCount(expired, now));
  }

  /** The sweep with the rows in `pending` not yet visited. */
  function PartlySwept(before: map<PuzzleId, Puzzle>, now: int, pending: set<PuzzleId>): map<PuzzleId, Puzzle> {
    map id | id in before :: if id !in pending && Lapsed(before[id], now) then before[id].(status := Expired) else before[id]
  }

  /** Visiting one more row expires it when it has lapsed and touches nothing else. */
  lemma SweepStep(before: map<PuzzleId, Puzzle>, now: int, pending: set<PuzzleId>, id: PuzzleId)
    requires id in pending && pending <= before.Keys
    ensures id in PartlySwept(before, now, pending)
    ensures PartlySwept(before, now, pending)[id] == before[id]
    ensures PartlySwept(before, now, pending - {id}) ==
      if Lapsed(before[id], now) then PartlySwept(before, now, pending)[id := before[id].(status := Expired)]
      else PartlySwept(before, now, pending)
  {
    var after := PartlySwept(before, now, pending - {id});
    var current := PartlySwept(before, now, pending);
    var expected := if Lapsed(before[id], now) then current[id := before[id].(status := Expired)] else current;
    assert after.Keys == expected.Keys;
    forall k | k in after ensures after[k] == expected[k] {
    }
  }

  lemma SweepStart(before: map<PuzzleId, Puzzle>, now: int)
    ensures PartlySwept(before, now, before.Keys) == before
  {
  }

  lemma SweepDone(before: map<PuzzleId, Puzzle>, now: int)
    ensures PartlySwept(before, now, {}) == ExpireLapsed(before, now)
  {
  }

  lemma CountStep(lapsed: set<PuzzleId>, pending: set<PuzzleId>, changed: set<PuzzleId>, id: PuzzleId)
    requires id in pending && changed == lapsed - pending
    ensures id !in changed
    ensures (if id in lapsed then changed + {id} else changed) == lapsed - (pending - {id})
    ensures |if id in lapsed then changed + {id} else changed| == |changed| + (if id in lapsed then 1 else 0)
  {
  }

  /** The bulk update, one row at a time; the result is the number of rows it changed. */
  method ExpireAll(db: Db, now: int) returns (expired: nat)
    modifies db
    ensures db.puzzles == ExpireLapsed(old(db.puzzles), now)
    ensures db.payments == old(db.payments)
    ensures expired == |LapsedIds(old(db.puzzles), now)|
  {
    var puzzles := db.puzzles;
    ghost var before := puzzles;
    var pending := puzzles.Keys;
    ghost var changed: set<PuzzleId> := {};
    expired := 0;
    SweepStart(before, now);
    while pending != {}
      invariant pending <= before.Keys
      invariant changed == LapsedIds(before, now) - pending && expired == |changed|
      invariant puzzles == PartlySwept(before, now, pending)
      modifies {}
      decreases pending
    {
      var id :| id in pending;
      SweepStep(before, now, pending, id);
      CountStep(LapsedIds(before, now), pending, changed, id);
      var row := puzzles[id];
      assert row == before[id];
      assert id in LapsedIds(before, now) <==> Lapsed(row, now);
      if Lapsed(row, now) {
        puzzles := puzzles[id := row.(status := Expired)];
        changed := changed + {id};
        expired := expired + 1;
      }
      pending := pending - {id};
    }
    db.puzzles := puzzles;
    SweepDone(before, now);
  }
}
