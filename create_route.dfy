/**
 * `POST /api/puzzles`: rate-limits by client address, validates the creation request in a
 * fixed order, shuffles the board and inserts a puzzle row awaiting payment.
 */
module CreateRoute {
  import opened Wrappers
  import opened JsText
  import opened Types
  import opened PuzzleLib
  import opened Utils
  import opened Store
  import opened Http

  /** `reveal_at` as sent, with the instant `new Date(...)` parses it to (None for an
      invalid date); date parsing itself is outside the model. */
  datatype DateInput = DateInput(text: string, time: Option<int>)

  /** The JSON body; a field that is absent or null is None. */
  datatype CreateBody = CreateBody(
    imagePath: Option<string>,
    difficulty: Option<string>,
    message: Option<string>,
    senderName: Option<string>,
    senderEmail: Option<string>,
    revealAt: Option<DateInput>
  )

  datatype CreateError =
    | MissingFields
    | InvalidDifficulty
    | MessageTooLong
    | NameTooLong
    | InvalidEmail
    | InvalidRevealDate
    | RevealTooLate

  const MaxMessageLength: nat := 500
  const MaxNameLength: nat := 100
  /** `setDate(getDate() + 30)`, taken as thirty days of 86 400 000 ms. */
  const RevealWindowMs: int := 30 * 86400000
  const CreateLimit: int := 10
  const CreateWindowMs: int := 60000

  function ErrorMessage(e: CreateError): string {
    match e
    case MissingFields => "Missing required fields"
    case InvalidDifficulty => "Invalid difficulty"
    case MessageTooLong => "Message must be 500 characters or less"
    case NameTooLong => "Name must be 100 characters or less"
    case InvalidEmail => "Invalid email address"
    case InvalidRevealDate => "Invalid reveal date"
    case RevealTooLate => "Reveal date must be within 30 days"
  }

  /** The order in which the handler tries its checks. */
  function CheckOrder(e: CreateError): nat {
    match e
    case MissingFields => 0
    case InvalidDifficulty => 1
    case MessageTooLong => 2
    case NameTooLong => 3
    case InvalidEmail => 4
    case InvalidRevealDate => 5
    case RevealTooLate => 6
  }

  // ---------------------------------------------------------------------------------
  // The e-mail pattern `^[^\s@]+@[^\s@]+\.[^\s@]+$`

  predicate PlainChar(c: char) {
    !IsWhitespace(c) && c != '@'
  }

  predicate Plain(s: string) {
    forall i :: 0 <= i < |s| ==> PlainChar(s[i])
  }

  /** What the regular expression accepts: one or more plain characters, an `@`, one or
      more plain characters, a dot, and one or more plain characters, with nothing else. */
  ghost predicate MatchesEmailPattern(s: string) {
    exists at: nat, dot: nat :: SplitsAt(s, at, dot)
  }

  /** The pattern's `@` sits at `at` and its required dot at `dot`. */
  predicate SplitsAt(s: string, at: nat, dot: nat) {
    0 < at && at + 1 < dot && dot + 1 < |s| && s[at] == '@' && s[dot] == '.' &&
    Plain(s[..at]) && Plain(s[at + 1..dot]) && Plain(s[dot + 1..])
  }

  function IndexOf(s: string, c: char): (r: Option<nat>)
    ensures r.Some? ==> r.value < |s| && s[r.value] == c && c !in s[..r.value]
    ensures r.None? ==> c !in s
  {
    if s == [] then None
    else if s[0] == c then Some(0)
    else
      var rest := IndexOf(s[1..], c);
      if rest.None? then None
      else
        assert s[..rest.value + 1] == [s[0]] + s[1..][..rest.value];
        Some(rest.value + 1)
  }

  /** The matcher: the part before the first `@` is plain and non-empty, and the rest is
      plain with a dot strictly inside it. */
  function IsValidEmail(s: string): (ok: bool) {
    match IndexOf(s, '@')
    case None => false
    case Some(i) =>
      var domain := s[i + 1..];
      0 < i && Plain(s[..i]) && Plain(domain) && |domain| >= 3 && '.' in domain[1..|domain| - 1]
  }

  /** The matcher accepts exactly the strings the pattern describes. */
  lemma EmailMatcherIsPattern(s: string)
    ensures IsValidEmail(s) <==> MatchesEmailPattern(s)
  {
    if IsValidEmail(s) {
      MatcherImpliesPattern(s);
    }
    if MatchesEmailPattern(s) {
      var at: nat, dot: nat :| SplitsAt(s, at, dot);
      PatternImpliesMatcher(s, at, dot);
    }
  }

  lemma MatcherImpliesPattern(s: string)
    requires IsValidEmail(s)
    ensures MatchesEmailPattern(s)
  {
    var i := IndexOf(s, '@').value;
    var domain := s[i + 1..];
    var inner := domain[1..|domain| - 1];
    var k :| 0 <= k < |inner| && inner[k] == '.';
    var dot := i + 2 + k;
    assert s[dot] == '.' by {
      assert s[dot] == domain[k + 1] == inner[k];
    }
    PlainSlice(domain, 0, k + 1);
    PlainSlice(domain, k + 2, |domain|);
    assert s[i + 1..dot] == domain[0..k + 1];
    assert s[dot + 1..] == domain[k + 2..|domain|];
    assert SplitsAt(s, i, dot);
  }

  lemma PlainSlice(s: string, lo: nat, hi: nat)
    requires lo <= hi <= |s| && Plain(s)
    ensures Plain(s[lo..hi])
  {
    forall j | 0 <= j < hi - lo ensures PlainChar(s[lo..hi][j]) {
      assert s[lo..hi][j] == s[lo + j];
    }
  }

  lemma FirstAt(s: string, at: nat)
    requires at < |s| && s[at] == '@' && Plain(s[..at])
    ensures IndexOf(s, '@') == Some(at)
  {
    assert '@' !in s[..at] by {
      forall j | 0 <= j < at ensures s[..at][j] != '@' {
        assert PlainChar(s[..at][j]);
      }
    }
  }

  lemma PlainDomain(s: string, at: nat, dot: nat)
    requires at + 1 < dot && dot + 1 < |s| && s[dot] == '.'
    requires Plain(s[at + 1..dot]) && Plain(s[dot + 1..])
    ensures Plain(s[at + 1..])
  {
    var domain := s[at + 1..];
    forall j | 0 <= j < |domain| ensures PlainChar(domain[j]) {
      if j < dot - at - 1 {
        assert domain[j] == s[at + 1..dot][j];
      } else if j > dot - at - 1 {
        assert domain[j] == s[dot + 1..][j - (dot - at)];
      } else {
        assert domain[j] == s[dot];
      }
    }
  }

  lemma PatternImpliesMatcher(s: string, at: nat, dot: nat)
    requires 0 < at && at + 1 < dot && dot + 1 < |s| && s[at] == '@' && s[dot] == '.'
    requires Plain(s[..at]) && Plain(s[at + 1..dot]) && Plain(s[dot + 1..])
    ensures IsValidEmail(s)
  {
    FirstAt(s, at);
    PlainDomain(s, at, dot);
    var domain := s[at + 1..];
    assert domain[1..|domain| - 1][dot - at - 2] == '.';
  }

  /** An accepted address holds exactly one `@` and no whitespace, so the `trim` the handler
      applies before storing it changes nothing. */
  lemma ValidEmailShape(s: string)
    requires IsValidEmail(s)
    ensures NoWhitespace(s) && Trim(s) == s
    ensures exists i :: 0 < i < |s| - 1 && s[i] == '@' && '@' !in s[..i] && '@' !in s[i + 1..]
  {
    var i := IndexOf(s, '@').value;
    assert s == s[..i] + [s[i]] + s[i + 1..];
    forall j | 0 <= j < |s| ensures !IsWhitespace(s[j]) {
      if j < i {
        assert s[j] == s[..i][j];
      } else if j > i {
        assert s[j] == s[i + 1..][j - i - 1];
      }
    }
    var domain := s[i + 1..];
    assert '@' !in domain by {
      forall j | 0 <= j < |domain| ensures domain[j] != '@' {
        assert PlainChar(domain[j]);
      }
    }
  }

  // ---------------------------------------------------------------------------------
  // Validation

  /** `DIFFICULTY_CONFIG[difficulty]` as written: a plain object literal, so besides its own
      three keys every key inherited from `Object.prototype` yields a truthy value. */
  const ObjectPrototypeKeys: seq<string> := [
    "constructor", "hasOwnProperty", "isPrototypeOf", "propertyIsEnumerable",
    "toLocaleString", "toString", "valueOf", "__proto__",
    "__defineGetter__", "__defineSetter__", "__lookupGetter__", "__lookupSetter__"
  ]

  predicate DifficultyCheckAsWritten(s: string) {
    ParseDifficulty(s).Some? || s in ObjectPrototypeKeys
  }

  /** The inherited key `constructor` passes the lookup as written although it names no tier
      (the handler would go on with an undefined grid size and price). */
  lemma InheritedKeyPassesDifficultyCheck(s: string)
    requires s == "constructor"
    ensures DifficultyCheckAsWritten(s)
    ensures ParseDifficulty(s).None?
  {
    assert ObjectPrototypeKeys[0] == s;
  }

  /** Each of the handler's checks, stated on its own. */
  ghost predicate Fails(e: CreateError, body: CreateBody, now: int) {
    match e
    case MissingFields =>
      !Truthy(body.imagePath) || !Truthy(body.difficulty) || !Truthy(body.senderName) || !Truthy(body.senderEmail)
    case InvalidDifficulty =>
      body.difficulty.Some? && ParseDifficulty(body.difficulty.value).None?
    case MessageTooLong =>
      body.message.Some? && |body.message.value| > MaxMessageLength
    case NameTooLong =>
      body.senderName.Some? && |body.senderName.value| > MaxNameLength
    case InvalidEmail =>
      body.senderEmail.Some? && !MatchesEmailPattern(body.senderEmail.value)
    case InvalidRevealDate =>
      body.revealAt.Some? && |body.revealAt.value.text| > 0 && body.revealAt.value.time.None?
    case RevealTooLate =>
      body.revealAt.Some? && |body.revealAt.value.text| > 0 && body.revealAt.value.time.Some? &&
      body.revealAt.value.time.value > now + RevealWindowMs
  }

  /** The request once every check has passed. */
  datatype ValidRequest = ValidRequest(
    imagePath: string,
    difficulty: Difficulty,
    message: string,
    senderName: string,
    senderEmail: string,
    revealAt: Option<string>
  )

  /** The checks of the handler, in its order. */
  function Validate(body: CreateBody, now: int): Result<ValidRequest, CreateError>
  {
    if !Truthy(body.imagePath) || !Truthy(body.difficulty) || !Truthy(body.senderName) || !Truthy(body.senderEmail) then
      Failure(MissingFields)
    else if ParseDifficulty(body.difficulty.value).None? then
      Failure(InvalidDifficulty)
    else if Truthy(body.message) && |body.message.value| > MaxMessageLength then
      Failure(MessageTooLong)
    else if |body.senderName.value| > MaxNameLength then
      Failure(NameTooLong)
    else if !IsValidEmail(body.senderEmail.value) then
      Failure(InvalidEmail)
    else if body.revealAt.Some? && |body.revealAt.value.text| > 0 && body.revealAt.value.time.None? then
      Failure(InvalidRevealDate)
    else if body.revealAt.Some? && |body.revealAt.value.text| > 0 && body.revealAt.value.time.value > now + RevealWindowMs then
      Failure(RevealTooLate)
    else
      var revealText := if body.revealAt.Some? && |body.revealAt.value.text| > 0 then Some(body.revealAt.value.text) else None;
      Success(ValidRequest(
        body.imagePath.value, ParseDifficulty(body.difficulty.value).value,
        (if body.message.Some? then body.message.value else ""),
        body.senderName.value, body.senderEmail.value, revealText))
  }

  /** The first check that fails decides the error; a request passes only when no check
      fails, and then carries exactly the fields it was sent. */
  lemma ValidateChecksInOrder(body: CreateBody, now: int)
    ensures match Validate(body, now)
      case Failure(err) =>
        && Fails(err, body, now)
        && forall e :: CheckOrder(e) < CheckOrder(err) ==> !Fails(e, body, now)
      case Success(v) =>
        && (forall e :: !Fails(e, body, now))
        && Some(v.imagePath) == body.imagePath
        && body.difficulty.Some? && Some(v.difficulty) == ParseDifficulty(body.difficulty.value)
        && v.message == (if body.message.Some? then body.message.value else "")
        && |v.message| <= MaxMessageLength
        && Some(v.senderName) == body.senderName && 0 < |v.senderName| <= MaxNameLength
        && Some(v.senderEmail) == body.senderEmail && MatchesEmailPattern(v.senderEmail)
        && (v.revealAt.Some? <==> body.revealAt.Some? && |body.revealAt.value.text| > 0)
        && (v.revealAt.Some? ==>
              && v.revealAt.value == body.revealAt.value.text
              && body.revealAt.value.time.Some?
              && body.revealAt.value.time.value <= now + RevealWindowMs)
  {
    EmailMatcherIsPattern(body.senderEmail.GetOr(""));
  }

  /** With the strict lookup, the inherited key is refused as an unknown tier once the
      required fields are there. */
  lemma InheritedKeyRejected(body: CreateBody, now: int)
    requires body.difficulty == Some("constructor")
    requires Truthy(body.imagePath) && Truthy(body.senderName) && Truthy(body.senderEmail)
    ensures Validate(body, now) == Failure(InvalidDifficulty)
  {
  }

  /** The row the handler inserts; the database fills in `created_at` with `now`. */
  function NewPuzzle(v: ValidRequest, token: string, tileOrder: seq<int>, now: int): Puzzle {
    Puzzle(
      token, v.imagePath, v.difficulty, GetGridSize(v.difficulty),
      SanitizeText(v.message), SanitizeText(v.senderName), ToLowerAscii(Trim(v.senderEmail)),
      tileOrder, PendingPayment, None, Some(GetPrice(v.difficulty)),
      None, v.revealAt, None, None, None, now)
  }

  /** A freshly created puzzle awaits payment, is priced by its tier, holds a scrambled
      permutation of all of its `gridSize²` tiles, and stores text free of markup and the
      address in lower case. */
  lemma NewPuzzleProperties(v: ValidRequest, token: string, draws: seq<nat>, now: int)
    requires ValidDraws(draws) && |draws| >= 25 && MatchesEmailPattern(v.senderEmail)
    ensures var g := GetGridSize(v.difficulty);
      var p := NewPuzzle(v, token, ShuffledOrder(g * g, draws), now);
      && p.status == PendingPayment && p.paymentReference.None? && p.paidAt.None?
      && p.paymentAmount == Some(Config(v.difficulty).priceKobo)
      && p.gridSize == Config(v.difficulty).gridSize
      && |p.tileOrder| == p.gridSize * p.gridSize
      && IsPermutation(p.tileOrder, p.gridSize * p.gridSize)
      && !IsPuzzleSolved(p.tileOrder)
      && (forall i :: 0 <= i < |p.message| ==> p.message[i] !in Escaped)
      && (forall i :: 0 <= i < |p.senderName| ==> p.senderName[i] !in Escaped)
      && p.senderEmail == ToLowerAscii(v.senderEmail)
  {
    var g := GetGridSize(v.difficulty);
    ShuffledOrderProperties(g * g, draws);
    SanitizedHasNoMarkup(v.message);
    SanitizedHasNoMarkup(v.senderName);
    EmailMatcherIsPattern(v.senderEmail);
    ValidEmailShape(v.senderEmail);
  }

  /** `request.headers.get("x-forwarded-for") || "unknown"`. */
  function ClientAddress(forwardedFor: Option<string>): string {
    if Truthy(forwardedFor) then forwardedFor.value else "unknown"
  }

  function RateKey(forwardedFor: Option<string>): string {
    "create:" + ClientAddress(forwardedFor)
  }

  /** What the handler answers, and the table it leaves, once the rate limit let the
      request through. */
  function Handle(body: Option<CreateBody>, now: int, draws: seq<nat>, newId: PuzzleId, newToken: string,
                  puzzles: map<PuzzleId, Puzzle>): (Response, map<PuzzleId, Puzzle>)
    requires ValidDraws(draws) && |draws| >= 25
  {
    match body
    case None => (Response(500, Error("Failed to create puzzle")), puzzles)
    case Some(b) =>
      match Validate(b, now)
      case Failure(e) => (Response(400, Error(ErrorMessage(e))), puzzles)
      case Success(v) =>
        var g := GetGridSize(v.difficulty);
        (Response(200, Created(newId, newToken, GetPrice(v.difficulty))),
         puzzles[newId := NewPuzzle(v, newToken, ShuffledOrder(g * g, draws), now)])
  }

  /**
   * The handler. `body` is None when the request body is not JSON; `draws` are the
   * shuffle's random indices and `newId`, `newToken` the row id and the `nanoid(12)` token.
   */
  method Post(limiter: RateLimiter, db: Db, forwardedFor: Option<string>, body: Option<CreateBody>, now: int,
              draws: seq<nat>, newId: PuzzleId, newToken: string) returns (resp: Response)
    requires ValidDraws(draws) && |draws| >= 25 && newId !in db.puzzles
    modifies limiter, db
    ensures limiter.store == RateStep(old(limiter.store), RateKey(forwardedFor), CreateLimit, CreateWindowMs, now).1
    ensures db.payments == old(db.payments)
    ensures !RateStep(old(limiter.store), RateKey(forwardedFor), CreateLimit, CreateWindowMs, now).0 ==>
      resp == Response(429, Error("Too many requests. Try again later.")) && db.puzzles == old(db.puzzles)
    ensures RateStep(old(limiter.store), RateKey(forwardedFor), CreateLimit, CreateWindowMs, now).0 ==>
      (resp, db.puzzles) == Handle(body, now, draws, newId, newToken, old(db.puzzles))
  {
    var allowed := limiter.CheckRateLimit(RateKey(forwardedFor), CreateLimit, CreateWindowMs, now);
    if !allowed {
      return Response(429, Error("Too many requests. Try again later."));
    }
    resp := Create(db, body, now, draws, newId, newToken);
  }

  /** The handler past the rate limit: parse, validate, shuffle, insert. */
  method Create(db: Db, body: Option<CreateBody>, now: int, draws: seq<nat>, newId: PuzzleId, newToken: string)
    returns (resp: Response)
    requires ValidDraws(draws) && |draws| >= 25
    modifies db
    ensures db.payments == old(db.payments)
    ensures (resp, db.puzzles) == Handle(body, now, draws, newId, newToken, old(db.puzzles))
  {
    if body.None? {
      return Response(500, Error("Failed to create puzzle"));
    }
    var checked := Validate(body.value, now);
    if checked.Failure? {
      return Response(400, Error(ErrorMessage(checked.error)));
    }
    var v := checked.value;
    var gridSize := GetGridSize(v.difficulty);
    var tileOrder := GenerateShuffledOrder(gridSize * gridSize, draws);
    var amount := GetPrice(v.difficulty);
    db.puzzles := db.puzzles[newId := NewPuzzle(v, newToken, tileOrder, now)];
    resp := Response(200, Created(newId, newToken, amount));
  }
}
