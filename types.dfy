/**
 * The enumerations, the fixed difficulty table and the puzzle record of the
 * application (src/types/index.ts).
 */
module Types {
  import opened Wrappers
  import opened JsText

  datatype Difficulty = Easy | Medium | Hard

  datatype PuzzleStatus = PendingPayment | Active | Opened | Completed | Expired

  /** The wire names of the difficulty tiers. */
  function DifficultyName(d: Difficulty): string {
    match d
    case Easy => "easy"
    case Medium => "medium"
    case Hard => "hard"
  }

  /** The tiers' order from easiest to hardest. */
  function Rank(d: Difficulty): nat {
    match d
    case Easy => 0
    case Medium => 1
    case Hard => 2
  }

  /** The wire names of the puzzle statuses. */
  function StatusName(s: PuzzleStatus): string {
    match s
    case PendingPayment => "pending_payment"
    case Active => "active"
    case Opened => "opened"
    case Completed => "completed"
    case Expired => "expired"
  }

  /** A status name read back from the wire; exactly the five names are accepted. */
  function ParseStatus(s: string): (r: Option<PuzzleStatus>)
    ensures r.Some? ==> StatusName(r.value) == s
    ensures forall st: PuzzleStatus :: StatusName(st) == s ==> r == Some(st)
  {
    if s == "pending_payment" then Some(PendingPayment)
    else if s == "active" then Some(Active)
    else if s == "opened" then Some(Opened)
    else if s == "completed" then Some(Completed)
    else if s == "expired" then Some(Expired)
    else None
  }

  /** A difficulty read from a request: exactly the three own keys of the table. */
  function ParseDifficulty(s: string): (r: Option<Difficulty>)
    ensures r.Some? <==> s == "easy" || s == "medium" || s == "hard"
    ensures r.Some? ==> DifficultyName(r.value) == s
  {
    if s == "easy" then Some(Easy)
    else if s == "medium" then Some(Medium)
    else if s == "hard" then Some(Hard)
    else None
  }

  lemma ParseDifficultyName(d: Difficulty)
    ensures ParseDifficulty(DifficultyName(d)) == Some(d)
  {
  }

  datatype DifficultyConfig = DifficultyConfig(gridSize: nat, tierLabel: string, description: string, priceKobo: nat)

  /** `DIFFICULTY_CONFIG`: grid dimension, label (`tierLabel`), description and price in kobo per tier. */
  function Config(d: Difficulty): DifficultyConfig {
    match d
    case Easy => DifficultyConfig(3, "Easy", "3×3 grid — 9 pieces", 100000)
    case Medium => DifficultyConfig(4, "Medium", "4×4 grid — 16 pieces", 200000)
    case Hard => DifficultyConfig(5, "Hard", "5×5 grid — 25 pieces", 350000)
  }

  /** The description a tier of grid dimension `g` is expected to carry. */
  function GridDescription(g: nat): string {
    Decimal(g) + "×" + Decimal(g) + " grid — " + Decimal(g * g) + " pieces"
  }

  /** Every description names the tier's grid dimension and its square as the piece count. */
  lemma DescriptionsStatePieceCount(d: Difficulty)
    ensures Config(d).description == GridDescription(Config(d).gridSize)
  {
    match d
    case Easy => DescribesGrid3();
    case Medium => DescribesGrid4();
    case Hard => DescribesGrid5();
  }

  lemma DescribesGrid3() ensures GridDescription(3) == "3×3 grid — 9 pieces" {
    assert Decimal(3) == "3" && Decimal(9) == "9";
  }

  lemma DescribesGrid4() ensures GridDescription(4) == "4×4 grid — 16 pieces" {
    assert Decimal(4) == "4";
    assert Decimal(16) == Decimal(1) + [DigitChar(6)] == "16";
  }

  lemma DescribesGrid5() ensures GridDescription(5) == "5×5 grid — 25 pieces" {
    assert Decimal(5) == "5";
    assert Decimal(25) == Decimal(2) + [DigitChar(5)] == "25";
  }

  /** The table's grid dimensions and prices, and prices strictly rise with difficulty. */
  lemma ConfigTable()
    ensures Config(Easy).gridSize == 3 && Config(Medium).gridSize == 4 && Config(Hard).gridSize == 5
    ensures Config(Easy).priceKobo == 100000 && Config(Medium).priceKobo == 200000 && Config(Hard).priceKobo == 350000
    ensures Config(Easy).priceKobo < Config(Medium).priceKobo < Config(Hard).priceKobo
  {
  }

  /** A puzzle row of the `puzzles` table (its key, the row id, is kept outside the record).
      Timestamps are milliseconds since the epoch; `revealAt` is stored as the text the
      creator sent. */
  datatype Puzzle = Puzzle(
    token: string,
    imageUrl: string,
    difficulty: Difficulty,
    gridSize: nat,
    message: string,
    senderName: string,
    senderEmail: string,
    tileOrder: seq<int>,
    status: PuzzleStatus,
    paymentReference: Option<string>,
    paymentAmount: Option<nat>,
    paidAt: Option<int>,
    revealAt: Option<string>,
    firstOpenedAt: Option<int>,
    expiresAt: Option<int>,
    completedAt: Option<int>,
    createdAt: int
  )
}
