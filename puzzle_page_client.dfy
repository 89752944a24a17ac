/**
 * The solving page: the 24-hour countdown text, and the page state with the transitions
 * its event handlers and effects perform (swap, open, tick, complete).
 */
module PuzzlePageClient {
  import opened Wrappers
  import opened JsText
  import opened Types
  import opened PuzzleLib
  import opened Arith

  /** Whole hours (not capped at a day), minutes and seconds. */
  datatype Clock = Clock(hours: nat, minutes: nat, seconds: nat)

  /** The arithmetic of `formatCountdown` at clock reading `now`: nothing once the target
      is reached, otherwise the remaining whole seconds split into hours, minutes, seconds. */
  function CountdownClock(target: int, now: int): (r: Option<Clock>)
    ensures r.None? <==> target - now <= 0
    ensures r.Some? ==> r.value.minutes < 60 && r.value.seconds < 60
    ensures r.Some? ==> r.value.hours * 3600 + r.value.minutes * 60 + r.value.seconds == (target - now) / 1000
  {
    var diff := target - now;
    if diff <= 0 then None
    else
      var totalSeconds := diff / 1000;
      ClockSplit(totalSeconds);
      Some(Clock(totalSeconds / 3600, (totalSeconds % 3600) / 60, totalSeconds % 60))
  }

  lemma ClockSplit(total: nat)
    ensures (total / 3600) * 3600 + ((total % 3600) / 60) * 60 + total % 60 == total
  {
    var h, r := total / 3600, total % 3600;
    var m, s := r / 60, r % 60;
    assert total == 60 * (60 * h + m) + s;
    DivModUnique(total, 60, 60 * h + m, s);
  }

  /** `formatCountdown`: `HH:MM:SS`, each field zero-padded to at least two digits. */
  function FormatCountdown(target: int, now: int): Option<string> {
    match CountdownClock(target, now)
    case None => None
    case Some(c) => Some(ClockText(c))
  }

  function ClockText(c: Clock): string {
    TwoDigits(c.hours) + ":" + TwoDigits(c.minutes) + ":" + TwoDigits(c.seconds)
  }

  /** Reads a countdown text back: an hours field of two or more digits, then two-digit
      minutes and seconds, separated by colons. */
  function ParseClock(t: string): Option<Clock> {
    var k := |t|;
    if k < 8 || t[k - 6] != ':' || t[k - 3] != ':' then None
    else
      var hh, mm, ss := t[..k - 6], t[k - 5..k - 3], t[k - 2..];
      if AllDigits(hh) && AllDigits(mm) && AllDigits(ss) then
        Some(Clock(DecimalValue(hh), DecimalValue(mm), DecimalValue(ss)))
      else None
  }

  /** The text is absent exactly when the target is reached. Otherwise it reads back as
      the whole seconds remaining, split into hours and minutes and seconds below sixty. */
  lemma CountdownReadsBack(target: int, now: int)
    ensures FormatCountdown(target, now).None? <==> target - now <= 0
    ensures FormatCountdown(target, now).Some? ==>
      && ParseClock(FormatCountdown(target, now).value) == CountdownClock(target, now)
      && var c := CountdownClock(target, now).value;
         c.minutes < 60 && c.seconds < 60 && c.hours * 3600 + c.minutes * 60 + c.seconds == (target - now) / 1000
  {
    if target - now > 0 {
      ClockRoundTrip(CountdownClock(target, now).value);
    }
  }

  /** A clock of minutes and seconds below sixty survives formatting and reading back. */
  lemma ClockRoundTrip(c: Clock)
    requires c.minutes < 60 && c.seconds < 60
    ensures ParseClock(ClockText(c)) == Some(c)
  {
    TwoDigitsValue(c.hours);
    TwoDigitsValue(c.minutes);
    TwoDigitsValue(c.seconds);
    JoinedFields(TwoDigits(c.hours), TwoDigits(c.minutes), TwoDigits(c.seconds));
  }

  /** The three fields of a joined clock text sit at fixed offsets from its end. */
  lemma JoinedFields(hh: string, mm: string, ss: string)
    requires |hh| >= 2 && |mm| == 2 && |ss| == 2
    requires AllDigits(hh) && AllDigits(mm) && AllDigits(ss)
    ensures ParseClock(hh + ":" + mm + ":" + ss) == Some(Clock(DecimalValue(hh), DecimalValue(mm), DecimalValue(ss)))
  {
    FieldOffsets(hh, mm, ss);
  }

  lemma FieldOffsets(hh: string, mm: string, ss: string)
    requires |mm| == 2 && |ss| == 2
    ensures var t := hh + ":" + mm + ":" + ss; var k := |t|;
      && k == |hh| + 6 && t[k - 6] == ':' && t[k - 3] == ':'
      && t[..k - 6] == hh && t[k - 5..k - 3] == mm && t[k - 2..] == ss
  {
    var t := hh + ":" + mm + ":" + ss;
    assert t == (hh + ":" + mm) + (":" + ss);
  }

  /** Under a second left still shows a countdown, of zeros, rather than nothing. */
  lemma SubSecondShowsZeros(target: int, now: int)
    requires 0 < target - now < 1000
    ensures FormatCountdown(target, now) == Some("00:00:00")
  {
    assert CountdownClock(target, now) == Some(Clock(0, 0, 0));
    var z := TwoDigits(0);
    assert Decimal(0) == "0";
    assert |z| == 2 && z[0] == '0' && z[1] == '0';
    assert z == "00";
    assert ClockText(Clock(0, 0, 0)) == z + ":" + z + ":" + z;
    assert z + ":" + z + ":" + z == "00:00:00";
    assert FormatCountdown(target, now) == Some(ClockText(Clock(0, 0, 0)));
  }

  /** A target more than a day away shows the full hour count. */
  lemma HoursNotCapped(target: int, now: int)
    requires target - now == 100 * 3600 * 1000
    ensures FormatCountdown(target, now) == Some("100:00:00")
  {
    assert CountdownClock(target, now) == Some(Clock(100, 0, 0));
    assert Decimal(1) == "1" && Decimal(0) == "0";
    assert Decimal(10) == "10";
    assert Decimal(100) == "100";
    var z := TwoDigits(0);
    assert |z| == 2 && z[0] == '0' && z[1] == '0';
    assert z == "00";
    assert ClockText(Clock(100, 0, 0)) == "100" + ":" + z + ":" + z;
    assert "100" + ":" + z + ":" + z == "100:00:00";
    assert FormatCountdown(target, now) == Some(ClockText(Clock(100, 0, 0)));
  }

  /**
   * The page state: the board, the status as the page last learned it, the expiry and
   * countdown text, the error shown, whether the completion overlay is up, and the two
   * flags kept in refs (an open request is outstanding or done; the completion was
   * recorded). Timestamps are milliseconds since the epoch.
   */
  class PuzzleView {
    var tileOrder: seq<int>
    var status: PuzzleStatus
    var expiresAt: Option<int>
    var timeLeft: Option<string>
    var error: Option<string>
    var showComplete: bool
    var openAttempted: bool
    var completionRecorded: bool

    /** The board takes no more moves once the puzzle is over. */
    predicate Disabled()
      reads this
    {
      status == Expired || status == Completed
    }

    /** The initial state from the server-rendered props at clock reading `now`. */
    constructor (tileOrder: seq<int>, status: PuzzleStatus, expiresAt: Option<int>, now: int)
      ensures this.tileOrder == tileOrder && this.status == status && this.expiresAt == expiresAt
      ensures timeLeft == (if expiresAt.Some? then FormatCountdown(expiresAt.value, now) else None)
      ensures error == None && showComplete == (status == Completed)
      ensures !openAttempted && completionRecorded == (status == Completed)
    {
      this.tileOrder := tileOrder;
      this.status := status;
      this.expiresAt := expiresAt;
      timeLeft := if expiresAt.Some? then FormatCountdown(expiresAt.value, now) else None;
      error := None;
      showComplete := status == Completed;
      openAttempted := false;
      completionRecorded := status == Completed;
    }

    /** `onSwap(from, to)` with two board positions: those two entries trade places. */
    method OnSwap(from: nat, to: nat)
      requires from < |tileOrder| && to < |tileOrder|
      modifies this
      ensures tileOrder == Swapped(old(tileOrder), from, to)
      ensures multiset(tileOrder) == multiset(old(tileOrder))
      ensures status == old(status) && expiresAt == old(expiresAt) && timeLeft == old(timeLeft)
      ensures error == old(error) && showComplete == old(showComplete)
      ensures openAttempted == old(openAttempted) && completionRecorded == old(completionRecorded)
    {
      SwapPermutes(tileOrder, from, to);
      var next := tileOrder;
      var temp := next[from];
      next := next[from := next[to]];
      next := next[to := temp];
      tileOrder := next;
    }

    /** The open effect: sends the open request only for an active puzzle with no attempt
        outstanding, and marks the attempt. */
    method OpenEffect() returns (requestSent: bool)
      modifies this
      ensures requestSent <==> old(status) == Active && !old(openAttempted)
      ensures openAttempted == (old(openAttempted) || requestSent)
      ensures tileOrder == old(tileOrder) && status == old(status) && expiresAt == old(expiresAt)
      ensures timeLeft == old(timeLeft) && error == old(error) && showComplete == old(showComplete)
      ensures completionRecorded == old(completionRecorded)
    {
      requestSent := status == Active && !openAttempted;
      if requestSent {
        openAttempted := true;
      }
    }

    /** The open request succeeded: the puzzle is opened, and an expiry in the answer
        restarts the countdown from it. */
    method OpenSucceeded(responseExpiresAt: Option<int>, now: int)
      requires openAttempted
      modifies this
      ensures status == Opened
      ensures responseExpiresAt.Some? ==>
        expiresAt == responseExpiresAt && timeLeft == FormatCountdown(responseExpiresAt.value, now)
      ensures responseExpiresAt.None? ==> expiresAt == old(expiresAt) && timeLeft == old(timeLeft)
      ensures tileOrder == old(tileOrder) && error == old(error) && showComplete == old(showComplete)
      ensures openAttempted && completionRecorded == old(completionRecorded)
    {
      status := Opened;
      if responseExpiresAt.Some? {
        expiresAt := responseExpiresAt;
        timeLeft := FormatCountdown(responseExpiresAt.value, now);
      }
    }

    /** The open request failed: the attempt is cleared and the error shown; `reason` is the
        `error` field of the answer, if any. */
    method OpenFailed(reason: Option<string>)
      requires openAttempted
      modifies this
      ensures !openAttempted
      ensures error == Some(if reason.Some? && |reason.value| > 0 then reason.value else "Failed to open puzzle")
      ensures tileOrder == old(tileOrder) && status == old(status) && expiresAt == old(expiresAt)
      ensures timeLeft == old(timeLeft) && showComplete == old(showComplete)
      ensures completionRecorded == old(completionRecorded)
    {
      openAttempted := false;
      error := Some(if reason.Some? && |reason.value| > 0 then reason.value else "Failed to open puzzle");
    }

    /** One tick of the countdown interval, which runs only while there is an expiry and
        the puzzle is neither completed nor expired: the text is refreshed, and the puzzle
        expires exactly when the expiry has been reached. */
    method Tick(now: int)
      modifies this
      ensures old(expiresAt).Some? && !old(Disabled()) ==>
        && timeLeft == FormatCountdown(old(expiresAt).value, now)
        && status == (if old(expiresAt).value - now <= 0 then Expired else old(status))
      ensures !(old(expiresAt).Some? && !old(Disabled())) ==>
        timeLeft == old(timeLeft) && status == old(status)
      ensures Disabled() <==> old(Disabled()) || (old(expiresAt).Some? && old(expiresAt).value - now <= 0)
      ensures tileOrder == old(tileOrder) && expiresAt == old(expiresAt) && error == old(error)
      ensures showComplete == old(showComplete)
      ensures openAttempted == old(openAttempted) && completionRecorded == old(completionRecorded)
    {
      if expiresAt.None? || status == Completed || status == Expired {
        return;
      }
      var next := FormatCountdown(expiresAt.value, now);
      CountdownReadsBack(expiresAt.value, now);
      timeLeft := next;
      if next.None? {
        status := Expired;
      }
    }

    /** The completion effect: a solved board on a puzzle that is neither completed nor
        expired, and whose completion was not yet recorded, completes it once; the result
        says whether the celebration and the completion request fire. */
    method CompletionEffect() returns (celebrate: bool)
      modifies this
      ensures celebrate <==> !old(Disabled()) && IsPuzzleSolved(old(tileOrder)) && !old(completionRecorded)
      ensures Disabled() <==> old(Disabled()) || celebrate
      ensures celebrate ==> status == Completed && showComplete && completionRecorded
      ensures !celebrate ==> status == old(status) && showComplete == old(showComplete) && completionRecorded == old(completionRecorded)
      ensures tileOrder == old(tileOrder) && expiresAt == old(expiresAt) && timeLeft == old(timeLeft)
      ensures error == old(error) && openAttempted == old(openAttempted)
    {
      celebrate := status != Completed && status != Expired && IsPuzzleSolved(tileOrder) && !completionRecorded;
      if celebrate {
        completionRecorded := true;
        status := Completed;
        showComplete := true;
      }
    }
  }

  /** Once the completion effect has fired, it never fires again, whatever is done to the
      board in between. */
  method CompletionFiresOnce(view: PuzzleView, from: nat, to: nat) returns (first: bool, second: bool)
    requires from < |view.tileOrder| && to < |view.tileOrder|
    modifies view
    ensures first ==> !second
  {
    first := view.CompletionEffect();
    view.OnSwap(from, to);
    second := view.CompletionEffect();
  }

  /** The open answer can arrive after the puzzle was completed and sets the status back
      to opened on a solved board; the recorded completion alone keeps the completion
      effect from firing a second time. */
  method LateOpenAnswerCannotRecomplete(view: PuzzleView, responseExpiresAt: Option<int>, now: int)
    returns (first: bool, second: bool)
    requires view.status == Active && !view.openAttempted && !view.completionRecorded
    requires IsPuzzleSolved(view.tileOrder)
    modifies view
    ensures first && !second
    ensures view.status == Opened && !view.Disabled() && IsPuzzleSolved(view.tileOrder)
  {
    var sent := view.OpenEffect();
    first := view.CompletionEffect();
    view.OpenSucceeded(responseExpiresAt, now);
    second := view.CompletionEffect();
  }
}
