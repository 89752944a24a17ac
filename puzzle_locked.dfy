/** The countdown on the locked page of a puzzle whose reveal time is still ahead. */
module PuzzleLocked {
  import opened Wrappers
  import opened Arith

  // The divisors `1000`, `1000 * 60`, `1000 * 60 * 60` and `1000 * 60 * 60 * 24`.
  const MsPerSecond: nat := 1000
  const MsPerMinute: nat := 60000
  const MsPerHour: nat := 3600000
  const MsPerDay: nat := 86400000

  datatype Remaining = Remaining(days: nat, hours: nat, minutes: nat, seconds: nat)

  /** The milliseconds the four fields stand for together. */
  function TotalMs(r: Remaining): nat {
    r.days * 86400000 + r.hours * 3600000 + r.minutes * 60000 + r.seconds * 1000
  }

  /** `getTimeRemaining(target)` at clock reading `now`: nothing once the target is reached;
      otherwise whole days, and the hours, minutes and seconds left over, so that the fields
      account for the time left to within the final partial second. */
  function GetTimeRemaining(target: int, now: int): (r: Option<Remaining>)
    ensures r.None? <==> target - now <= 0
    ensures r.Some? ==> r.value.hours < 24 && r.value.minutes < 60 && r.value.seconds < 60
    ensures r.Some? ==> TotalMs(r.value) <= target - now < TotalMs(r.value) + MsPerSecond
  {
    var diff := target - now;
    if diff <= 0 then None
    else
      var r := Remaining(diff / MsPerDay, (diff % MsPerDay) / MsPerHour,
                         (diff % MsPerHour) / MsPerMinute, (diff % MsPerMinute) / MsPerSecond);
      Decomposition(diff);
      Some(r)
  }

  /** The nested remainders: each coarser unit's remainder splits into the next unit and the
      next remainder, because every divisor divides the one above it. */
  lemma Decomposition(diff: nat)
    ensures (diff % 86400000) / 3600000 < 24
    ensures (diff % 3600000) / 60000 < 60
    ensures (diff % 60000) / 1000 < 60
    ensures diff == (diff / 86400000) * 86400000 + ((diff % 86400000) / 3600000) * 3600000
                    + ((diff % 3600000) / 60000) * 60000 + ((diff % 60000) / 1000) * 1000 + diff % 1000
  {
    var d, r1 := diff / 86400000, diff % 86400000;
    var h, r2 := r1 / 3600000, r1 % 3600000;
    assert diff == 86400000 * d + r1;
    assert r1 == 3600000 * h + r2;
    assert diff == 3600000 * (24 * d + h) + r2;
    DivModUnique(diff, 3600000, 24 * d + h, r2);
    var m, r3 := r2 / 60000, r2 % 60000;
    assert r2 == 60000 * m + r3;
    assert diff == 60000 * (60 * (24 * d + h) + m) + r3;
    DivModUnique(diff, 60000, 60 * (24 * d + h) + m, r3);
    var s, r4 := r3 / 1000, r3 % 1000;
    assert r3 == 1000 * s + r4;
    assert diff == 1000 * (60 * (60 * (24 * d + h) + m) + s) + r4;
    DivModUnique(diff, 1000, 60 * (60 * (24 * d + h) + m) + s, r4);
  }

  /** The fields are the only ones within those bounds that account for the time left, so
      the countdown is the mixed-radix reading of it. */
  lemma RemainingUnique(target: int, now: int, r: Remaining)
    requires r.hours < 24 && r.minutes < 60 && r.seconds < 60
    requires 0 < target - now && TotalMs(r) <= target - now < TotalMs(r) + MsPerSecond
    ensures GetTimeRemaining(target, now) == Some(r)
  {
    var diff := target - now;
    var rest := diff - TotalMs(r);
    DivModUnique(diff, 86400000, r.days, r.hours * 3600000 + r.minutes * 60000 + r.seconds * 1000 + rest);
    DivModUnique(diff, 3600000, 24 * r.days + r.hours, r.minutes * 60000 + r.seconds * 1000 + rest);
    DivModUnique(diff, 60000, 60 * (24 * r.days + r.hours) + r.minutes, r.seconds * 1000 + rest);
    DivModUnique(diff % 86400000, 3600000, r.hours, r.minutes * 60000 + r.seconds * 1000 + rest);
    DivModUnique(diff % 3600000, 60000, r.minutes, r.seconds * 1000 + rest);
    DivModUnique(diff % 60000, 1000, r.seconds, rest);
  }

  /** A labelled field of the countdown display. */
  datatype TimeUnit = TimeUnit(name: string, value: nat)

  /** The `units` list: empty when nothing remains, otherwise the four fields in the order
      days, hours, minutes, seconds. */
  function Units(remaining: Option<Remaining>): (units: seq<TimeUnit>)
    ensures remaining.None? <==> units == []
    ensures remaining.Some? ==>
      && |units| == 4
      && units[0].name == "days" && units[1].name == "hrs" && units[2].name == "min" && units[3].name == "sec"
      && units[0].value == remaining.value.days && units[1].value == remaining.value.hours
      && units[2].value == remaining.value.minutes && units[3].value == remaining.value.seconds
      && TotalMs(Remaining(units[0].value, units[1].value, units[2].value, units[3].value)) == TotalMs(remaining.value)
  {
    match remaining
    case None => []
    case Some(r) =>
      [TimeUnit("days", r.days), TimeUnit("hrs", r.hours), TimeUnit("min", r.minutes), TimeUnit("sec", r.seconds)]
  }
}
