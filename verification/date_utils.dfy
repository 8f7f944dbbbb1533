/**
 * The "today" window of the lunch app, in integer milliseconds.
 *
 * `toLocaleString` with the America/Port_of_Spain zone and the server's local time are
 * parameters: `wall(t)` is the Port of Spain wall-clock reading of instant `t`, written as
 * milliseconds since 1970-01-01 00:00 of that clock, and `offset` is the server's constant
 * distance from UTC, so that the server reads instant `t` as `t + offset`. Re-parsing the
 * wall-clock text gives the instant the server reads as `wall(t)`, that is `wall(t) - offset`;
 * `setHours` then moves along the server's clock.
 */
module DateUtils {
  const DayMs := 86400000
  /** 23:59:59.999 after midnight. */
  const LastMsOfDay := 23 * 3600000 + 59 * 60000 + 59 * 1000 + 999

  /** Milliseconds since the server-local midnight before `t`. */
  function TimeOfDay(t: int, offset: int): (r: int)
    ensures 0 <= r < DayMs
  {
    (t + offset) % DayMs
  }

  /** `setHours(0, 0, 0, 0)`: the server-local midnight that starts `t`'s day. */
  function Midnight(t: int, offset: int): (r: int)
    ensures r <= t < r + DayMs
    ensures TimeOfDay(r, offset) == 0
  {
    var r := t - TimeOfDay(t, offset);
    assert (r + offset) % DayMs == 0 by {
      assert r + offset == ((t + offset) / DayMs) * DayMs;
    }
    r
  }

  /** `normalizeDateToTrinidad`: midnight of the day the Port of Spain clock shows at `date`. */
  function NormalizeDateToTrinidad(date: int, wall: int -> int, offset: int): (r: int)
    ensures TimeOfDay(r, offset) == 0
    ensures r <= wall(date) - offset < r + DayMs
  {
    Midnight(wall(date) - offset, offset)
  }

  /** `getTrinidadToday`: the same normalization applied to the current instant. */
  function GetTrinidadToday(now: int, wall: int -> int, offset: int): int {
    NormalizeDateToTrinidad(now, wall, offset)
  }

  datatype DayRange = DayRange(startOfDay: int, endOfDay: int)

  /** `getTrinidadDateRange`: today's midnight re-zeroed, and 23:59:59.999 of the same day. */
  function GetTrinidadDateRange(now: int, wall: int -> int, offset: int): (r: DayRange)
    ensures r.startOfDay == GetTrinidadToday(now, wall, offset)
    ensures r.endOfDay - r.startOfDay == LastMsOfDay
    ensures r.startOfDay < r.endOfDay
  {
    var today := GetTrinidadToday(now, wall, offset);
    MidnightIdempotent(today, offset);
    var start := Midnight(today, offset);
    var end := Midnight(today, offset) + LastMsOfDay;
    DayRange(start, end)
  }

  /** Zeroing the time of a midnight changes nothing. */
  lemma MidnightIdempotent(t: int, offset: int)
    requires TimeOfDay(t, offset) == 0
    ensures Midnight(t, offset) == t
  {
  }

  /** Two instants whose midnights agree lie on the same server-local day. */
  predicate SameDay(s: int, t: int, offset: int) {
    Midnight(s, offset) == Midnight(t, offset)
  }

  /** An instant lies in the window exactly when it falls on the window's day, both ends included. */
  predicate InRange(r: DayRange, t: int) {
    r.startOfDay <= t <= r.endOfDay
  }

  /** The window is the whole local day of its start: in it exactly when on the same day. */
  lemma RangeIsDay(now: int, wall: int -> int, offset: int, t: int)
    ensures var r := GetTrinidadDateRange(now, wall, offset);
      InRange(r, t) <==> SameDay(t, r.startOfDay, offset)
  {
    var r := GetTrinidadDateRange(now, wall, offset);
    var s := r.startOfDay;
    var m := Midnight(t, offset);
    MidnightIdempotent(s, offset);
    if InRange(r, t) {
      MidnightOfSameDay(s, t, offset);
    }
    if SameDay(t, s, offset) {
      assert m == s;
    }
  }

  /** Any instant within a day of a midnight has that midnight as its own. */
  lemma MidnightOfSameDay(s: int, t: int, offset: int)
    requires TimeOfDay(s, offset) == 0
    requires s <= t < s + DayMs
    ensures Midnight(t, offset) == s
  {
    var q := (s + offset) / DayMs;
    assert s + offset == q * DayMs;
    assert q * DayMs <= t + offset < (q + 1) * DayMs;
    assert (t + offset) / DayMs == q;
  }
}
