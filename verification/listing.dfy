/**
 * Two small pieces of `xl list` and `xl uptime` output: the shutdown-reason
 * letter in the state column, and the split of an uptime into days, hours,
 * minutes and seconds.
 */
module Listing {
  import opened Wrappers
  import opened Restart

  // ---------------------------------------------------------------------
  // The shutdown-reason letter
  // ---------------------------------------------------------------------

  /** One letter per known shutdown reason, indexed by its code. */
  const SHUTDOWN_LETTERS: string := "-rscwS"

  /** The fifth state letter: a domain that is not shut down counts as reason 0. */
  function ShutdownLetter(shutdown: bool, reasonCode: int): (c: char)
    ensures !shutdown ==> c == '-'
    ensures c == '?' <==> shutdown && ReasonOfCode(reasonCode).UnknownReason?
  {
    var code := if shutdown then reasonCode else 0;
    if 0 <= code < |SHUTDOWN_LETTERS| then SHUTDOWN_LETTERS[code] else '?'
  }

  /** The reason a state letter stands for, where it stands for one. */
  function ReasonOfLetter(c: char): (r: Option<ShutdownReason>)
    ensures r.Some? ==> !r.value.UnknownReason? && r.value != PowerOff
  {
    match c
    case 'r' => Some(Reboot)
    case 's' => Some(Suspend)
    case 'c' => Some(Crash)
    case 'w' => Some(Watchdog)
    case 'S' => Some(SoftReset)
    case _ => None
  }

  /**
   * The letter identifies every known reason except power-off, whose letter
   * '-' is the same as "not shut down".
   */
  lemma {:induction false} LetterNamesReason(shutdown: bool, reasonCode: int)
    ensures ReasonOfLetter(ShutdownLetter(shutdown, reasonCode)).Some? <==>
      shutdown && 1 <= reasonCode <= 5
    ensures shutdown && 1 <= reasonCode <= 5 ==>
      ReasonOfLetter(ShutdownLetter(shutdown, reasonCode)) == Some(ReasonOfCode(reasonCode))
    ensures shutdown && reasonCode == 0 ==> ShutdownLetter(shutdown, reasonCode) == ShutdownLetter(false, 0)
  {
    var code := if shutdown then reasonCode else 0;
    if 0 <= code < 6 {
      assert SHUTDOWN_LETTERS[code] == ['-', 'r', 's', 'c', 'w', 'S'][code];
    }
  }

  // ---------------------------------------------------------------------
  // Uptime as days, hours, minutes and seconds
  // ---------------------------------------------------------------------

  const SECONDS_PER_DAY: nat := 86400
  const ULONG_LIMIT: nat := 0x1_0000_0000_0000_0000
  const INT_LIMIT: nat := 0x8000_0000

  /** A value of C type unsigned long on a 64-bit host. */
  type ulong = x: nat | x < ULONG_LIMIT

  datatype Clock = Clock(day: int, hour: int, min: int, sec: int)

  /** The intended split: whole days, then hours, minutes and seconds within the day. */
  function Uptime(uptime: nat): (c: Clock)
    ensures c.day >= 0 && 0 <= c.hour < 24 && 0 <= c.min < 60 && 0 <= c.sec < 60
    ensures c.day * SECONDS_PER_DAY + c.hour * 3600 + c.min * 60 + c.sec == uptime
  {
    var rest := uptime % SECONDS_PER_DAY;
    Clock(uptime / SECONDS_PER_DAY, rest / 3600, rest % 3600 / 60, rest % 60)
  }

  /** Any split with those bounds that adds up to the uptime is this one. */
  lemma {:induction false} UptimeUnique(uptime: nat, c: Clock)
    requires c.day >= 0 && 0 <= c.hour < 24 && 0 <= c.min < 60 && 0 <= c.sec < 60
    requires c.day * SECONDS_PER_DAY + c.hour * 3600 + c.min * 60 + c.sec == uptime
    ensures Uptime(uptime) == c
  {
    var within := c.hour * 3600 + c.min * 60 + c.sec;
    assert 0 <= within < SECONDS_PER_DAY;
    DivModDay(uptime, c.day, within);
    DivModHour(within, c.hour, c.min * 60 + c.sec);
    DivModMinute(c.min * 60 + c.sec, c.min, c.sec);
    DivModMinute(within, c.hour * 60 + c.min, c.sec);
  }

  lemma DivModDay(x: int, q: int, r: int)
    requires 0 <= r < SECONDS_PER_DAY && x == q * SECONDS_PER_DAY + r
    ensures x / SECONDS_PER_DAY == q && x % SECONDS_PER_DAY == r
  {
  }

  lemma DivModHour(x: int, q: int, r: int)
    requires 0 <= r < 3600 && x == q * 3600 + r
    ensures x / 3600 == q && x % 3600 == r
  {
  }

  lemma DivModMinute(x: int, q: int, r: int)
    requires 0 <= r < 60 && x == q * 60 + r
    ensures x / 60 == q && x % 60 == r
  {
  }

  /** The conversion of a wider integer to a 32-bit int, as the compiler does it. */
  function Int32(x: int): (r: int)
    ensures -(INT_LIMIT as int) <= r < INT_LIMIT
    ensures 0 <= x < INT_LIMIT ==> r == x
    ensures INT_LIMIT <= x < 0x1_0000_0000 + INT_LIMIT ==> r == x - 0x1_0000_0000
  {
    var m := x % 0x1_0000_0000;
    if m >= INT_LIMIT then m - 0x1_0000_0000 else m
  }

  /** An int converted to unsigned long, or an unsigned long subtraction, wrapping modulo 2^64. */
  function ULong(x: int): (r: ulong)
    ensures 0 <= x < ULONG_LIMIT ==> r == x
  {
    x % ULONG_LIMIT
  }

  /**
   * The split as uptime_to_string computes it: the quotients are stored in
   * ints and multiplied back in int arithmetic before being subtracted from
   * the unsigned long.
   */
  function UptimeAsWritten(uptime: ulong): (c: Clock)
    ensures uptime < 24856 * SECONDS_PER_DAY ==> c == Uptime(uptime)
  {
    var day := Int32(uptime / SECONDS_PER_DAY);
    var u1 := ULong(uptime - Int32(day * SECONDS_PER_DAY));
    var hour := Int32(u1 / 3600);
    var u2 := ULong(u1 - Int32(hour * 3600));
    var min := Int32(u2 / 60);
    var u3 := ULong(u2 - Int32(min * 60));
    var c := Clock(day, hour, min, Int32(u3));
    if uptime < 24856 * SECONDS_PER_DAY then
      UptimeAsWrittenInRange(uptime);
      c
    else c
  }

  lemma UptimeAsWrittenInRange(uptime: ulong)
    requires uptime < 24856 * SECONDS_PER_DAY
    ensures
      var day := uptime / SECONDS_PER_DAY;
      var u1 := uptime - day * SECONDS_PER_DAY;
      && Int32(day) == day && Int32(day * SECONDS_PER_DAY) == day * SECONDS_PER_DAY
      && u1 == uptime % SECONDS_PER_DAY && Int32(u1 / 3600 * 3600) == u1 / 3600 * 3600
  {
    var day := uptime / SECONDS_PER_DAY;
    assert day <= 24855;
    assert day * SECONDS_PER_DAY <= 24855 * SECONDS_PER_DAY;
  }

  /**
   * From 24856 days on, day * 86400 no longer fits an int: the hours,
   * minutes and seconds come out wrong.
   */
  lemma UptimeOverflows()
    ensures UptimeAsWritten(24856 * SECONDS_PER_DAY) == Clock(24856, 1193046, 71582816, 32)
    ensures Uptime(24856 * SECONDS_PER_DAY) == Clock(24856, 0, 0, 0)
  {
    var uptime := 24856 * SECONDS_PER_DAY;
    DivModDay(uptime, 24856, 0);
    // day * 86400 wraps to a negative int, so the subtraction adds to the uptime
    assert Int32(2147558400) == -2147408896;
    assert ULong(uptime - -2147408896) == 4294967296;
    DivModHour(4294967296, 1193046, 1696);
    assert Int32(1193046 * 3600) == -1696;
    assert ULong(4294967296 - -1696) == 4294968992;
    DivModMinute(4294968992, 71582816, 32);
    assert Int32(71582816 * 60) == 1664;
    assert ULong(4294968992 - 1664) == 4294967328;
    assert Int32(4294967328) == 32;
  }
}
