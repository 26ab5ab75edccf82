/** Active hours and adaptive intervals of the heartbeat scheduler. Times are nanoseconds; days have 24 hours. */
module ActiveHours {
  import opened Basics

  const MINUTE: int := 60_000_000_000
  const DAY: int := 1440 * MINUTE

  /** The time zone is a fixed offset: local midnight falls on the times congruent to it. */
  datatype Schedule = Schedule(start: string, end: string, midnight: int)

  predicate IsDigit(c: char) {
    '0' <= c <= '9'
  }

  function Digit(c: char): int
    requires IsDigit(c)
  {
    c as int - '0' as int
  }

  predicate IsScanSpace(c: char) {
    c == ' ' || c == '\t' || c == '\r' || c as int == 0x0B || c as int == 0x0C
  }

  /** A number of at most two characters as Sscanf reads it: perhaps a space or a sign, then digits. */
  function ScanTwo(a: char, b: char): Option<int> {
    if IsDigit(a) && IsDigit(b) then Some(10 * Digit(a) + Digit(b))
    else if (IsScanSpace(a) || a == '+') && IsDigit(b) then Some(Digit(b))
    else if a == '-' && IsDigit(b) then Some(-Digit(b))
    else None
  }

  /** The second number may be followed by anything. */
  function ScanLast(a: char, b: char): Option<int> {
    if IsDigit(a) && !IsDigit(b) then Some(Digit(a)) else ScanTwo(a, b)
  }

  /** Minutes since midnight; the characters of s stand for its bytes. */
  function ParseHHMM(s: string): (r: Option<int>)
    ensures r.Some? ==> 0 <= r.value < 1440
  {
    if |s| != 5 || s[2] != ':' then None
    else
      var h, m := ScanTwo(s[0], s[1]), ScanLast(s[3], s[4]);
      if h.None? || m.None? then None
      else if h.value < 0 || 23 < h.value || m.value < 0 || 59 < m.value then None
      else Some(60 * h.value + m.value)
  }

  function TwoDigits(n: nat): string
    requires n < 100
  {
    [(n / 10 + '0' as int) as char, (n % 10 + '0' as int) as char]
  }

  /** Hours and minutes of two digits each are read as they are written, if there is such a time of day. */
  lemma ClockReads(h: nat, m: nat)
    requires h < 100 && m < 100
    ensures ParseHHMM(TwoDigits(h) + ":" + TwoDigits(m)) == if h < 24 && m < 60 then Some(60 * h + m) else None
  {
    var s := TwoDigits(h) + ":" + TwoDigits(m);
    assert |s| == 5 && s[2] == ':';
    assert s[0] == TwoDigits(h)[0] && s[1] == TwoDigits(h)[1] && s[3] == TwoDigits(m)[0] && s[4] == TwoDigits(m)[1];
    TwoDigitsRead(h);
    TwoDigitsRead(m);
    hide TwoDigits, ScanTwo, ScanLast;
  }

  lemma TwoDigitsRead(n: nat)
    requires n < 100
    ensures var d := TwoDigits(n); ScanTwo(d[0], d[1]) == Some(n) && ScanLast(d[0], d[1]) == Some(n)
  {
  }

  /** Two characters that Sscanf takes for n: two digits, or one behind a space, a plus, or a minus if it is a zero. */
  predicate ReadsAs(s: string, n: nat) {
    || (n < 100 && s == TwoDigits(n))
    || (n < 10 && |s| == 2 && (s[0] == '+' || IsScanSpace(s[0])) && s[1] == TwoDigits(n)[1])
    || (n == 0 && s == "-0")
  }

  /** A time of day is read from exactly these strings; behind one digit of the minutes anything may follow. */
  lemma ParsesIff(s: string, h: nat, m: nat)
    requires h < 24 && m < 60
    ensures ParseHHMM(s) == Some(60 * h + m) <==>
      && |s| == 5 && s[2] == ':' && ReadsAs(s[..2], h)
      && (ReadsAs(s[3..], m) || (m < 10 && s[3] == TwoDigits(m)[1] && !IsDigit(s[4])))
  {
    if |s| == 5 {
      ReadsIff(s[0], s[1], h);
      ReadsIff(s[3], s[4], m);
      assert s[..2] == [s[0], s[1]] && s[3..] == [s[3], s[4]];
      hide ReadsAs, ScanTwo, TwoDigits;
      assert ParseHHMM(s) == Some(60 * h + m) ==> ScanTwo(s[0], s[1]) == Some(h);
    }
  }

  lemma ReadsIff(a: char, b: char, n: nat)
    requires n < 100
    ensures ReadsAs([a, b], n) <==> ScanTwo(a, b) == Some(n)
    ensures IsDigit(a) && !IsDigit(b) ==> (ScanLast(a, b) == Some(n) <==> n < 10 && a == TwoDigits(n)[1])
    ensures !(IsDigit(a) && !IsDigit(b)) ==> ScanLast(a, b) == ScanTwo(a, b)
    ensures IsDigit(a) && !IsDigit(b) ==> ScanTwo(a, b) == None
    ensures n < 10 ==> IsDigit(TwoDigits(n)[1])
  {
  }

  /** Start of the local day of t. */
  function DayStart(cfg: Schedule, t: int): int {
    t - (t - cfg.midnight) % DAY
  }

  /** Whether t lies in the window and, if not, when the window opens next. */
  function IsWithinActiveHours(cfg: Schedule, t: int): (bool, Option<int>) {
    if cfg.start == "" && cfg.end == "" then (true, None)
    else
      var start, end := ParseHHMM(cfg.start), ParseHHMM(cfg.end);
      if start.None? || end.None? then (true, None)
      else
        var windowStart := DayStart(cfg, t) + start.value * MINUTE;
        var windowEnd := DayStart(cfg, t) + end.value * MINUTE;
        if windowEnd <= windowStart then
          if t < windowEnd || windowStart <= t then (true, None) else (false, Some(windowStart))
        else if windowStart <= t && t < windowEnd then (true, None)
        else if t < windowStart then (false, Some(windowStart))
        else (false, Some(windowStart + DAY))
  }

  function AdjustToActiveHours(cfg: Schedule, dueAt: int): int {
    var r := IsWithinActiveHours(cfg, dueAt);
    if !r.0 && r.1.Some? then r.1.value else dueAt
  }

  /** The window by the time of day alone: every day from start to end, over midnight if the end does not come later. */
  predicate InWindow(cfg: Schedule, t: int) {
    var start, end := ParseHHMM(cfg.start), ParseHHMM(cfg.end);
    var clock := (t - cfg.midnight) % DAY;
    if start.None? || end.None? then true
    else if start.value < end.value then start.value * MINUTE <= clock < end.value * MINUTE
    else clock < end.value * MINUTE || start.value * MINUTE <= clock
  }

  /** The clock runs on within a day and over midnight. */
  lemma ClockRunsOn(m: int, t: int, u: int)
    requires t <= u < t - (t - m) % DAY + 2 * DAY
    ensures var c := (t - m) % DAY + (u - t); (u - m) % DAY == if c < DAY then c else c - DAY
  {
  }

  lemma WithinIsInWindow(cfg: Schedule, t: int)
    ensures IsWithinActiveHours(cfg, t).0 == InWindow(cfg, t)
    ensures IsWithinActiveHours(cfg, t).0 <==> IsWithinActiveHours(cfg, t).1.None?
  {
  }

  /** The adjusted time is the least time in the window that does not come before the argument. */
  lemma AdjustIsLeast(cfg: Schedule, t: int)
    ensures var a := AdjustToActiveHours(cfg, t);
      t <= a && InWindow(cfg, a) && forall u :: t <= u < a ==> !InWindow(cfg, u)
  {
    WithinIsInWindow(cfg, t);
    var a := AdjustToActiveHours(cfg, t);
    if !InWindow(cfg, t) {
      NextOpening(cfg, t);
    }
  }

  lemma NextOpening(cfg: Schedule, t: int)
    requires !InWindow(cfg, t)
    ensures var a := AdjustToActiveHours(cfg, t);
      t < a && InWindow(cfg, a) && forall u :: t <= u < a ==> !InWindow(cfg, u)
  {
    WithinIsInWindow(cfg, t);
    hide ParseHHMM;
    var a := AdjustToActiveHours(cfg, t);
    assert 0 <= (t - cfg.midnight) % DAY < DAY;
    ClockRunsOn(cfg.midnight, t, a);
    forall u | t <= u < a
      ensures !InWindow(cfg, u)
    {
      ClockRunsOn(cfg.midnight, t, u);
    }
  }

  // Adaptive intervals

  function Pow2(n: nat): (p: int)
    ensures 1 <= p
  {
    if n == 0 then 1 else 2 * Pow2(n - 1)
  }

  function OrDefault(x: int, default: int): int {
    if x <= 0 then default else x
  }

  function Scaled(base: int, n: nat): int {
    base * Pow2(n)
  }

  /** Minutes until the next run after n consecutive OK answers. */
  function Backoff(base: int, max: int, n: int): int {
    if n <= 0 then OrDefault(base, 30) else Min(Scaled(OrDefault(base, 30), n), OrDefault(max, 120))
  }

  lemma {:induction false} Pow2Grows(m: nat, n: nat)
    requires m <= n
    ensures Pow2(m) <= Pow2(n)
  {
    if m < n {
      Pow2Grows(m, n - 1);
    }
  }

  lemma ScaledGrows(base: int, m: nat, n: nat)
    requires m <= n && 0 < base
    ensures Scaled(base, m) <= Scaled(base, n)
  {
    Pow2Grows(m, n);
    hide Pow2;
    var p, q := Pow2(m), Pow2(n);
    assert 0 <= base * (q - p);
  }

  lemma ScaledStep(base: int, n: nat)
    ensures Scaled(base, n + 1) == 2 * Scaled(base, n) && Scaled(base, 0) == base
  {
  }

  lemma One()
    ensures Pow2(0) == 1
  {
  }

  method AdaptiveInterval(baseMin: int, maxMin: int, consecutiveOk: int) returns (interval: int)
    ensures interval == Backoff(baseMin, maxMin, consecutiveOk) * MINUTE
  {
    var base, max, n := baseMin, maxMin, consecutiveOk;
    if base <= 0 {
      base := 30;
    }
    if max <= 0 {
      max := 120;
    }
    if n < 0 {
      n := 0;
    }
    assert Backoff(baseMin, maxMin, consecutiveOk) == if n == 0 then base else Min(Scaled(base, n), max);
    hide Scaled, Backoff;
    var result := base;
    var i := 0;
    ScaledStep(base, 0);
    while i < n
      invariant 0 <= i <= n
      invariant result == Scaled(base, i) && (0 < i ==> result < max)
    {
      ScaledStep(base, i);
      result := result * 2;
      i := i + 1;
      if max <= result {
        ScaledGrows(base, i, n);
        result := max;
        break;
      }
    }
    return result * MINUTE;
  }

  /** The doubled base capped at the maximum, unless the base alone exceeds it and nothing was doubled. */
  lemma BackoffIsCappedIff(base: int, max: int, n: nat)
    requires 0 < base && 0 < max
    ensures Backoff(base, max, n) == Min(base * Pow2(n), max) <==> 0 < n || base <= max
  {
  }

  /** Three hours and twenty minutes, capped at two hours: the cap does not apply before anything is doubled. */
  lemma BaseCanExceedMaximum()
    ensures Backoff(200, 120, 0) == 200 && Min(Scaled(200, 0), 120) == 120
  {
    ScaledStep(200, 0);
  }

  /** More OK answers never shorten the interval, unless the base exceeds the maximum. */
  lemma BackoffGrows(base: int, max: int, m: int, n: int)
    requires m <= n && OrDefault(base, 30) <= OrDefault(max, 120)
    ensures OrDefault(base, 30) <= Backoff(base, max, m) <= Backoff(base, max, n) <= OrDefault(max, 120)
  {
    var b := OrDefault(base, 30);
    var i, j := if m <= 0 then 0 else m, if n <= 0 then 0 else n;
    ScaledStep(b, 0);
    ScaledGrows(b, 0, i);
    ScaledGrows(b, i, j);
  }
}
