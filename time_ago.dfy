/** `formatTimeAgo` of a rendered post: how long ago a timestamp was, in the
    largest whole unit that has elapsed. The clock reading `now` is a parameter. */
module TimeAgo {
  import opened Decimal

  const MinuteMs := 60000
  const HourMs := 3600000
  const DayMs := 86400000

  /** Which branch of the if/else chain is taken, and with which count. */
  datatype Elapsed = Days(n: nat) | Hours(n: nat) | Minutes(n: nat) | JustNow

  /** The three `Math.floor` divisions and the branch they select. For a
      positive divisor Dafny's `/` rounds down, as `Math.floor` does. */
  function Classify(now: int, timestamp: int): (e: Elapsed)
    ensures var diff := now - timestamp;
      && (e.Days? <==> diff >= DayMs)
      && (e.Hours? <==> HourMs <= diff < DayMs)
      && (e.Minutes? <==> MinuteMs <= diff < HourMs)
      && (e.JustNow? <==> diff < MinuteMs)
      && (e.Days? ==> e.n * DayMs <= diff < (e.n + 1) * DayMs)
      && (e.Hours? ==> e.n * HourMs <= diff < (e.n + 1) * HourMs && e.n <= 23)
      && (e.Minutes? ==> e.n * MinuteMs <= diff < (e.n + 1) * MinuteMs && e.n <= 59)
      && (!e.JustNow? ==> e.n >= 1)
  {
    var diff := now - timestamp;
    var minutes := diff / MinuteMs;
    var hours := diff / HourMs;
    var days := diff / DayMs;
    if days > 0 then Days(days)
    else if hours > 0 then Hours(hours)
    else if minutes > 0 then Minutes(minutes)
    else JustNow
  }

  /** `${n} unit${n > 1 ? "s" : ""} ago`. */
  function Counted(n: nat, unit: string): string {
    NatToString(n) + " " + unit + (if n > 1 then "s" else "") + " ago"
  }

  function Render(e: Elapsed): string {
    match e
    case Days(n) => Counted(n, "day")
    case Hours(n) => Counted(n, "hour")
    case Minutes(n) => Counted(n, "min")
    case JustNow => "Just now"
  }

  /** `formatTimeAgo(timestamp)` with `Date.now()` given as `now`. */
  function FormatTimeAgo(timestamp: int, now: int): string {
    Render(Classify(now, timestamp))
  }

  predicate EndsWith(s: string, suffix: string) {
    |suffix| <= |s| && s[|s| - |suffix|..] == suffix
  }

  /** A counted phrase starts with the numeral of its count and a space, and
      ends in "s ago" exactly when the count is above one. */
  lemma CountedParts(n: nat, unit: string)
    requires unit != [] && unit[|unit| - 1] != 's'
    ensures var s := Counted(n, unit); var k := |NatToString(n)|;
      && k < |s| && AllDigits(s[..k]) && ParseNat(s[..k]) == n && s[k] == ' '
      && (EndsWith(s, "s ago") <==> n > 1)
  {
    CountedNumeral(n, unit);
    CountedPlural(n, unit);
  }

  /** The phrase begins with the count's numeral, then a space. */
  lemma CountedNumeral(n: nat, unit: string)
    ensures var s := Counted(n, unit); var k := |NatToString(n)|;
      && k < |s| && s[..k] == NatToString(n) && s[k] == ' '
      && AllDigits(s[..k]) && ParseNat(s[..k]) == n
  {
    var digits := NatToString(n);
    var tail := " " + unit + (if n > 1 then "s" else "") + " ago";
    assert Counted(n, unit) == digits + tail;
    assert (digits + tail)[..|digits|] == digits;
    ParseNatToString(n);
  }

  /** The phrase is plural exactly when the count is above one. */
  lemma CountedPlural(n: nat, unit: string)
    requires unit != [] && unit[|unit| - 1] != 's'
    ensures EndsWith(Counted(n, unit), "s ago") <==> n > 1
  {
    var s := Counted(n, unit);
    var pre := NatToString(n) + " " + unit;
    if n > 1 {
      assert s == pre + "s ago";
      assert s[|pre|..] == "s ago";
    } else {
      assert s == pre + " ago";
      assert s[|s| - 5] == pre[|pre| - 1] == unit[|unit| - 1];
      assert s[|s| - 5..][0] != "s ago"[0];
    }
  }

  /** "Just now" is shown exactly when less than a minute has passed, a
      future timestamp included. */
  lemma JustNowIff(timestamp: int, now: int)
    ensures FormatTimeAgo(timestamp, now) == "Just now" <==> now - timestamp < MinuteMs
  {
    var e := Classify(now, timestamp);
    if !e.JustNow? {
      var s := FormatTimeAgo(timestamp, now);
      assert s[0] == NatToString(e.n)[0];
      assert IsDigit(s[0]);
    }
  }

  /** Past the first minute, the text starts with the number of whole units
      elapsed and is plural exactly when that number is above one. */
  lemma FormatTimeAgoParts(timestamp: int, now: int)
    requires now - timestamp >= MinuteMs
    ensures var e := Classify(now, timestamp); var s := FormatTimeAgo(timestamp, now);
      var k := |NatToString(e.n)|;
      && k < |s| && AllDigits(s[..k]) && ParseNat(s[..k]) == e.n && s[k] == ' '
      && (EndsWith(s, "s ago") <==> e.n > 1)
  {
    var e := Classify(now, timestamp);
    match e
    case Days(n) => CountedParts(n, "day");
    case Hours(n) => CountedParts(n, "hour");
    case Minutes(n) => CountedParts(n, "min");
  }
}
