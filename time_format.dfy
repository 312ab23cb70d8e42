/** `formatTimeAgo` of the admin cache page (src/app/admin/cache/page.tsx:101-106):
    the time since a fetch as "<m>m <s>s ago" or "<s>s ago". */
module TimeFormat {
  import opened Text

  /** The quotient of `a / b` rounded toward zero, as JavaScript's `%`
      divides. */
  function Trunc(a: int, b: int): int
    requires b > 0
  {
    if a >= 0 then a / b else -((-a) / b)
  }

  /** JavaScript's `a % b`: what is left after taking the truncated
      quotient, so the remainder keeps the sign of the dividend. */
  function JsRem(a: int, b: int): (r: int)
    requires b > 0
    ensures a == b * Trunc(a, b) + r
    ensures a >= 0 ==> 0 <= r < b && r == a % b
    ensures a < 0 ==> -b < r <= 0
  {
    if a >= 0 then a % b
    else
      assert -a == b * ((-a) / b) + (-a) % b;
      -((-a) % b)
  }

  /** `Math.floor(diff / 60000)`. Dividing by a positive number, Dafny's
      `/` rounds down, as `Math.floor` of the quotient does. */
  function Minutes(diff: int): (m: int)
    ensures 60000 * m <= diff < 60000 * m + 60000
  {
    diff / 60000
  }

  /** `Math.floor((diff % 60000) / 1000)`. */
  function Seconds(diff: int): (sec: int)
    ensures 1000 * sec <= JsRem(diff, 60000) < 1000 * sec + 1000
    ensures -60 <= sec <= 59
  {
    JsRem(diff, 60000) / 1000
  }

  /** The text always ends with the seconds and "s ago". */
  function FormatTimeAgo(now: int, timestamp: int): (t: string)
    ensures EndsWith(t, IntToString(Seconds(now - timestamp)) + "s ago")
  {
    var diff := now - timestamp;
    var tail := IntToString(Seconds(diff)) + "s ago";
    if Minutes(diff) > 0 then
      EndsWithConcat(IntToString(Minutes(diff)) + "m ", tail);
      assert IntToString(Minutes(diff)) + "m " + IntToString(Seconds(diff)) + "s ago"
          == (IntToString(Minutes(diff)) + "m ") + tail;
      (IntToString(Minutes(diff)) + "m ") + tail
    else
      EndsWithConcat([], tail);
      assert [] + tail == tail;
      tail
  }

  /** For a past timestamp the seconds are 0..59 and, with the minutes,
      make up the whole seconds elapsed. */
  lemma SecondsSplit(diff: int)
    requires diff >= 0
    ensures 0 <= Seconds(diff) <= 59 && Minutes(diff) >= 0
    ensures 60 * Minutes(diff) + Seconds(diff) == diff / 1000
  {
    var m, r := diff / 60000, diff % 60000;
    assert diff == 60000 * m + r;
    assert diff / 1000 == 60 * m + r / 1000 by {
      assert diff == 1000 * (60 * m + r / 1000) + r % 1000;
    }
  }

  /** Under a minute ago: the whole seconds elapsed, e.g. "42s ago". */
  lemma UnderAMinute(now: int, timestamp: int)
    requires 0 <= now - timestamp < 60000
    ensures FormatTimeAgo(now, timestamp) == IntToString((now - timestamp) / 1000) + "s ago"
  {
    SecondsSplit(now - timestamp);
  }

  /** A minute or more ago: the whole minutes, then the seconds left over
      from the whole seconds elapsed, e.g. "3m 7s ago". */
  lemma AtLeastAMinute(now: int, timestamp: int)
    requires now - timestamp >= 60000
    ensures var t := (now - timestamp) / 1000;
      FormatTimeAgo(now, timestamp) == IntToString(t / 60) + "m " + IntToString(t % 60) + "s ago"
  {
    var diff := now - timestamp;
    var t := diff / 1000;
    SecondsSplit(diff);
    assert Minutes(diff) > 0;
    assert t / 60 == Minutes(diff) && t % 60 == Seconds(diff);
  }

  /** For a future timestamp (a clock ahead of the server's) the minutes are
      negative or zero and the seconds lie in -60..0. */
  lemma FutureSeconds(diff: int)
    requires diff < 0
    ensures Minutes(diff) <= -1 && -60 <= Seconds(diff) <= 0
  {
  }

  /** The minutes are shown exactly when at least a minute has passed. */
  lemma MinutesShownIff(now: int, timestamp: int)
    ensures 'm' in FormatTimeAgo(now, timestamp) <==> now - timestamp >= 60000
  {
    var diff := now - timestamp;
    NoLetterInNumber(Seconds(diff));
    var tail := IntToString(Seconds(diff)) + "s ago";
    assert 'm' !in "s ago";
    assert 'm' !in tail;
    if Minutes(diff) > 0 {
      var s := FormatTimeAgo(now, timestamp);
      assert s[|IntToString(Minutes(diff))|] == 'm';
    }
  }

  /** A rendered integer is digits with an optional minus sign. */
  lemma NoLetterInNumber(i: int)
    ensures 'm' !in IntToString(i)
  {
    var s := IntToString(i);
    var digits := if i >= 0 then NatToString(i) else NatToString(-i);
    assert AllDigits(digits);
    assert !IsDigit('m');
    if i < 0 {
      assert s == "-" + digits;
    }
  }
}
