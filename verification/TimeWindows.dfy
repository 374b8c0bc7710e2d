/** Time-of-day windows on "HH:MM" strings, compared as strings: control/policy/policy.go. */
module TimeWindows {
  import opened StringOrder
  import opened Decimals

  predicate MatchTimeWindow(after: string, before: string, currentTime: string) {
    if Less(before, after) then !Less(currentTime, after) || Less(currentTime, before)
    else !Less(currentTime, after) && Less(currentTime, before)
  }

  /** The windows (a, b) and (b, a) split the day between them: every moment is in exactly one. */
  lemma OppositeWindowsPartition(a: string, b: string, t: string)
    requires a != b
    ensures MatchTimeWindow(a, b, t) <==> !MatchTimeWindow(b, a, t)
  {
    LessIsTotal(a, b);
  }

  lemma EmptyWindow(a: string, t: string)
    ensures !MatchTimeWindow(a, a, t)
  {
    LessIsTotal(a, a);
  }

  /** A window holds exactly one time, its start, iff its end is the very next string. */
  lemma WindowIsOnePoint(after: string, before: string, v: string)
    requires after != before
    ensures (forall t :: MatchTimeWindow(after, before, t) ==> t == v) <==> v == after && before == Successor(after)
  {
    LessIsTotal(after, before);
    LessIsTotal(after, after);
    LessThanSuccessor(after);
    LessIsTotal(after, Successor(after));
    LessIsTotal(before, Successor(after));
    assert MatchTimeWindow(after, before, after);
    NothingBelowSuccessor(after, before);
    if forall t :: MatchTimeWindow(after, before, t) ==> t == v {
      assert after == v;
      assert Successor(after) != after;
      assert !MatchTimeWindow(after, before, Successor(after));
    }
    if v == after && before == Successor(after) {
      forall t | MatchTimeWindow(after, before, t) ensures t == v {
        LessIsTotal(t, after);
        NothingBelowSuccessor(after, t);
      }
    }
  }

  predicate IsTime(s: string) {
    && |s| == 5 && s[2] == ':'
    && '0' <= s[0] <= '9' && '0' <= s[1] <= '9' && '0' <= s[3] <= '5' && '0' <= s[4] <= '9'
    && 10 * Digit(s[0]) + Digit(s[1]) < 24
  }

  function Minutes(s: string): (m: int)
    requires IsTime(s)
    ensures 0 <= m < 1440
  {
    60 * (10 * Digit(s[0]) + Digit(s[1])) + 10 * Digit(s[3]) + Digit(s[4])
  }

  function Clock(hour: nat, minute: nat): string
    requires hour < 24 && minute < 60
  {
    ['0' + (hour / 10) as char, '0' + (hour % 10) as char, ':', '0' + (minute / 10) as char, '0' + (minute % 10) as char]
  }

  lemma TwoDigits(n: nat)
    requires n < 60
    ensures var t, u := '0' + (n / 10) as char, '0' + (n % 10) as char;
      '0' <= t <= '5' && '0' <= u <= '9' && 10 * Digit(t) + Digit(u) == n
  {
  }

  /** Hours and minutes in two digits each are a time of day, 60 minutes to the hour. */
  lemma ClockIsTime(hour: nat, minute: nat)
    requires hour < 24 && minute < 60
    ensures IsTime(Clock(hour, minute)) && Minutes(Clock(hour, minute)) == 60 * hour + minute
  {
    TwoDigits(hour);
    TwoDigits(minute);
  }

  /** On times of day, string order is minute order. */
  lemma StringOrderIsMinuteOrder(a: string, b: string)
    requires IsTime(a) && IsTime(b)
    ensures Less(a, b) <==> Minutes(a) < Minutes(b)
  {
    assert Less(a[1..], b[1..]) <==> a[1] < b[1] || (a[1] == b[1] && Less(a[2..], b[2..])) by {
      assert a[1..][1..] == a[2..] && b[1..][1..] == b[2..];
    }
    assert Less(a[2..], b[2..]) <==> Less(a[3..], b[3..]) by {
      assert a[2..][1..] == a[3..] && b[2..][1..] == b[3..];
    }
    assert Less(a[3..], b[3..]) <==> a[3] < b[3] || (a[3] == b[3] && Less(a[4..], b[4..])) by {
      assert a[3..][1..] == a[4..] && b[3..][1..] == b[4..];
    }
    assert Less(a[4..], b[4..]) <==> a[4] < b[4] by {
      assert a[4..][1..] == "" && b[4..][1..] == "";
    }
  }

  /** On a 24-hour clock the window is the arc that runs from `after` round to `before`, past midnight
      if need be. */
  lemma WindowIsAnArc(after: string, before: string, t: string)
    requires IsTime(after) && IsTime(before) && IsTime(t)
    ensures MatchTimeWindow(after, before, t) <==>
      (Minutes(t) - Minutes(after)) % 1440 < (Minutes(before) - Minutes(after)) % 1440
  {
    StringOrderIsMinuteOrder(before, after);
    StringOrderIsMinuteOrder(t, after);
    StringOrderIsMinuteOrder(t, before);
    ModDay(Minutes(t) - Minutes(after));
    ModDay(Minutes(before) - Minutes(after));
  }

  lemma ModDay(d: int)
    requires -1440 < d < 1440
    ensures d % 1440 == if d >= 0 then d else d + 1440
  {
  }
}
