/**
  Start times. The store keeps a TIME column to the second; the driver hands
  it back as "HH:MM:SS" text, and the listing query renders it with
  TO_CHAR(start_time, 'HH24:MI').
 */
module Clock {
  import opened Optional
  import opened Ordering

  datatype TimeOfDay = TimeOfDay(hour: nat, minute: nat, second: nat)

  type Time = t: TimeOfDay | t.hour < 24 && t.minute < 60 && t.second < 60
    witness TimeOfDay(0, 0, 0)

  /** Chronological order within a day. */
  predicate TimeLe(a: Time, b: Time) {
    || a.hour < b.hour
    || (a.hour == b.hour && (a.minute < b.minute || (a.minute == b.minute && a.second <= b.second)))
  }

  /** Seconds since midnight: the value a TIME column compares. */
  function SecondOfDay(t: Time): (n: nat)
    ensures n < 24 * 3600
  {
    t.hour * 3600 + t.minute * 60 + t.second
  }

  /** The field-by-field order is the order of the instants. */
  lemma TimeLeIsChronological(a: Time, b: Time)
    ensures TimeLe(a, b) <==> SecondOfDay(a) <= SecondOfDay(b)
  {
    if a.hour < b.hour {
      assert SecondOfDay(a) < (a.hour + 1) * 3600 <= SecondOfDay(b);
    } else if a.hour > b.hour {
      assert SecondOfDay(b) < (b.hour + 1) * 3600 <= SecondOfDay(a);
    } else if a.minute < b.minute {
      assert SecondOfDay(a) < a.hour * 3600 + (a.minute + 1) * 60 <= SecondOfDay(b);
    } else if a.minute > b.minute {
      assert SecondOfDay(b) < b.hour * 3600 + (b.minute + 1) * 60 <= SecondOfDay(a);
    }
  }

  function Digit(d: nat): (c: char)
    requires d < 10
    ensures '0' <= c <= '9'
  {
    ('0' as int + d) as char
  }

  predicate IsDigit(c: char) {
    '0' <= c <= '9'
  }

  function DigitValue(c: char): (d: nat)
    requires IsDigit(c)
    ensures d < 10 && Digit(d) == c
  {
    c as int - '0' as int
  }

  /** Two zero-padded decimal digits. */
  function Pad2(n: nat): (r: string)
    requires n < 100
    ensures |r| == 2 && IsDigit(r[0]) && IsDigit(r[1])
    ensures DigitValue(r[0]) * 10 + DigitValue(r[1]) == n
  {
    [Digit(n / 10), Digit(n % 10)]
  }

  /** The "HH:MM:SS" text the driver returns for a TIME value. */
  function Render(t: Time): (r: string)
    ensures |r| == 8
  {
    Pad2(t.hour) + ":" + Pad2(t.minute) + ":" + Pad2(t.second)
  }

  /** TO_CHAR(t, 'HH24:MI'): zero-padded 24-hour clock, no seconds. */
  function HourMinute(t: Time): (r: string)
    ensures |r| == 5 && r[2] == ':'
    ensures IsDigit(r[0]) && IsDigit(r[1]) && IsDigit(r[3]) && IsDigit(r[4])
    ensures DigitValue(r[0]) * 10 + DigitValue(r[1]) == t.hour
    ensures DigitValue(r[3]) * 10 + DigitValue(r[4]) == t.minute
  {
    Pad2(t.hour) + ":" + Pad2(t.minute)
  }

  /** JavaScript's text.slice(0, n) for a non-negative n. */
  function Slice(text: string, n: nat): (r: string)
    ensures |r| == if |text| < n then |text| else n
    ensures r == text[..|r|]
  {
    if |text| <= n then text else text[..n]
  }

  /** Reads "HH:MM" text back into an hour and a minute of a valid time. */
  function ParseHourMinute(s: string): (r: Option<(nat, nat)>)
  {
    if |s| == 5 && IsDigit(s[0]) && IsDigit(s[1]) && s[2] == ':' && IsDigit(s[3]) && IsDigit(s[4]) then
      var h := DigitValue(s[0]) * 10 + DigitValue(s[1]);
      var m := DigitValue(s[3]) * 10 + DigitValue(s[4]);
      if h < 24 && m < 60 then Some((h, m)) else None
    else None
  }

  /** The create response and the listing agree: the first five characters of
      the driver's text are exactly TO_CHAR's HH24:MI. */
  lemma SliceOfRenderIsHourMinute(t: Time)
    ensures Slice(Render(t), 5) == HourMinute(t)
  {
    assert Render(t)[..5] == HourMinute(t);
  }

  /** "HH:MM" determines the hour and the minute. */
  lemma ParseHourMinuteRoundTrip(t: Time)
    ensures ParseHourMinute(HourMinute(t)) == Some((t.hour, t.minute))
  {
    var s := HourMinute(t);
    assert s[0..2] == Pad2(t.hour) && s[3..5] == Pad2(t.minute);
  }

  /** Every text the parser accepts is the rendering of a time with that hour and minute. */
  lemma ParseHourMinuteOnlyRendered(s: string)
    requires ParseHourMinute(s).Some?
    ensures var (h, m) := ParseHourMinute(s).value;
      h < 24 && m < 60 && HourMinute(TimeOfDay(h, m, 0)) == s
  {
    var (h, m) := ParseHourMinute(s).value;
    var r := HourMinute(TimeOfDay(h, m, 0));
    assert r[0] == Digit(h / 10) && r[1] == Digit(h % 10);
    assert r[3] == Digit(m / 10) && r[4] == Digit(m % 10);
    assert r == s;
  }

  lemma {:induction false} Pad2Before(a: nat, b: nat, x: string, y: string)
    requires a < b < 100
    ensures LexLe(Pad2(a) + x, Pad2(b) + y)
  {
    if a / 10 < b / 10 {
      FirstDifferenceDecides([], Digit(a / 10), Digit(b / 10), [Digit(a % 10)] + x, [Digit(b % 10)] + y);
      assert Pad2(a) + x == [] + [Digit(a / 10)] + ([Digit(a % 10)] + x);
      assert Pad2(b) + y == [] + [Digit(b / 10)] + ([Digit(b % 10)] + y);
    } else {
      assert a / 10 == b / 10 && a % 10 < b % 10;
      FirstDifferenceDecides([Digit(a / 10)], Digit(a % 10), Digit(b % 10), x, y);
      assert Pad2(a) + x == [Digit(a / 10)] + [Digit(a % 10)] + x;
      assert Pad2(b) + y == [Digit(b / 10)] + [Digit(b % 10)] + y;
    }
  }

  /** Ordering the rendered "HH:MM" texts as text agrees with ordering the times. */
  lemma {:induction false} HourMinuteMonotone(a: Time, b: Time)
    requires TimeLe(a, b)
    ensures LexLe(HourMinute(a), HourMinute(b))
  {
    if a.hour < b.hour {
      Pad2Before(a.hour, b.hour, ":" + Pad2(a.minute), ":" + Pad2(b.minute));
      assert HourMinute(a) == Pad2(a.hour) + (":" + Pad2(a.minute));
      assert HourMinute(b) == Pad2(b.hour) + (":" + Pad2(b.minute));
    } else if a.minute < b.minute {
      Pad2Before(a.minute, b.minute, [], []);
      assert Pad2(a.minute) + [] == Pad2(a.minute) && Pad2(b.minute) + [] == Pad2(b.minute);
      LexCommonPrefix(Pad2(a.hour) + ":", Pad2(a.minute), Pad2(b.minute));
    } else {
      assert HourMinute(a) == HourMinute(b);
      LexReflexive(HourMinute(a));
    }
  }
}
