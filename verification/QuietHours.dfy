/** Quiet hours of an agent schedule: HH:MM bounds and the daily interval they span. */
module QuietHours {
  import opened Wrappers
  import opened Text

  const DAY: nat := 24 * 60

  /** `str::parse::<u16>` */
  function ParseU16(s: string): Option<nat> {
    var n := ParseUsize(s);
    if n.Some? && n.value <= 0xFFFF then n else None
  }

  function ParseLocalMinute(value: string): (r: Option<nat>)
    ensures r.Some? ==> r.value < DAY
  {
    match SplitOnce(value, ':')
    case None => None
    case Some((hourText, minuteText)) =>
      var hour, minute := ParseU16(hourText), ParseU16(minuteText);
      if hour.None? || minute.None? then None
      else if hour.value > 23 || minute.value > 59 || Utf8Len(hourText) != 2 || Utf8Len(minuteText) != 2 then None
      else Some(hour.value * 60 + minute.value)
  }

  predicate IsQuiet(start: nat, end: nat, minute: nat) {
    if start < end then start <= minute < end
    else if start > end then minute >= start || minute < end
    else false
  }

  /** Minutes from `from` forward to `to` around the clock. */
  function Forward(from: nat, to: nat): nat
    requires from < DAY && to < DAY
  {
    if from <= to then to - from else DAY - from + to
  }

  /** A minute is quiet exactly when, going round the clock from the start, it comes before the end. */
  lemma QuietIsTheArc(start: nat, end: nat, minute: nat)
    requires start < DAY && end < DAY && minute < DAY
    ensures IsQuiet(start, end, minute) <==> Forward(start, minute) < Forward(start, end)
  {
  }

  function TwoDigits(n: nat): string
    requires n < 100
  {
    [DigitChar(n / 10), DigitChar(n % 10)]
  }

  lemma TwoDigitsParse(n: nat)
    requires n < 100
    ensures ParseU16(TwoDigits(n)) == Some(n) && Utf8Len(TwoDigits(n)) == 2 && ':' !in TwoDigits(n)
  {
    var s := TwoDigits(n);
    assert s[..|s| - 1] == [DigitChar(n / 10)];
    assert [DigitChar(n / 10)][..0] == [];
    assert DigitsValue([DigitChar(n / 10)]) == n / 10;
    assert DigitsValue(s) == n;
    assert Utf8Len(s[1..][1..]) == 0;
    assert Utf8Len(s[1..]) == 1;
  }

  function Printed(minute: nat): string
    requires minute < DAY
  {
    TwoDigits(minute / 60) + ":" + TwoDigits(minute % 60)
  }

  /** Every minute of the day is read back from its HH:MM form. */
  lemma LocalMinuteReadsBack(minute: nat)
    requires minute < DAY
    ensures ParseLocalMinute(Printed(minute)) == Some(minute)
  {
    TwoDigitsParse(minute / 60);
    TwoDigitsParse(minute % 60);
    SplitOnceJoined(TwoDigits(minute / 60), ':', TwoDigits(minute % 60));
    assert TwoDigits(minute / 60) + ":" + TwoDigits(minute % 60)
        == TwoDigits(minute / 60) + [':'] + TwoDigits(minute % 60);
  }

  // ----- which strings are accepted -------------------------------------------------------

  /** Two digits, or a plus sign and one. */
  predicate IsField(s: string) {
    |s| == 2 && (IsDigit(s[0]) || s[0] == '+') && IsDigit(s[1])
  }

  function FieldValue(s: string): nat
    requires IsField(s)
  {
    (if s[0] == '+' then 0 else 10 * DigitValue(s[0])) + DigitValue(s[1])
  }

  lemma {:induction false} AsciiLength(s: string)
    requires forall i :: 0 <= i < |s| ==> IsDigit(s[i]) || s[i] == '+'
    ensures Utf8Len(s) == |s|
  {
    if s != [] {
      AsciiLength(s[1..]);
    }
  }

  /** A field of two bytes is read exactly if it has that form, and as that number. */
  lemma FieldIff(s: string)
    ensures ParseU16(s).Some? && Utf8Len(s) == 2 <==> IsField(s)
    ensures IsField(s) ==> ParseU16(s) == Some(FieldValue(s)) && ':' !in s
  {
    var digits := if |s| > 0 && s[0] == '+' then s[1..] else s;
    if ParseU16(s).Some? {
      SignedDigits(s, digits);
    }
    if IsField(s) {
      AsciiLength(s);
      DigitsOfField(s, digits);
    }
  }

  lemma SignedDigits(s: string, digits: string)
    requires digits == (if |s| > 0 && s[0] == '+' then s[1..] else s) && digits != []
    requires AllDigits(digits)
    ensures Utf8Len(s) == 2 <==> IsField(s)
  {
    if s[0] == '+' {
      assert forall i :: 1 <= i < |s| ==> s[i] == digits[i - 1];
    }
    AsciiLength(s);
  }

  lemma DigitsOfField(s: string, digits: string)
    requires IsField(s) && digits == (if s[0] == '+' then s[1..] else s)
    ensures AllDigits(digits) && DigitsValue(digits) == FieldValue(s)
  {
    var last := |digits| - 1;
    assert digits[last] == s[1];
    if s[0] != '+' {
      assert digits[..last] == [s[0]];
      assert [s[0]][..0] == [];
      assert DigitsValue([s[0]]) == DigitValue(s[0]);
    } else {
      assert digits[..last] == [];
    }
  }

  /** Two such fields in range around a colon. */
  predicate IsHourMinute(value: string) {
    |value| == 5 && value[2] == ':' && IsField(value[..2]) && IsField(value[3..])
    && FieldValue(value[..2]) <= 23 && FieldValue(value[3..]) <= 59
  }

  /** Exactly those strings are accepted, with that minute. */
  lemma AcceptedIff(value: string)
    ensures ParseLocalMinute(value).Some? <==> IsHourMinute(value)
    ensures IsHourMinute(value) ==>
      ParseLocalMinute(value) == Some(FieldValue(value[..2]) * 60 + FieldValue(value[3..]))
  {
    if IsHourMinute(value) {
      FieldIff(value[..2]);
      FieldIff(value[3..]);
      assert value == value[..2] + [':'] + value[3..];
      SplitOnceJoined(value[..2], ':', value[3..]);
    }
    if ParseLocalMinute(value).Some? {
      var (hour, minute) := SplitOnce(value, ':').value;
      FieldIff(hour);
      FieldIff(minute);
      assert value[..2] == hour && value[3..] == minute;
    }
  }

  lemma PrintedField(s: string)
    requires IsField(s)
    ensures FieldValue(s) < 100 && (s == TwoDigits(FieldValue(s)) <==> '+' !in s)
  {
    var n := FieldValue(s);
    if s[0] != '+' {
      assert n / 10 == DigitValue(s[0]) && n % 10 == DigitValue(s[1]);
      assert DigitChar(n / 10) == s[0] && DigitChar(n % 10) == s[1];
    } else {
      assert IsDigit(TwoDigits(n)[0]);
    }
  }

  /** An accepted string has the promised form HH:MM exactly if it has no sign. */
  lemma HourMinuteFormIff(value: string)
    requires ParseLocalMinute(value).Some?
    ensures value == Printed(ParseLocalMinute(value).value) <==> '+' !in value
  {
    AcceptedIff(value);
    var hour, minute := value[..2], value[3..];
    PrintedField(hour);
    PrintedField(minute);
    var total := FieldValue(hour) * 60 + FieldValue(minute);
    assert total / 60 == FieldValue(hour) && total % 60 == FieldValue(minute);
    assert value == hour + ":" + minute;
    var printed := Printed(total);
    assert printed[..2] == TwoDigits(FieldValue(hour)) && printed[3..] == TwoDigits(FieldValue(minute));
    assert printed == value <==> printed[..2] == hour && printed[3..] == minute;
  }

  /** There are accepted strings with one. */
  lemma SignIsAccepted()
    ensures ParseLocalMinute("+9:05") == Some(545)
  {
    AcceptedIff("+9:05");
    assert "+9:05"[..2] == "+9" && "+9:05"[3..] == "05";
  }
}
