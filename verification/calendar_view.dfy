/**
 The hour column of the calendar: one label per hour from 5 to 24, each the
 hour on a 12-hour clock followed by "AM" or "PM".
 */
module CalendarView {
  import opened Wrappers
  import opened Text

  const FirstHour: int := 5
  const LastHour: int := 24

  /** `hour <= 12 ? hour : hour - 12`: the 12-hour-clock value of a positive
      hour, the one number in 1..12 congruent to it modulo 12. */
  function DisplayHour(hour: int): (d: int)
    ensures hour >= 0 ==> d >= 0
    ensures 1 <= hour <= 24 ==> 1 <= d <= 12 && (hour - d) % 12 == 0
  {
    if hour <= 12 then hour else hour - 12
  }

  /** `hour < 12 ? 'AM' : 'PM'`. */
  function Meridiem(hour: int): (m: string)
    ensures |m| == 2 && (m == "AM" || m == "PM")
    ensures m == "AM" <==> hour < 12
  {
    if hour < 12 then "AM" else "PM"
  }

  /** `${displayHour}${ampm}`: the displayed hour in decimal digits with no
      leading zero, then the two-letter suffix. */
  function HourLabel(hour: int): (s: string)
    requires hour >= 0
    ensures |s| >= 3
    ensures AllDigits(s[..|s| - 2]) && DecimalValue(s[..|s| - 2]) == DisplayHour(hour)
    ensures s[0] == '0' ==> DisplayHour(hour) == 0 && |s| == 3
    ensures s[|s| - 2..] == Meridiem(hour)
  {
    var digits := NatToString(DisplayHour(hour));
    DecimalRoundTrip(DisplayHour(hour));
    var s := digits + Meridiem(hour);
    assert s[..|s| - 2] == digits;
    assert s[|s| - 2..] == Meridiem(hour);
    s
  }

  /** One rendered slot: its React key and its text. */
  datatype TimeLabel = TimeLabel(key: int, text: string)

  /** `renderTimeLabels`: exactly twenty slots, keyed by the hours 5 to 24 in
      increasing order (so the keys are distinct), each showing that hour's
      label. */
  method RenderTimeLabels() returns (labels: seq<TimeLabel>)
    ensures |labels| == LastHour - FirstHour + 1 == 20
    ensures forall i :: 0 <= i < |labels| ==>
      labels[i].key == FirstHour + i && labels[i].text == HourLabel(labels[i].key)
    ensures forall i, j :: 0 <= i < j < |labels| ==> labels[i].key < labels[j].key
  {
    labels := [];
    var hour := FirstHour;
    while hour <= LastHour
      invariant FirstHour <= hour <= LastHour + 1
      invariant |labels| == hour - FirstHour
      invariant forall i :: 0 <= i < |labels| ==> labels[i] == TimeLabel(FirstHour + i, HourLabel(FirstHour + i))
    {
      labels := labels + [TimeLabel(hour, HourLabel(hour))];
      hour := hour + 1;
    }
  }

  /** How a reader understands a label: digits 1..12 then "AM" or "PM", read
      on the 24-hour clock (12AM is 0, 12PM is 12). */
  function ClockHour(text: string): (h: Option<int>)
    ensures h.Some? ==> 0 <= h.value <= 23
  {
    if |text| < 3 then None
    else
      var digits, suffix := text[..|text| - 2], text[|text| - 2..];
      if !AllDigits(digits) then None
      else
        var d := DecimalValue(digits);
        if !(1 <= d <= 12) then None
        else if suffix == "AM" then Some(if d == 12 then 0 else d)
        else if suffix == "PM" then Some(if d == 12 then 12 else d + 12)
        else None
  }

  /** Every label from 5 to 23 reads back as its own hour; the label of hour
      24 reads as noon, not midnight. */
  lemma LabelReadsBack(hour: int)
    requires FirstHour <= hour <= LastHour
    ensures ClockHour(HourLabel(hour)) == Some(if hour == 24 then 12 else hour)
  {
    var d := DisplayHour(hour);
    var s := HourLabel(hour);
    DecimalRoundTrip(d);
    assert s[..|s| - 2] == NatToString(d);
    assert s[|s| - 2..] == Meridiem(hour);
  }

  /** Two hours of the column share a label exactly when they are 12 and 24:
      both read "12PM". */
  lemma LabelsCollideOnlyAtNoonAndMidnight(a: int, b: int)
    requires FirstHour <= a <= LastHour && FirstHour <= b <= LastHour
    ensures HourLabel(a) == HourLabel(b) <==> a == b || (a == 12 && b == 24) || (a == 24 && b == 12)
  {
    LabelReadsBack(a);
    LabelReadsBack(b);
    if (a == 12 && b == 24) || (a == 24 && b == 12) {
      assert DisplayHour(a) == DisplayHour(b) == 12;
      assert Meridiem(a) == Meridiem(b) == "PM";
    }
  }
}
