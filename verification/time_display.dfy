/** The summary line for the chosen time (the `time` change handler in
    js/app.js): an `HH:MM` value from the time input is shown as
    `h:MM AM` or `h:MM PM`, with the hour computed as `hours % 12 || 12`. */
module TimeDisplay {
  import opened Wrappers
  import opened Text

  /** A time of day as the summary shows it. */
  datatype Clock12 = Clock12(hour: nat, minutes: string, pm: bool)

  /** The 24-hour hour a 12-hour reading denotes. */
  function To24(c: Clock12): nat {
    c.hour % 12 + (if c.pm then 12 else 0)
  }

  /** `parseInt(hours) % 12 || 12` and `parseInt(hours) >= 12 ? 'PM' : 'AM'`;
      the minutes text is carried through untouched. */
  function To12(hours: nat, minutes: string): (c: Clock12)
    ensures 1 <= c.hour <= 12 && c.hour % 12 == hours % 12
    ensures c.pm <==> hours >= 12
    ensures c.minutes == minutes
    ensures hours == 0 ==> c.hour == 12 && !c.pm
    ensures hours == 12 ==> c.hour == 12 && c.pm
    ensures hours <= 23 ==> To24(c) == hours
  {
    var h := hours % 12;
    Clock12(if h == 0 then 12 else h, minutes, hours >= 12)
  }

  /** Every 12-hour reading is the display of the hour it denotes. */
  lemma To12OfTo24(c: Clock12)
    requires 1 <= c.hour <= 12
    ensures To12(To24(c), c.minutes) == c
  {
  }

  /** The template literal `${displayHours}:${minutes} ${ampm}`. */
  function Render(c: Clock12): string {
    NatToDecimal(c.hour) + ":" + c.minutes + " " + (if c.pm then "PM" else "AM")
  }

  /** Reads a summary line back into its parts: the digits before the first
      `:`, the text up to the final ` AM` or ` PM`, and that suffix. */
  function ReadClock(text: string): Option<Clock12> {
    match IndexOf(text, ':')
    case None => None
    case Some(i) =>
      if |text| < i + 4 then None
      else
        var digits := text[..i];
        var suffix := text[|text| - 3..];
        if !AllDigits(digits) || (suffix != " AM" && suffix != " PM") then None
        else Some(Clock12(DigitsValue(digits), text[i + 1..|text| - 3], suffix == " PM"))
  }

  /** The three parts of `x + y + z` can be cut back out of it. */
  lemma SplitThree(x: string, y: string, z: string)
    ensures (x + y + z)[..|x|] == x
    ensures (x + y + z)[|x|..|x| + |y|] == y
    ensures (x + y + z)[|x| + |y|..] == z
  {
  }

  /** A summary line can be read back whenever the minutes text holds no `:`. */
  lemma RenderRoundTrip(c: Clock12)
    requires forall k :: 0 <= k < |c.minutes| ==> c.minutes[k] != ':'
    ensures ReadClock(Render(c)) == Some(c)
  {
    var d := NatToDecimal(c.hour);
    var head := d + ":";
    var tail := if c.pm then " PM" else " AM";
    var text := Render(c);
    assert text == head + c.minutes + tail;
    SplitThree(head, c.minutes, tail);
    assert text[..|d|] == d;
    assert forall k :: 0 <= k < |d| ==> text[k] == d[k] && text[k] != ':';
    IndexOfUnique(text, ':', |d|);
    assert text[|d| + 1..|text| - 3] == c.minutes;
    assert text[|text| - 3..] == tail;
    assert tail == " PM" <==> c.pm;
    DecimalRoundTrip(c.hour);
  }

  /** The value of an `<input type="time">` with minute precision. */
  predicate IsTimeValue(value: string) {
    && |value| == 5
    && IsDigit(value[0]) && IsDigit(value[1])
    && value[2] == ':'
    && IsDigit(value[3]) && IsDigit(value[4])
  }

  /** `parseInt` of the text before the `:`. */
  function Hours(value: string): nat
    requires IsTimeValue(value)
  {
    DigitsValue(value[..2])
  }

  /** The summary text for a time value. Reading it back yields an hour in
      1..12, the PM flag exactly for afternoon hours, the minutes as entered,
      and, for hours up to 23, the entered hour again. The hour is written
      without a leading zero, so these facts leave only one possible text. */
  function SummaryTime(value: string): (text: string)
    requires IsTimeValue(value)
    ensures ReadClock(text).Some?
    ensures 1 <= ReadClock(text).value.hour <= 12
    ensures ReadClock(text).value.hour % 12 == Hours(value) % 12
    ensures ReadClock(text).value.pm <==> Hours(value) >= 12
    ensures ReadClock(text).value.minutes == value[3..]
    ensures Hours(value) <= 23 ==> To24(ReadClock(text).value) == Hours(value)
    ensures text[0] != '0'
  {
    var c := To12(Hours(value), value[3..]);
    assert forall k :: 0 <= k < |c.minutes| ==> c.minutes[k] == value[3 + k];
    RenderRoundTrip(c);
    assert Render(c)[0] == NatToDecimal(c.hour)[0];
    Render(c)
  }
}
