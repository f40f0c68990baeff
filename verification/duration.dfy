/** `calculateDuration` from the summary sidebar: the time between the
    first and last timestamp, as `<minutes>m <seconds>s`. */
module Duration {
  import opened Wrappers

  /** Whole minutes and the remaining whole seconds. */
  datatype Elapsed = Elapsed(minutes: nat, seconds: nat)

  /** Splits a millisecond difference; a negative difference has no
      duration. */
  function ElapsedFromDiff(diffMs: int): (r: Option<Elapsed>)
    ensures r.None? <==> diffMs < 0
    ensures r.Some? ==> r.value.seconds < 60
    ensures r.Some? ==>
      var total := 60 * r.value.minutes + r.value.seconds;
      1000 * total <= diffMs < 1000 * (total + 1)
  {
    if diffMs < 0 then None
    else
      var totalSeconds := diffMs / 1000;
      Some(Elapsed(totalSeconds / 60, totalSeconds % 60))
  }

  /** The elapsed time is unique: any split with the bounds above is the
      one `ElapsedFromDiff` returns. */
  lemma ElapsedUnique(diffMs: int, e: Elapsed)
    requires e.seconds < 60
    requires 1000 * (60 * e.minutes + e.seconds) <= diffMs < 1000 * (60 * e.minutes + e.seconds + 1)
    ensures ElapsedFromDiff(diffMs) == Some(e)
  {
  }

  /** The decimal digit for `d`. */
  function Digit(d: nat): char
    requires d < 10
  {
    "0123456789"[d]
  }

  /** The number a string of decimal digits stands for. */
  function DecimalValue(s: string): nat
  {
    if |s| == 0 then 0
    else
      var c := s[|s| - 1];
      DecimalValue(s[..|s| - 1]) * 10 + (if '0' <= c <= '9' then c as int - '0' as int else 0)
  }

  /** A number's decimal text, as template-literal interpolation writes
      it: digits only, no leading zero, and reading back to the number. */
  function NatToDecimal(n: nat): (s: string)
    ensures |s| >= 1
    ensures forall i :: 0 <= i < |s| ==> '0' <= s[i] <= '9'
    ensures |s| > 1 ==> s[0] != '0'
    ensures DecimalValue(s) == n
  {
    if n < 10 then [Digit(n)]
    else
      var init := NatToDecimal(n / 10);
      var s := init + [Digit(n % 10)];
      assert s[..|s| - 1] == init;
      s
  }

  /** The sidebar's text for an elapsed time. */
  function Format(e: Elapsed): string
  {
    NatToDecimal(e.minutes) + "m " + NatToDecimal(e.seconds) + "s"
  }

  /** JavaScript truthiness of an optional string: absent and empty are
      both false. */
  predicate Present(s: Option<string>)
  {
    s.Some? && |s.value| > 0
  }

  /** `calculateDuration`. `parseDate` stands for `new Date(..).getTime()`,
      `None` for an invalid date (`NaN`). There is a duration exactly when
      both timestamps are present and valid and the stop is not before the
      start. */
  function CalculateDuration(start: Option<string>, stop: Option<string>,
                             parseDate: string -> Option<int>): (r: Option<string>)
    ensures r.Some? <==>
      && Present(start) && Present(stop)
      && parseDate(start.value).Some? && parseDate(stop.value).Some?
      && parseDate(stop.value).value >= parseDate(start.value).value
    ensures r.Some? ==>
      var diff := parseDate(stop.value).value - parseDate(start.value).value;
      r == Some(Format(ElapsedFromDiff(diff).value))
  {
    if !Present(start) || !Present(stop) then None
    else if parseDate(start.value).None? || parseDate(stop.value).None? then None
    else
      match ElapsedFromDiff(parseDate(stop.value).value - parseDate(start.value).value)
      case None => None
      case Some(e) => Some(Format(e))
  }

  /** Equal timestamps give `0m 0s`. */
  lemma EqualTimestampsGiveZero(ts: string, parseDate: string -> Option<int>)
    requires |ts| > 0 && parseDate(ts).Some?
    ensures CalculateDuration(Some(ts), Some(ts), parseDate) == Some("0m 0s")
  {
    assert ElapsedFromDiff(0) == Some(Elapsed(0, 0));
    assert NatToDecimal(0) == "0";
    assert Format(Elapsed(0, 0)) == "0m 0s";
  }

  /** A stop 61.5 seconds after the start reads `1m 1s`: the half second
      is dropped. */
  lemma PartialSecondDropped(start: string, stop: string, parseDate: string -> Option<int>)
    requires |start| > 0 && |stop| > 0
    requires parseDate(start).Some? && parseDate(stop) == Some(parseDate(start).value + 61500)
    ensures CalculateDuration(Some(start), Some(stop), parseDate) == Some("1m 1s")
  {
    ElapsedUnique(61500, Elapsed(1, 1));
    assert NatToDecimal(1) == "1";
    assert Format(Elapsed(1, 1)) == "1m 1s";
  }
}
