/** `timeAgo` of src/utils/dateHelpers.js: elapsed time as a French phrase. The current time is the
    parameter `now`; a date is its timestamp in milliseconds, or marked falsy or unparsable. */
module DateHelpers {
  import Text

  /** The units `timeAgo` tries, largest first. */
  datatype Unit = Year | Month | Day | Hour | Minute

  /** The length of a unit in seconds. */
  function UnitSeconds(u: Unit): nat
  {
    match u
    case Year => 31536000
    case Month => 2592000
    case Day => 86400
    case Hour => 3600
    case Minute => 60
  }

  /** The word printed after the count, with its leading space. */
  function UnitWord(u: Unit): string
  {
    match u
    case Year => " an"
    case Month => " mois"
    case Day => " jour"
    case Hour => " heure"
    case Minute => " minute"
  }

  /** Whole seconds between `past` and `now`: `Math.floor((now - past) / 1000)`. Dafny's division by a
      positive number rounds toward negative infinity, as `Math.floor` does. */
  function ElapsedSeconds(past: int, now: int): int
  {
    (now - past) / 1000
  }

  /** The argument of `timeAgo`: falsy, a value `new Date` cannot parse (an invalid date, whose time is
      NaN), or a timestamp in milliseconds. */
  datatype DateArg = Falsy | Unparsable | At(ms: int)

  /** `timeAgo(date)`: "" for a falsy date; for an invalid date every `interval > 1` test on NaN fails and
      the last line prints `Math.floor(NaN)`; otherwise the phrase for the elapsed whole seconds. */
  function TimeAgo(date: DateArg, now: int): (r: string)
    ensures date.Falsy? ==> r == ""
    ensures date.Unparsable? ==> r == "NaN seconde"
    ensures date.At? ==> r == Describe(ElapsedSeconds(date.ms, now))
  {
    match date
    case Falsy => ""
    case Unparsable => "NaN seconde"
    case At(ms) => Describe(ElapsedSeconds(ms, now))
  }

  /** The cascade of `timeAgo` on `seconds`. Each source test `seconds / unit > 1` on numbers is the
      integer test `seconds > unit`, and `Math.floor(seconds / unit)` is `seconds / unit` here. */
  function Describe(seconds: int): string
  {
    if seconds > 31536000 then
      var years := seconds / 31536000;
      Text.IntToString(years) + " an" + (if years > 1 then "s" else "")
    else if seconds > 2592000 then
      var months := seconds / 2592000;
      Text.IntToString(months) + " mois"
    else if seconds > 86400 then
      var days := seconds / 86400;
      Text.IntToString(days) + " jour" + (if days > 1 then "s" else "")
    else if seconds > 3600 then
      var hours := seconds / 3600;
      Text.IntToString(hours) + " heure" + (if hours > 1 then "s" else "")
    else if seconds > 60 then
      var minutes := seconds / 60;
      Text.IntToString(minutes) + " minute" + (if minutes > 1 then "s" else "")
    else
      Text.IntToString(seconds) + " seconde" + (if seconds > 1 then "s" else "")
  }

  /** `u` is the unit `timeAgo` reports in: the largest unit that `seconds` strictly exceeds. */
  predicate IsReportedUnit(seconds: int, u: Unit)
  {
    seconds > UnitSeconds(u) && forall v :: UnitSeconds(v) > UnitSeconds(u) ==> seconds <= UnitSeconds(v)
  }

  /** The phrase for a count in a unit: the count, the unit word, and a plural "s" when the count is
      above one, except for "mois", which never takes one. */
  function Phrase(count: int, u: Unit): string
  {
    Text.IntToString(count) + UnitWord(u) + (if count > 1 && u != Month then "s" else "")
  }

  /** In every unit branch the count printed is at least 1 and is the number of whole units in the
      elapsed time, and the unit is the largest one the elapsed time exceeds. */
  lemma DescribeUnit(seconds: int, u: Unit)
    requires IsReportedUnit(seconds, u)
    ensures seconds / UnitSeconds(u) >= 1
    ensures Describe(seconds) == Phrase(seconds / UnitSeconds(u), u)
  {
    assert UnitSeconds(Year) > UnitSeconds(Month) > UnitSeconds(Day) > UnitSeconds(Hour) > UnitSeconds(Minute);
    match u
    case Year =>
    case Month =>
      assert seconds <= UnitSeconds(Year);
    case Day =>
      assert seconds <= UnitSeconds(Month);
    case Hour =>
      assert seconds <= UnitSeconds(Day);
    case Minute =>
      assert seconds <= UnitSeconds(Hour);
  }

  /** Every elapsed time above one minute has exactly one reported unit. */
  lemma ReportedUnitExists(seconds: int)
    requires seconds > 60
    ensures exists u :: IsReportedUnit(seconds, u)
    ensures forall u, v :: IsReportedUnit(seconds, u) && IsReportedUnit(seconds, v) ==> u == v
  {
    var u := if seconds > 31536000 then Year else if seconds > 2592000 then Month
             else if seconds > 86400 then Day else if seconds > 3600 then Hour else Minute;
    assert IsReportedUnit(seconds, u);
  }

  /** One minute or less, including the negative values of dates in the future, is counted in seconds;
      the plural "s" appears exactly when the count is above one. */
  lemma DescribeSeconds(seconds: int)
    requires seconds <= 60
    ensures Describe(seconds) == Text.IntToString(seconds) + " seconde" + (if seconds > 1 then "s" else "")
  {
  }

  /** The thresholds are strict: exactly one day reads "24 heures", exactly one hour "60 minutes". */
  lemma StrictThresholds()
    ensures Describe(86400) == "24 heures"
    ensures Describe(3600) == "60 minutes"
    ensures Describe(60) == "60 secondes"
  {
    TwoDigitCounts();
    DescribeSeconds(60);
    DescribeUnit(86400, Hour);
    DescribeUnit(3600, Minute);
  }

  lemma TwoDigitCounts()
    ensures Text.IntToString(24) == "24" && Text.IntToString(60) == "60"
  {
    assert Text.NatToString(24) == Text.NatToString(2) + [Text.DigitChar(4)];
    assert Text.NatToString(60) == Text.NatToString(6) + [Text.DigitChar(0)];
  }
}
