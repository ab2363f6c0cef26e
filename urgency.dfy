/** The "time left" cell of a task row. */
module Urgency {
  import opened Wrappers

  /** The colour bucket of the cell; the style strings themselves are not modelled. */
  datatype Shade = Slate | FadedBlue | PulsingRed | Red | FadedRed | Yellow | Emerald

  /** What `getTimeLeft` returns: the label and its colour bucket. */
  datatype TimeLeft = TimeLeft(text: string, shade: Shade)

  predicate IsDigit(c: char)
  {
    '0' <= c <= '9'
  }

  predicate AllDigits(s: string)
  {
    forall i :: 0 <= i < |s| ==> IsDigit(s[i])
  }

  function DigitChar(d: nat): (c: char)
    requires d < 10
    ensures IsDigit(c) && c as int - '0' as int == d
  {
    ('0' as int + d) as char
  }

  /** The decimal notation JavaScript gives a non-negative integer in a template
      literal (day counts never reach the exponent notation of 1e21). */
  function Decimal(n: nat): (s: string)
    ensures |s| > 0 && AllDigits(s)
    ensures |s| > 1 ==> s[0] != '0'
  {
    if n < 10 then [DigitChar(n)] else Decimal(n / 10) + [DigitChar(n % 10)]
  }

  /** The number a string of decimal digits denotes. */
  function DecimalValue(s: string): nat
    requires AllDigits(s)
  {
    if s == [] then 0
    else DecimalValue(s[..|s| - 1]) * 10 + (s[|s| - 1] as int - '0' as int)
  }

  /** Reading the notation back gives the number. */
  lemma {:induction false} DecimalRoundTrip(n: nat)
    ensures DecimalValue(Decimal(n)) == n
  {
    var s := Decimal(n);
    if n >= 10 {
      DecimalRoundTrip(n / 10);
      assert s[..|s| - 1] == Decimal(n / 10);
    }
  }

  const DaysSuffix: string := " DAYS"

  /** The "<n> DAYS" label. */
  function DaysLabel(n: nat): string
  {
    Decimal(n) + DaysSuffix
  }

  /** The day count a label carries, if it is a "<digits> DAYS" label. */
  function DaysIn(text: string): Option<nat>
  {
    var k := |text| - |DaysSuffix|;
    if k > 0 && text[k..] == DaysSuffix && AllDigits(text[..k])
    then Some(DecimalValue(text[..k]))
    else None
  }

  /** `getTimeLeft(deadline, isDone)`. `diffDays` is the whole-day difference
      between the deadline and today that the source computes from the date;
      it is consulted only once the task is open and has a deadline. The seven
      buckets come each with the exact inputs that lead to it, so the split is
      total and its cases exclude each other, and each fixed bucket has its
      fixed label. */
  function GetTimeLeft(deadline: Option<string>, isDone: bool, diffDays: int): (r: TimeLeft)
    ensures r.shade == Slate <==> isDone
    ensures r.shade == FadedBlue <==> !isDone && Falsy(deadline)
    ensures r.shade == PulsingRed <==> !isDone && !Falsy(deadline) && diffDays < 0
    ensures r.shade == Red <==> !isDone && !Falsy(deadline) && diffDays == 0
    ensures r.shade == FadedRed <==> !isDone && !Falsy(deadline) && 1 <= diffDays <= 4
    ensures r.shade == Yellow <==> !isDone && !Falsy(deadline) && 5 <= diffDays <= 9
    ensures r.shade == Emerald <==> !isDone && !Falsy(deadline) && diffDays >= 10
    ensures r.shade == Slate ==> r.text == "DONE"
    ensures r.shade == FadedBlue ==> r.text == "NO DATE"
    ensures r.shade == PulsingRed ==> r.text == "OVERDUE"
    ensures r.shade == Red ==> r.text == "TODAY"
  {
    if isDone then TimeLeft("DONE", Slate)
    else if Falsy(deadline) then TimeLeft("NO DATE", FadedBlue)
    else if diffDays < 0 then TimeLeft("OVERDUE", PulsingRed)
    else if diffDays == 0 then TimeLeft("TODAY", Red)
    else if diffDays < 5 then TimeLeft(DaysLabel(diffDays), FadedRed)
    else if diffDays < 10 then TimeLeft(DaysLabel(diffDays), Yellow)
    else TimeLeft(DaysLabel(diffDays), Emerald)
  }

  /** A label carries a day count exactly in the three "N DAYS" buckets, the
      count it carries is `diffDays`, and it is written in canonical decimal. */
  lemma {:induction false} DaysLabelCarriesCount(deadline: Option<string>, isDone: bool, diffDays: int)
    ensures var r := GetTimeLeft(deadline, isDone, diffDays);
      DaysIn(r.text) == (if r.shade in {FadedRed, Yellow, Emerald} then Some(diffDays) else None)
    ensures var r := GetTimeLeft(deadline, isDone, diffDays);
      r.shade in {FadedRed, Yellow, Emerald} ==> diffDays >= 1 && r.text == Decimal(diffDays) + DaysSuffix
  {
    var r := GetTimeLeft(deadline, isDone, diffDays);
    if r.shade in {FadedRed, Yellow, Emerald} {
      var d := Decimal(diffDays);
      assert r.text == d + DaysSuffix;
      assert r.text[|d|..] == DaysSuffix && r.text[..|d|] == d;
      DecimalRoundTrip(diffDays);
    } else {
      assert r.text in {"DONE", "NO DATE", "OVERDUE", "TODAY"};
      assert "NO DATE"[2..] != DaysSuffix;
      assert "OVERDUE"[2..] != DaysSuffix;
    }
  }

  /** How pressing a bucket is, for an open task with a deadline. */
  function Pressure(s: Shade): nat
  {
    match s
    case PulsingRed => 4
    case Red => 3
    case FadedRed => 2
    case Yellow => 1
    case _ => 0
  }

  /** Further-off deadlines are never shown as more pressing. */
  lemma PressureFallsWithDistance(deadline: Option<string>, d1: int, d2: int)
    requires !Falsy(deadline) && d1 <= d2
    ensures Pressure(GetTimeLeft(deadline, false, d1).shade) >= Pressure(GetTimeLeft(deadline, false, d2).shade)
  {
  }
}
