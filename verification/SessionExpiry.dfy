/** The expiry badge of the session-history view
    (src/components/HistoryRefresh.tsx): remaining days and hours of a
    token, the colour and label derived from them, and the numbering of the
    session cards. Timestamps are integer milliseconds; an expiry the
    `Date` constructor cannot parse is `None`. */
module SessionExpiry {
  import opened Common
  import Text

  const MsPerHour: int := 1000 * 60 * 60
  const MsPerDay: int := 1000 * 60 * 60 * 24

  /** `Math.ceil(a / b)` for a positive divisor, on exact integers. */
  function CeilDiv(a: int, b: int): (q: int)
    requires b > 0
    ensures (q - 1) * b < a <= q * b
  {
    var f := (-a) / b;
    assert b * f <= -a < b * f + b;
    -f
  }

  /** A JavaScript number as the badge code sees it: `null`, `NaN`, or an
      integer (every value here is the ceiling of a quotient). */
  datatype Reading = Null | NaN | Num(n: int)

  /** Whole `unit`s from `now` until `expiry`, rounded up; `Null` when the
      expiry cannot be read. */
  function Remaining(expiry: Option<int>, now: int, unit: int): (r: Reading)
    requires unit > 0
    ensures r != NaN
    ensures expiry.None? <==> r == Null
    ensures expiry.Some? ==> (r.n - 1) * unit < expiry.value - now <= r.n * unit
    ensures expiry.Some? && expiry.value <= now ==> r.n <= 0
  {
    match expiry
    case None => Null
    case Some(t) => Num(CeilDiv(t - now, unit))
  }

  /** `getDaysRemaining`, with the unreadable expiry reported as `null` as
      its `catch` branch intends. */
  function DaysRemaining(expiry: Option<int>, now: int): (r: Reading)
    ensures expiry.None? <==> r == Null
    ensures expiry.Some? ==> r.Num? && (r.n - 1) * MsPerDay < expiry.value - now <= r.n * MsPerDay
  {
    Remaining(expiry, now, MsPerDay)
  }

  /** `getHoursRemaining`, likewise. */
  function HoursRemaining(expiry: Option<int>, now: int): (r: Reading)
    ensures expiry.None? <==> r == Null
    ensures expiry.Some? ==> r.Num? && (r.n - 1) * MsPerHour < expiry.value - now <= r.n * MsPerHour
  {
    Remaining(expiry, now, MsPerHour)
  }

  /** `getDaysRemaining` as written: `new Date(s)` does not throw on an
      unparseable string but yields an invalid date, so the `catch` never
      runs and the result is `NaN`, never `null`. */
  function DaysRemainingAsWritten(expiry: Option<int>, now: int): (r: Reading)
    ensures r != Null
    ensures expiry.None? <==> r == NaN
    ensures expiry.Some? ==> r == DaysRemaining(expiry, now)
  {
    match expiry
    case None => NaN
    case Some(_) => DaysRemaining(expiry, now)
  }

  /** `getHoursRemaining` as written, likewise. */
  function HoursRemainingAsWritten(expiry: Option<int>, now: int): (r: Reading)
    ensures r != Null
    ensures expiry.None? <==> r == NaN
    ensures expiry.Some? ==> r == HoursRemaining(expiry, now)
  {
    match expiry
    case None => NaN
    case Some(_) => HoursRemaining(expiry, now)
  }

  datatype Color = Gray | Red | Orange | Yellow | Green

  /** Urgency order of the colours, most urgent first. Gray, the colour of
      a null reading, ranks below every day-count colour. */
  function ColorRank(c: Color): int
  {
    match c
    case Gray => -1
    case Red => 0
    case Orange => 1
    case Yellow => 2
    case Green => 3
  }

  /** `getStatusColor`. Every comparison with `NaN` is false, so `NaN`
      falls through to green. */
  function StatusColor(days: Reading): Color
  {
    match days
    case Null => Gray
    case NaN => Green
    case Num(d) =>
      if d <= 0 then Red
      else if d <= 2 then Orange
      else if d <= 5 then Yellow
      else Green
  }

  /** The colour bands, as conditions on the number of days. */
  lemma ColorBands(d: int, days: Reading)
    ensures StatusColor(Num(d)) == Red <==> d <= 0
    ensures StatusColor(Num(d)) == Orange <==> 1 <= d <= 2
    ensures StatusColor(Num(d)) == Yellow <==> 3 <= d <= 5
    ensures StatusColor(Num(d)) == Green <==> d > 5
    ensures StatusColor(days) == Gray <==> days == Null
  {
  }

  /** More days left never means a more urgent colour. */
  lemma ColorMonotone(a: int, b: int)
    requires a <= b
    ensures ColorRank(StatusColor(Num(a))) <= ColorRank(StatusColor(Num(b)))
  {
  }

  /** The labels `getStatusLabel` can produce. */
  datatype Label = Verifying | Expired | HoursLeft(hours: int) | OneDayLeft | DaysLeft(days: Reading)

  /** JavaScript truthiness of a number: `null`, `NaN` and zero are falsy. */
  predicate TruthyNumber(r: Reading)
  {
    r.Num? && r.n != 0
  }

  /** The branches of `getStatusLabel`, given the two readings it takes. */
  function StatusLabel(days: Reading, hours: Reading): Label
  {
    if days == Null then Verifying
    else if days.Num? && days.n <= 0 then Expired
    else if days == Num(1) && TruthyNumber(hours) && hours.n <= 24 then HoursLeft(hours.n)
    else if days == Num(1) then OneDayLeft
    else DaysLeft(days)
  }

  /** How a number is printed inside a template literal. */
  function ReadingText(r: Reading): string
  {
    match r
    case Null => "null"
    case NaN => "NaN"
    case Num(n) => Text.IntToString(n)
  }

  function LabelText(l: Label): string
  {
    match l
    case Verifying => "Verificando..."
    case Expired => "Expirado"
    case HoursLeft(h) => Text.IntToString(h) + " horas restantes"
    case OneDayLeft => "1 día restante"
    case DaysLeft(d) => ReadingText(d) + " días restantes"
  }

  /** The label of one history entry, as the badge computes it.
      `getDaysRemaining` and `getHoursRemaining` each read the clock, so the
      two reads are separate parameters. */
  function EntryLabel(expiry: Option<int>, nowForDays: int, nowForHours: int): Label
  {
    StatusLabel(DaysRemainingAsWritten(expiry, nowForDays), HoursRemainingAsWritten(expiry, nowForHours))
  }

  /** The label with the corrected readings, where an unreadable expiry is
      `null`. */
  function CorrectedEntryLabel(expiry: Option<int>, nowForDays: int, nowForHours: int): Label
  {
    StatusLabel(DaysRemaining(expiry, nowForDays), HoursRemaining(expiry, nowForHours))
  }

  /** The two labels differ only on an unreadable expiry. */
  lemma LabelsAgreeOnReadableExpiry(expiry: int, nowForDays: int, nowForHours: int)
    ensures EntryLabel(Some(expiry), nowForDays, nowForHours) == CorrectedEntryLabel(Some(expiry), nowForDays, nowForHours)
    ensures EntryLabel(None, nowForDays, nowForHours) == DaysLeft(NaN)
    ensures CorrectedEntryLabel(None, nowForDays, nowForHours) == Verifying
  {
  }

  /** Every branch of `getStatusLabel`, as a condition on its two
      readings. */
  lemma StatusLabelCases(days: Reading, hours: Reading)
    ensures StatusLabel(days, hours) == Verifying <==> days == Null
    ensures StatusLabel(days, hours) == Expired <==> days.Num? && days.n <= 0
    ensures StatusLabel(days, hours).HoursLeft? <==> days == Num(1) && hours.Num? && hours.n != 0 && hours.n <= 24
    ensures StatusLabel(days, hours).HoursLeft? ==> StatusLabel(days, hours).hours == hours.n
    ensures StatusLabel(days, hours) == OneDayLeft <==>
      days == Num(1) && !(hours.Num? && hours.n != 0 && hours.n <= 24)
    ensures StatusLabel(days, hours).DaysLeft? <==> days == NaN || (days.Num? && days.n > 1)
  {
  }

  /** On one clock reading the colour is red exactly when the label is
      "Expirado"; this holds for unreadable expiries too, which are green
      and "NaN días restantes". */
  lemma RedIffExpired(expiry: Option<int>, now: int)
    ensures StatusColor(DaysRemainingAsWritten(expiry, now)) == Red <==> LabelText(EntryLabel(expiry, now, now)) == "Expirado"
  {
    var l := EntryLabel(expiry, now, now);
    if l.HoursLeft? {
      assert LabelText(l)[|LabelText(l)| - 1] == 's';
    }
    if l.DaysLeft? {
      assert LabelText(l)[|LabelText(l)| - 1] == 's';
    }
  }

  /** An expiry at or before now is labelled "Expirado". */
  lemma PastExpiryIsExpired(expiry: int, nowForDays: int, nowForHours: int)
    requires expiry <= nowForDays
    ensures EntryLabel(Some(expiry), nowForDays, nowForHours) == Expired
  {
  }

  /** With one day left the hours reading is between 1 and 24 (both clock
      reads equal), so the hours label is chosen and "1 día restante" is
      never shown. */
  lemma {:induction false} OneDayLabelUnreachable(expiry: Option<int>, now: int)
    ensures DaysRemaining(expiry, now) == Num(1) ==>
      var h := HoursRemaining(expiry, now);
      h.Num? && 1 <= h.n <= 24 && EntryLabel(expiry, now, now) == HoursLeft(h.n)
    ensures EntryLabel(expiry, now, now) != OneDayLeft
  {
    if DaysRemaining(expiry, now) == Num(1) {
      var diff := expiry.value - now;
      assert 0 < diff <= MsPerDay;
      var h := HoursRemaining(expiry, now).n;
      assert (h - 1) * MsPerHour < diff <= h * MsPerHour;
    }
  }

  /** When the hours clock read falls one millisecond after the days read
      and the token expires in between, the "1 día restante" branch is
      taken after all. */
  lemma OneDayLabelReachableAcrossClockReads()
    ensures EntryLabel(Some(1), 0, 1) == OneDayLeft
  {
    assert CeilDiv(1, MsPerDay) == 1;
    assert CeilDiv(0, MsPerHour) == 0;
  }

  /** Beyond one day the label counts days. */
  lemma ManyDaysLabel(expiry: Option<int>, nowForDays: int, nowForHours: int)
    requires DaysRemaining(expiry, nowForDays).Num? && DaysRemaining(expiry, nowForDays).n > 1
    ensures LabelText(EntryLabel(expiry, nowForDays, nowForHours)) ==
      Text.IntToString(DaysRemaining(expiry, nowForDays).n) + " días restantes"
  {
  }

  /** As written, an unparseable expiry is painted green and labelled
      "NaN días restantes". */
  lemma UnparseableExpiryAsWritten(nowForColor: int, nowForDays: int, nowForHours: int)
    ensures StatusColor(DaysRemainingAsWritten(None, nowForColor)) == Green
    ensures LabelText(EntryLabel(None, nowForDays, nowForHours)) == "NaN días restantes"
  {
  }

  /** With the intended `null`, an unparseable expiry is gray and
      "Verificando...". */
  lemma UnparseableExpiryIsVerifying(nowForColor: int, nowForDays: int, nowForHours: int)
    ensures StatusColor(DaysRemaining(None, nowForColor)) == Gray
    ensures LabelText(CorrectedEntryLabel(None, nowForDays, nowForHours)) == "Verificando..."
  {
  }

  /** `Sesión #{history.length - index}` for every card, top to bottom. */
  function SessionNumbers(count: nat): (r: seq<nat>)
    ensures |r| == count
    ensures count > 0 ==> r[0] == count && r[count - 1] == 1
    ensures forall i :: 0 <= i < count ==> 1 <= r[i] <= count
    ensures forall i, j :: 0 <= i < j < count ==> r[i] > r[j]
  {
    seq(count, i requires 0 <= i < count => count - i)
  }
}
