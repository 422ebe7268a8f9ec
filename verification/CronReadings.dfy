/**
  Cron expressions and their plain readings (`field`, `named`, `listing`,
  `ordinal` and `cron_reading` in cron.rs).
 */
module CronReadings {
  import opened Results
  import opened Text

  const WEEKDAYS: seq<string> := ["Sunday", "Monday", "Tuesday", "Wednesday", "Thursday", "Friday", "Saturday"]

  const MONTHS: seq<string> := [
    "January", "February", "March", "April", "May", "June",
    "July", "August", "September", "October", "November", "December"
  ]

  /** One field of an expression; ranges (a value is one of itself) in their order in the text. */
  datatype Field = Any | Every(step: nat) | Values(ranges: seq<(nat, nat)>)

  // ----------------------------------------------------------------- parsing

  function ToLower(c: char): char { if 'A' <= c <= 'Z' then (c as int + 32) as char else c }

  predicate EqIgnoreAsciiCase(a: string, b: string) {
    |a| == |b| && forall i :: 0 <= i < |a| ==> ToLower(a[i]) == ToLower(b[i])
  }

  /** The position of the name whose first three letters are `part`. */
  function NamePosition(names: seq<string>, part: string): (r: Option<nat>)
    requires forall i :: 0 <= i < |names| ==> |names[i]| >= 3
    ensures r.Some? ==> r.value < |names|
  {
    if names == [] then None
    else if EqIgnoreAsciiCase(names[0][..3], part) then Some(0)
    else match NamePosition(names[1..], part)
      case None => None
      case Some(n) => Some(n + 1)
  }

  /** The names a field takes: none, the months or the weekdays. */
  predicate FieldNames(names: seq<string>) {
    |names| <= 12 && forall i :: 0 <= i < |names| ==> |names[i]| >= 3
  }

  function ValueOf(part: string, names: seq<string>, sundaySeven: bool): (r: Option<nat>)
    requires FieldNames(names)
    ensures r.Some? ==> r.value <= U32_MAX && (sundaySeven ==> r.value != 7)
  {
    var number :=
      match ParseU32(part)
      case Some(n) => Some(n)
      case None =>
        match NamePosition(names, part)
        case None => None
        case Some(i) => Some(if |names| == 12 then i + 1 else i);
    match number
    case None => None
    case Some(n) => Some(if sundaySeven && n == 7 then 0 else n)
  }

  function RangeOf(part: string, names: seq<string>, sundaySeven: bool): Option<(nat, nat)>
    requires FieldNames(names)
  {
    if !Lacks(part, '/') then None
    else
      var dash := IndexOf(part, '-');
      if dash < |part| then
        match (ValueOf(part[..dash], names, sundaySeven), ValueOf(part[dash + 1..], names, sundaySeven))
        case (Some(low), Some(high)) => Some((low, high))
        case _ => None
      else
        match ValueOf(part, names, sundaySeven)
        case Some(v) => Some((v, v))
        case None => None
  }

  function RangesOf(parts: seq<string>, names: seq<string>, sundaySeven: bool): (r: Option<seq<(nat, nat)>>)
    requires FieldNames(names)
    ensures r.Some? ==> |r.value| == |parts|
    ensures r.Some? ==> forall i :: 0 <= i < |parts| ==> RangeOf(parts[i], names, sundaySeven) == Some(r.value[i])
    ensures r.None? ==> exists i :: 0 <= i < |parts| && RangeOf(parts[i], names, sundaySeven) == None
  {
    hide RangeOf, FieldNames;
    if parts == [] then Some([])
    else match RangeOf(parts[0], names, sundaySeven)
      case None => None
      case Some(range) =>
        match RangesOf(parts[1..], names, sundaySeven)
        case None =>
          assert parts == [parts[0]] + parts[1..];
          None
        case Some(rest) =>
          assert parts == [parts[0]] + parts[1..];
          Some([range] + rest)
  }

  /** The field `text` stands for. */
  function FieldOf(text: string, names: seq<string>, sundaySeven: bool): Option<Field>
    requires FieldNames(names)
  {
    if text == "*" then Some(Any)
    else if "*/" <= text then
      match ParseU32(text[2..])
      case Some(step) => if step > 0 then Some(Every(step)) else None
      case None => None
    else match RangesOf(Split(text, ','), names, sundaySeven)
      case Some(ranges) => Some(Values(ranges))
      case None => None
  }

  /** `field`, with the loop that pushes the ranges. */
  method ParseField(text: string, names: seq<string>, sundaySeven: bool) returns (r: Option<Field>)
    requires FieldNames(names)
    ensures r == FieldOf(text, names, sundaySeven)
  {
    if text == "*" {
      return Some(Any);
    }
    if "*/" <= text {
      var step := ParseU32(text[2..]);
      return if step.Some? && step.value > 0 then Some(Every(step.value)) else None;
    }
    hide RangeOf;
    var parts := Split(text, ',');
    var values: seq<(nat, nat)> := [];
    for i := 0 to |parts|
      invariant |values| == i
      invariant forall j :: 0 <= j < i ==> RangeOf(parts[j], names, sundaySeven) == Some(values[j])
    {
      var range := RangeOf(parts[i], names, sundaySeven);
      if range.None? {
        return None;
      }
      values := values + [range.value];
    }
    assert RangesOf(parts, names, sundaySeven).Some?;
    assert RangesOf(parts, names, sundaySeven).value == values;
    return Some(Values(values));
  }

  /** What a parsed field is: steps are positive, lists not empty, and Sunday is 0. */
  predicate WellFormed(f: Field, sundaySeven: bool) {
    match f
    case Any => true
    case Every(step) => 0 < step <= U32_MAX
    case Values(ranges) =>
      && ranges != []
      && forall i :: 0 <= i < |ranges| ==>
           && ranges[i].0 <= U32_MAX && ranges[i].1 <= U32_MAX
           && (sundaySeven ==> ranges[i].0 != 7 && ranges[i].1 != 7)
  }

  lemma ParsedIsWellFormed(text: string, names: seq<string>, sundaySeven: bool)
    requires FieldNames(names)
    ensures FieldOf(text, names, sundaySeven).Some? ==> WellFormed(FieldOf(text, names, sundaySeven).value, sundaySeven)
  {
    if text != "*" && !("*/" <= text) {
      var parts := Split(text, ',');
      var ranges := RangesOf(parts, names, sundaySeven);
      if ranges.Some? {
        forall i | 0 <= i < |parts|
          ensures ranges.value[i].0 <= U32_MAX && ranges.value[i].1 <= U32_MAX
          ensures sundaySeven ==> ranges.value[i].0 != 7 && ranges.value[i].1 != 7
        {
          assert RangeOf(parts[i], names, sundaySeven) == Some(ranges.value[i]);
        }
      }
    }
  }

  function RangeText(range: (nat, nat)): string {
    if range.0 == range.1 then Decimal(range.0) else Decimal(range.0) + "-" + Decimal(range.1)
  }

  function FieldText(f: Field): string {
    match f
    case Any => "*"
    case Every(step) => "*/" + Decimal(step)
    case Values(ranges) => Join(seq(|ranges|, i requires 0 <= i < |ranges| => RangeText(ranges[i])), ",")
  }

  lemma DecimalIsValue(n: nat, names: seq<string>, sundaySeven: bool)
    requires FieldNames(names) && n <= U32_MAX && (sundaySeven ==> n != 7)
    ensures ValueOf(Decimal(n), names, sundaySeven) == Some(n)
  {
    U32RoundTrip(n);
  }

  lemma RangeTextParses(range: (nat, nat), names: seq<string>, sundaySeven: bool)
    requires FieldNames(names) && range.0 <= U32_MAX && range.1 <= U32_MAX
    requires sundaySeven ==> range.0 != 7 && range.1 != 7
    ensures RangeOf(RangeText(range), names, sundaySeven) == Some(range)
    ensures Lacks(RangeText(range), ',') && RangeText(range) != [] && IsDigit(RangeText(range)[0])
  {
    var low, high := Decimal(range.0), Decimal(range.1);
    DecimalIsValue(range.0, names, sundaySeven);
    DecimalIsValue(range.1, names, sundaySeven);
    hide ValueOf, Decimal, FieldNames, RangeOf, DigitsValue;
    assert Lacks(low, '/') && Lacks(low, '-') && Lacks(low, ',');
    assert Lacks(high, '/') && Lacks(high, ',');
    if range.0 == range.1 {
      OneValueReads(low, range.0, names, sundaySeven);
    } else {
      TwoValuesRead(low, high, range, names, sundaySeven);
      assert (low + ['-'] + high)[0] == low[0];
    }
  }

  lemma OneValueReads(text: string, n: nat, names: seq<string>, sundaySeven: bool)
    requires FieldNames(names) && Lacks(text, '/') && Lacks(text, '-') && ValueOf(text, names, sundaySeven) == Some(n)
    ensures RangeOf(text, names, sundaySeven) == Some((n, n))
  {
    hide ValueOf, FieldNames;
    assert IndexOf(text, '-') == |text|;
  }

  lemma TwoValuesRead(low: string, high: string, range: (nat, nat), names: seq<string>, sundaySeven: bool)
    requires FieldNames(names) && Lacks(low, '/') && Lacks(low, '-') && Lacks(high, '/')
    requires ValueOf(low, names, sundaySeven) == Some(range.0) && ValueOf(high, names, sundaySeven) == Some(range.1)
    ensures RangeOf(low + ['-'] + high, names, sundaySeven) == Some(range)
  {
    hide ValueOf, FieldNames;
    IndexOfAppend(low, '-', high);
    var text := low + ['-'] + high;
    assert text[..|low|] == low && text[|low| + 1..] == high;
  }

  /** Every well-formed field can be written, and reads back. */
  lemma FieldTextParses(f: Field, names: seq<string>, sundaySeven: bool)
    requires FieldNames(names) && WellFormed(f, sundaySeven)
    ensures FieldOf(FieldText(f), names, sundaySeven) == Some(f)
  {
    match f
    case Any =>
    case Every(step) =>
      U32RoundTrip(step);
      assert ("*/" + Decimal(step))[2..] == Decimal(step);
    case Values(ranges) =>
      var parts := seq(|ranges|, i requires 0 <= i < |ranges| => RangeText(ranges[i]));
      forall i | 0 <= i < |ranges|
        ensures RangeOf(parts[i], names, sundaySeven) == Some(ranges[i])
        ensures Lacks(parts[i], ',') && parts[i] != [] && IsDigit(parts[i][0])
      {
        RangeTextParses(ranges[i], names, sundaySeven);
      }
      SplitJoin(parts, ',');
      assert Join(parts, ",")[0] == parts[0][0];
      assert RangesOf(parts, names, sundaySeven).value == ranges;
  }

  // ---------------------------------------------------------------- readings

  datatype CronFields = CronFields(minute: Field, hour: Field, day: Field, month: Field, weekday: Field)

  predicate WellFormedFields(f: CronFields) {
    && WellFormed(f.minute, false) && WellFormed(f.hour, false) && WellFormed(f.day, false)
    && WellFormed(f.month, false) && WellFormed(f.weekday, true)
  }

  /** The fields of a five-field expression. */
  function ParseFields(expression: string): (r: Option<CronFields>)
  {
    var fields := Words(expression);
    if |fields| != 5 then None
    else match (FieldOf(fields[0], [], false), FieldOf(fields[1], [], false), FieldOf(fields[2], [], false),
                FieldOf(fields[3], MONTHS, false), FieldOf(fields[4], WEEKDAYS, true))
      case (Some(minute), Some(hour), Some(day), Some(month), Some(weekday)) =>
        Some(CronFields(minute, hour, day, month, weekday))
      case _ => None
  }

  function Single(f: Field): Option<nat> {
    if f.Values? && |f.ranges| == 1 && f.ranges[0].0 == f.ranges[0].1 then Some(f.ranges[0].0) else None
  }

  function Singles(f: Field): (r: Option<seq<nat>>)
    ensures r.Some? ==> f.Values? && |r.value| == |f.ranges|
    ensures r.Some? ==> forall i :: 0 <= i < |f.ranges| ==> f.ranges[i] == (r.value[i], r.value[i])
  {
    if f.Values? && forall i :: 0 <= i < |f.ranges| ==> f.ranges[i].0 == f.ranges[i].1
    then Some(seq(|f.ranges|, i requires 0 <= i < |f.ranges| => f.ranges[i].0))
    else None
  }

  function Listing(parts: seq<string>): string {
    if parts == [] then ""
    else if |parts| == 1 then parts[0]
    else Join(parts[..|parts| - 1], ", ") + " and " + parts[|parts| - 1]
  }

  predicate HasName(value: nat, names: seq<string>, offset: nat) {
    offset <= value < offset + |names|
  }

  function NamedRange(range: (nat, nat), names: seq<string>, offset: nat): string
    requires HasName(range.0, names, offset) && HasName(range.1, names, offset)
  {
    if range.0 == range.1 then names[range.0 - offset]
    else names[range.0 - offset] + " to " + names[range.1 - offset]
  }

  function Named(f: Field, names: seq<string>, offset: nat): (r: Option<string>)
    ensures r.Some? ==> f.Values?
  {
    if f.Values? && forall i :: 0 <= i < |f.ranges| ==>
                      HasName(f.ranges[i].0, names, offset) && HasName(f.ranges[i].1, names, offset)
    then Some(Listing(seq(|f.ranges|, i requires 0 <= i < |f.ranges| => NamedRange(f.ranges[i], names, offset))))
    else None
  }

  function OrdinalSuffix(day: nat): (s: string)
    ensures |s| == 2
  {
    var one, two := day % 10, day % 100;
    if (one == 1 && two == 11) || (one == 2 && two == 12) || (one == 3 && two == 13) then "th"
    else if one == 1 then "st"
    else if one == 2 then "nd"
    else if one == 3 then "rd"
    else "th"
  }

  function Ordinal(day: nat): string { Decimal(day) + OrdinalSuffix(day) }

  function Ordinals(days: seq<nat>): seq<string> {
    seq(|days|, i requires 0 <= i < |days| => Ordinal(days[i]))
  }

  function ClockTime(hour: nat, minute: nat): string { Padded(hour) + ":" + Padded(minute) }

  function ClockTimes(hours: seq<nat>, minute: nat): seq<string> {
    seq(|hours|, i requires 0 <= i < |hours| => ClockTime(hours[i], minute))
  }

  function TimeText(minute: Field, hour: Field): Option<string> {
    match (minute, hour)
    case (Any, Any) => Some("every minute")
    case (Every(step), Any) => Some("every " + Decimal(step) + " minutes")
    case (_, Any) =>
      (match Single(minute)
       case None => None
       case Some(m) => Some("every hour at :" + Padded(m)))
    case (_, Every(step)) =>
      (match Single(minute)
       case None => None
       case Some(m) => Some("every " + Decimal(step) + " hours at :" + Padded(m)))
    case (_, Values(_)) =>
      match (Single(minute), Singles(hour))
      case (Some(m), Some(hours)) => Some("at " + Listing(ClockTimes(hours, m)))
      case _ => None
  }

  /** The months a month field names, none for every month; `None` when it has no name. */
  function MonthsText(month: Field): Option<Option<string>> {
    match month
    case Any => Some(None)
    case _ =>
      match Named(month, MONTHS, 1)
      case None => None
      case Some(months) => Some(Some(months))
  }

  function InMonths(months: Option<string>): string {
    match months case None => "" case Some(names) => " in " + names
  }

  /** The days, none for every day of every month; `None` when there are no words for them. */
  function DaysText(day: Field, month: Field, weekday: Field): Option<Option<string>> {
    match MonthsText(month)
    case None => None
    case Some(months) =>
      if day.Any? && weekday.Any? then Some(if months.None? then None else Some("every day" + InMonths(months)))
      else if day.Any? then
        match Named(weekday, WEEKDAYS, 0)
        case None => None
        case Some(weekdays) => Some(Some("every " + weekdays + InMonths(months)))
      else match Singles(day)
        case None => None
        case Some(days) =>
          var ordinals := Listing(Ordinals(days));
          if weekday.Any? then
            var of := match months case None => "every month" case Some(names) => names;
            Some(Some("on the " + ordinals + " of " + of))
          else match Named(weekday, WEEKDAYS, 0)
            case None => None
            case Some(weekdays) => Some(Some("on the " + ordinals + " and every " + weekdays + InMonths(months)))
  }

  function Reading(f: CronFields): Option<string> {
    match (TimeText(f.minute, f.hour), DaysText(f.day, f.month, f.weekday))
    case (Some(time), Some(days)) =>
      var daily := "at " <= time;
      Some(match days
           case None => if daily then "every day " + time else time
           case Some(days) => if daily then days + " " + time else time + ", " + days)
    case _ => None
  }

  /** A plain reading of an expression; `None` for shapes it has no words for. */
  function CronReading(expression: string): Option<string> {
    match ParseFields(expression)
    case None => None
    case Some(f) => Reading(f)
  }
}
