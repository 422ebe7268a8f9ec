/** Readings are unambiguous: `DecodeReading` recovers the fields of every one. */
module CronUnambiguous {
  import opened Results
  import opened Text
  import opened CronReadings
  import opened CronDecoder

  const WEEKDAY_NAMES: Kind := Names(WEEKDAYS, 0)
  const MONTH_NAMES: Kind := Names(MONTHS, 1)

  // ------------------------------------------------------- fields and pieces

  function RangePieces(ranges: seq<(nat, nat)>): seq<Piece> {
    seq(|ranges|, i requires 0 <= i < |ranges| => Range(ranges[i].0, ranges[i].1))
  }

  function DayPieces(ranges: seq<(nat, nat)>): seq<Piece> {
    seq(|ranges|, i requires 0 <= i < |ranges| => Day(ranges[i].0))
  }

  function ClockPieces(ranges: seq<(nat, nat)>, minute: nat): seq<Piece> {
    seq(|ranges|, i requires 0 <= i < |ranges| => Clock(ranges[i].0, minute))
  }

  /** The field the items of a list name. */
  function FieldOfPieces(ps: seq<Piece>): Field {
    Values(seq(|ps|, i requires 0 <= i < |ps| =>
      match ps[i]
      case Clock(h, _) => (h, h)
      case Day(d) => (d, d)
      case Range(low, high) => (low, high)))
  }

  lemma NamedIsList(f: Field, names: seq<string>, offset: nat)
    requires Named(f, names, offset).Some?
    ensures var k, ps := Names(names, offset), RangePieces(f.ranges);
            && ValidPieces(k, ps) && Named(f, names, offset).value == Listing(PieceTexts(k, ps))
            && FieldOfPieces(ps) == f
  {
    var k, ps := Names(names, offset), RangePieces(f.ranges);
    assert ValidPieces(k, ps);
    assert PieceTexts(k, ps) ==
           seq(|f.ranges|, i requires 0 <= i < |f.ranges| => NamedRange(f.ranges[i], names, offset));
    assert FieldOfPieces(ps).ranges == f.ranges;
  }

  lemma OrdinalsAreList(f: Field)
    requires Singles(f).Some?
    ensures var ps := DayPieces(f.ranges);
            ValidPieces(Days, ps) && Ordinals(Singles(f).value) == PieceTexts(Days, ps) && FieldOfPieces(ps) == f
  {
    var ps := DayPieces(f.ranges);
    assert Ordinals(Singles(f).value) == PieceTexts(Days, ps);
    assert FieldOfPieces(ps).ranges == f.ranges;
  }

  lemma ClocksAreList(f: Field, minute: nat)
    requires Singles(f).Some?
    ensures var ps := ClockPieces(f.ranges, minute);
            ValidPieces(Clocks, ps) && ClockTimes(Singles(f).value, minute) == PieceTexts(Clocks, ps)
                && FieldOfPieces(ps) == f
  {
    var ps := ClockPieces(f.ranges, minute);
    assert ClockTimes(Singles(f).value, minute) == PieceTexts(Clocks, ps);
    assert FieldOfPieces(ps).ranges == f.ranges;
  }

  // ---------------------------------------------------------------- the decoder

  function DecodeTimes(s: string): Option<(Field, Field)> {
    match ParseList(Clocks, s)
    case None => None
    case Some((ps, rest)) =>
      if ps == [] || !ps[0].Clock? || rest != "" then None
      else Some((Values([(ps[0].minute, ps[0].minute)]), FieldOfPieces(ps)))
  }

  function DecodeNames(k: Kind, s: string): Option<(Field, string)> {
    match ParseList(k, s)
    case None => None
    case Some((ps, rest)) => Some((FieldOfPieces(ps), rest))
  }

  function DecodeInMonths(s: string): Option<(Field, string)> {
    match Strip(s, " in ")
    case None => Some((Any, s))
    case Some(r) => DecodeNames(MONTH_NAMES, r)
  }

  function DecodeWeekdays(day: Field, s: string): Option<(Field, Field, Field, string)> {
    match DecodeNames(WEEKDAY_NAMES, s)
    case None => None
    case Some((weekday, r)) =>
      match DecodeInMonths(r)
      case None => None
      case Some((month, rest)) => Some((day, month, weekday, rest))
  }

  function DecodeMonths(day: Field, s: string): Option<(Field, Field, Field, string)> {
    match DecodeNames(MONTH_NAMES, s)
    case None => None
    case Some((month, rest)) => Some((day, month, Any, rest))
  }

  /** After the days of the month: the months, or the weekdays besides. */
  function DecodeAfterOrdinals(day: Field, s: string): Option<(Field, Field, Field, string)> {
    match Strip(s, " of every month")
    case Some(rest) => Some((day, Any, Any, rest))
    case None =>
      match Strip(s, " of ")
      case Some(r) => DecodeMonths(day, r)
      case None =>
        match Strip(s, " and every ")
        case Some(r) => DecodeWeekdays(day, r)
        case None => None
  }

  function DecodeDays(s: string): Option<(Field, Field, Field, string)> {
    match Strip(s, "every day in ")
    case Some(r) => DecodeMonths(Any, r)
    case None =>
      match Strip(s, "every ")
      case Some(r) => DecodeWeekdays(Any, r)
      case None =>
        match Strip(s, "on the ")
        case None => None
        case Some(r) =>
          match DecodeNames(Days, r)
          case None => None
          case Some((day, r)) => DecodeAfterOrdinals(day, r)
  }

  function DecodeMinute(hour: Field, s: string): Option<(Field, Field, string)> {
    match ParseNumber(s)
    case None => None
    case Some((m, rest)) => Some((Values([(m, m)]), hour, rest))
  }

  function DecodeStep(s: string): Option<(Field, Field, string)> {
    match ParseNumber(s)
    case None => None
    case Some((n, r)) =>
      match Strip(r, " minutes")
      case Some(rest) => Some((Every(n), Any, rest))
      case None =>
        match Strip(r, " hours at :")
        case None => None
        case Some(r) => DecodeMinute(Every(n), r)
  }

  function DecodeTime(s: string): Option<(Field, Field, string)> {
    match Strip(s, "every minute")
    case Some(rest) => Some((Any, Any, rest))
    case None =>
      match Strip(s, "every hour at :")
      case Some(r) => DecodeMinute(Any, r)
      case None =>
        match Strip(s, "every ")
        case None => None
        case Some(r) => DecodeStep(r)
  }

  function DecodeReading(s: string): Option<CronFields> {
    match Strip(s, "every day at ")
    case Some(r) =>
      (match DecodeTimes(r)
       case None => None
       case Some((minute, hour)) => Some(CronFields(minute, hour, Any, Any, Any)))
    case None =>
      match DecodeTime(s)
      case Some((minute, hour, r)) =>
        if r == "" then Some(CronFields(minute, hour, Any, Any, Any))
        else (match Strip(r, ", ")
              case None => None
              case Some(r) =>
                match DecodeDays(r)
                case None => None
                case Some((day, month, weekday, _)) => Some(CronFields(minute, hour, day, month, weekday)))
      case None =>
        match DecodeDays(s)
        case None => None
        case Some((day, month, weekday, r)) =>
          match Strip(r, " at ")
          case None => None
          case Some(r) =>
            match DecodeTimes(r)
            case None => None
            case Some((minute, hour)) => Some(CronFields(minute, hour, day, month, weekday))
  }

  // ------------------------------------------------------------------- times

  lemma TimesDecode(minute: Field, hour: Field)
    requires Single(minute).Some? && Singles(hour).Some? && hour.ranges != []
    ensures DecodeTimes(Listing(ClockTimes(Singles(hour).value, Single(minute).value))) == Some((minute, hour))
  {
    hide Listing, ParseList;
    var m := Single(minute).value;
    ClocksAreList(hour, m);
    var ps := ClockPieces(hour.ranges, m);
    var text := Listing(PieceTexts(Clocks, ps));
    ListDecodes(Clocks, ps, "");
    assert text + "" == text;
    assert minute.ranges == [(m, m)];
  }

  /** What may follow a time, and what may follow the days. */
  predicate AfterTime(rest: string) { rest == "" || (|rest| > 1 && rest[0] == ',' && rest[1] == ' ') }

  predicate AfterDays(rest: string) { rest == "" || (|rest| > 3 && rest[0] == ' ' && rest[1] == 'a' && rest[2] == 't') }

  lemma MinuteDecodes(minute: Field, hour: Field, rest: string)
    requires Single(minute).Some? && AfterTime(rest)
    ensures DecodeMinute(hour, Padded(Single(minute).value) + rest) == Some((minute, hour, rest))
  {
    hide Padded;
    var m := Single(minute).value;
    NumberDecodes(Padded(m), rest);
    PaddedValue(m);
    assert minute.ranges == [(m, m)];
  }

  lemma StepMinutesDecode(n: nat, rest: string)
    ensures DecodeStep(Decimal(n) + (" minutes" + rest)) == Some((Every(n), Any, rest))
  {
    hide Decimal;
    NumberDecodes(Decimal(n), " minutes" + rest);
    DecimalValue(n);
    Stripped(" minutes", rest);
  }

  lemma StepHoursDecode(minute: Field, n: nat, rest: string)
    requires Single(minute).Some? && AfterTime(rest)
    ensures DecodeStep(Decimal(n) + (" hours at :" + (Padded(Single(minute).value) + rest))) ==
              Some((minute, Every(n), rest))
  {
    hide Decimal, Padded;
    var tail := Padded(Single(minute).value) + rest;
    NumberDecodes(Decimal(n), " hours at :" + tail);
    DecimalValue(n);
    NotStripped(" hours at :" + tail, " minutes", 1);
    Stripped(" hours at :", tail);
    MinuteDecodes(minute, Every(n), rest);
  }

  /** After "every ", a step is no other kind of time. */
  lemma StepIsNoOtherTime(n: nat, tail: string)
    ensures DecodeTime("every " + (Decimal(n) + tail)) == DecodeStep(Decimal(n) + tail)
    ensures Strip("every " + (Decimal(n) + tail), "every day at ") == None
  {
    hide DecodeStep, DecodeMinute, Decimal;
    var r := Decimal(n) + tail;
    var s := "every " + r;
    assert s[6] == r[0] == Decimal(n)[0] && IsDigit(Decimal(n)[0]);
    NotStripped(s, "every minute", 6);
    NotStripped(s, "every hour at :", 6);
    NotStripped(s, "every day at ", 6);
    Stripped("every ", r);
  }

  lemma HourlyIsNoOtherTime(tail: string)
    ensures DecodeTime("every hour at :" + tail) == DecodeMinute(Any, tail)
    ensures Strip("every hour at :" + tail, "every day at ") == None
  {
    hide DecodeMinute, DecodeStep;
    var s := "every hour at :" + tail;
    NotStripped(s, "every minute", 6);
    NotStripped(s, "every day at ", 6);
    Stripped("every hour at :", tail);
  }

  lemma EveryMinuteDecodes(rest: string)
    ensures DecodeTime("every minute" + rest) == Some((Any, Any, rest))
    ensures Strip("every minute" + rest, "every day at ") == None
  {
    hide DecodeMinute, DecodeStep;
    NotStripped("every minute" + rest, "every day at ", 6);
    Stripped("every minute", rest);
  }

  /** A time within the day is read back, and is not taken for a daily one. */
  lemma TimeDecodes(minute: Field, hour: Field, rest: string)
    requires TimeText(minute, hour).Some? && !hour.Values? && AfterTime(rest)
    ensures DecodeTime(TimeText(minute, hour).value + rest) == Some((minute, hour, rest))
    ensures Strip(TimeText(minute, hour).value + rest, "every day at ") == None
  {
    hide DecodeTime, DecodeStep, DecodeMinute, Strip, Decimal, Padded;
    if minute.Any? && hour.Any? {
      EveryMinuteDecodes(rest);
    } else if minute.Every? && hour.Any? {
      Regroup("every ", Decimal(minute.step), " minutes", rest);
      StepIsNoOtherTime(minute.step, " minutes" + rest);
      StepMinutesDecode(minute.step, rest);
    } else if hour.Any? {
      var m := Padded(Single(minute).value);
      assert ("every hour at :" + m) + rest == "every hour at :" + (m + rest);
      HourlyIsNoOtherTime(m + rest);
      MinuteDecodes(minute, Any, rest);
    } else {
      var m := Padded(Single(minute).value);
      Regroup("every " + Decimal(hour.step), " hours at :", m, rest);
      assert ("every " + Decimal(hour.step)) + (" hours at :" + (m + rest)) ==
             "every " + (Decimal(hour.step) + (" hours at :" + (m + rest)));
      StepIsNoOtherTime(hour.step, " hours at :" + (m + rest));
      StepHoursDecode(minute, hour.step, rest);
    }
  }

  // -------------------------------------------------------------------- days

  lemma NamesEndBeforeDaysEnd(names: seq<string>, offset: nat, rest: string)
    requires AfterDays(rest)
    ensures ListStops(Names(names, offset), rest) && Strip(rest, " in ") == None
  {
    if rest != "" {
      NotStripped(rest, " to ", 1);
      NotStripped(rest, " and ", 2);
      NotStripped(rest, " in ", 1);
    }
  }

  lemma NamesDecode(f: Field, names: seq<string>, offset: nat, rest: string)
    requires PrefixFree(names) && Named(f, names, offset).Some? && f.ranges != []
    requires ListStops(Names(names, offset), rest)
    ensures DecodeNames(Names(names, offset), Named(f, names, offset).value + rest) == Some((f, rest))
  {
    hide Listing, ParseList, ListStops, PrefixFree;
    NamedIsList(f, names, offset);
    ListDecodes(Names(names, offset), RangePieces(f.ranges), rest);
  }

  /** Some months or none, after what they are months of. */
  lemma InMonthsDecodes(month: Field, rest: string)
    requires MonthsText(month).Some? && WellFormed(month, false) && AfterDays(rest)
    ensures DecodeInMonths(InMonths(MonthsText(month).value) + rest) == Some((month, rest))
  {
    hide Named, DecodeNames, PrefixFree;
    NamesEndBeforeDaysEnd(MONTHS, 1, rest);
    if month.Any? {
      assert "" + rest == rest;
    } else {
      NamesArePrefixFree();
      NamesDecode(month, MONTHS, 1, rest);
      var names := Named(month, MONTHS, 1).value;
      assert (" in " + names) + rest == " in " + (names + rest);
      Stripped(" in ", names + rest);
    }
  }

  lemma WeekdaysEndBeforeMonths(months: Option<string>, rest: string)
    requires AfterDays(rest)
    ensures ListStops(WEEKDAY_NAMES, InMonths(months) + rest)
  {
    if months.None? {
      assert "" + rest == rest;
      NamesEndBeforeDaysEnd(WEEKDAYS, 0, rest);
    } else {
      var s := (" in " + months.value) + rest;
      assert s[0] == ' ' && s[1] == 'i';
      NotStripped(s, " to ", 1);
      NotStripped(s, " and ", 1);
      NotStripped(s, ", ", 0);
    }
  }

  lemma WeekdaysDecode(day: Field, month: Field, weekday: Field, rest: string)
    requires Named(weekday, WEEKDAYS, 0).Some? && weekday.ranges != []
    requires MonthsText(month).Some? && WellFormed(month, false) && AfterDays(rest)
    ensures DecodeWeekdays(day, Named(weekday, WEEKDAYS, 0).value + (InMonths(MonthsText(month).value) + rest)) ==
            Some((day, month, weekday, rest))
  {
    hide Named, DecodeNames, PrefixFree, MonthsText, InMonths, DecodeInMonths, ListStops;
    NamesArePrefixFree();
    WeekdaysEndBeforeMonths(MonthsText(month).value, rest);
    NamesDecode(weekday, WEEKDAYS, 0, InMonths(MonthsText(month).value) + rest);
    InMonthsDecodes(month, rest);
  }

  lemma MonthsDecode(day: Field, month: Field, rest: string)
    requires Named(month, MONTHS, 1).Some? && month.ranges != [] && AfterDays(rest)
    ensures DecodeMonths(day, Named(month, MONTHS, 1).value + rest) == Some((day, month, Any, rest))
  {
    hide Named, DecodeNames, PrefixFree, ListStops;
    NamesArePrefixFree();
    NamesEndBeforeDaysEnd(MONTHS, 1, rest);
    NamesDecode(month, MONTHS, 1, rest);
  }

  /** A list of names starts with a capital. */
  lemma NamesStartCapital(f: Field, names: seq<string>, offset: nat)
    requires PrefixFree(names) && Named(f, names, offset).Some? && f.ranges != []
    ensures Named(f, names, offset).value != "" && 'A' <= Named(f, names, offset).value[0] <= 'Z'
  {
    var parts := seq(|f.ranges|, i requires 0 <= i < |f.ranges| => NamedRange(f.ranges[i], names, offset));
    assert parts[0][0] == names[f.ranges[0].0 - offset][0];
    ListingStarts(parts);
  }

  lemma ListingStarts(parts: seq<string>)
    requires parts != [] && parts[0] != ""
    ensures Listing(parts) != "" && Listing(parts)[0] == parts[0][0]
  {
    if |parts| > 1 {
      assert parts[..|parts| - 1][0] == parts[0];
    }
  }

  lemma EveryDayInDecodes(month: Field, rest: string)
    requires Named(month, MONTHS, 1).Some? && month.ranges != [] && AfterDays(rest)
    ensures var t := "every day" + InMonths(Some(Named(month, MONTHS, 1).value));
            DecodeDays(t + rest) == Some((Any, month, Any, rest))
            && DecodeTime(t + rest) == None && Strip(t + rest, "every day at ") == None
  {
    hide Named, DecodeMonths, DecodeWeekdays, DecodeNames, DecodeStep, DecodeMinute, DecodeAfterOrdinals;
    var names := Named(month, MONTHS, 1).value;
    var s := "every day in " + (names + rest);
    assert ("every day" + (" in " + names)) + rest == s;
    Stripped("every day in ", names + rest);
    MonthsDecode(Any, month, rest);
    NotStripped(s, "every minute", 6);
    NotStripped(s, "every hour at :", 6);
    NotStripped(s, "every day at ", 10);
    assert s == "every " + ("day in " + (names + rest));
    Stripped("every ", "day in " + (names + rest));
    NoStep("day in " + (names + rest));
  }

  lemma NoStep(s: string)
    requires s == "" || !IsDigit(s[0])
    ensures DecodeStep(s) == None
  {
    NoNumber(s);
  }

  lemma EveryWeekdayDecodes(month: Field, weekday: Field, rest: string)
    requires Named(weekday, WEEKDAYS, 0).Some? && weekday.ranges != []
    requires MonthsText(month).Some? && WellFormed(month, false) && AfterDays(rest)
    ensures var t := "every " + Named(weekday, WEEKDAYS, 0).value + InMonths(MonthsText(month).value);
            DecodeDays(t + rest) == Some((Any, month, weekday, rest))
            && DecodeTime(t + rest) == None && Strip(t + rest, "every day at ") == None
  {
    hide Named, MonthsText, InMonths, DecodeMonths, DecodeWeekdays, DecodeNames, DecodeStep, DecodeMinute,
         DecodeAfterOrdinals, PrefixFree;
    NamesArePrefixFree();
    NamesStartCapital(weekday, WEEKDAYS, 0);
    var names, months := Named(weekday, WEEKDAYS, 0).value, InMonths(MonthsText(month).value);
    Regroup("every ", names, months, rest);
    var r := names + (months + rest);
    var s := "every " + r;
    assert s[6] == r[0] == names[0];
    NotStripped(s, "every day in ", 6);
    NotStripped(s, "every minute", 6);
    NotStripped(s, "every hour at :", 6);
    NotStripped(s, "every day at ", 6);
    Stripped("every ", r);
    NoStep(r);
    WeekdaysDecode(Any, month, weekday, rest);
  }

  lemma OrdinalsDecode(day: Field, tail: string)
    requires Singles(day).Some? && day.ranges != [] && ListStops(Days, tail)
    ensures DecodeNames(Days, Listing(Ordinals(Singles(day).value)) + tail) == Some((day, tail))
  {
    hide Listing, ParseList, ListStops;
    OrdinalsAreList(day);
    ListDecodes(Days, DayPieces(day.ranges), tail);
  }

  lemma OnTheDecodes(day: Field, tail: string)
    requires Singles(day).Some? && day.ranges != [] && ListStops(Days, tail)
    ensures var s := "on the " + (Listing(Ordinals(Singles(day).value)) + tail);
            DecodeDays(s) == DecodeAfterOrdinals(day, tail)
            && DecodeTime(s) == None && Strip(s, "every day at ") == None
  {
    hide Listing, Ordinals, Singles, ListStops, DecodeMonths, DecodeWeekdays, DecodeNames, DecodeStep, DecodeMinute,
         DecodeAfterOrdinals;
    var r := Listing(Ordinals(Singles(day).value)) + tail;
    var s := "on the " + r;
    NotStripped(s, "every day in ", 0);
    NotStripped(s, "every minute", 0);
    NotStripped(s, "every hour at :", 0);
    NotStripped(s, "every day at ", 0);
    NotStripped(s, "every ", 0);
    Stripped("on the ", r);
    OrdinalsDecode(day, tail);
  }

  lemma OfEveryMonthDecodes(day: Field, rest: string)
    ensures DecodeAfterOrdinals(day, " of every month" + rest) == Some((day, Any, Any, rest))
    ensures ListStops(Days, " of every month" + rest)
  {
    hide DecodeMonths, DecodeWeekdays;
    Stripped(" of every month", rest);
    NotStripped(" of every month" + rest, ", ", 0);
    NotStripped(" of every month" + rest, " and ", 1);
  }

  lemma OfMonthsDecodes(day: Field, month: Field, rest: string)
    requires Named(month, MONTHS, 1).Some? && month.ranges != [] && AfterDays(rest)
    ensures var tail := " of " + (Named(month, MONTHS, 1).value + rest);
            DecodeAfterOrdinals(day, tail) == Some((day, month, Any, rest)) && ListStops(Days, tail)
  {
    hide Named, DecodeMonths, DecodeWeekdays, PrefixFree;
    NamesArePrefixFree();
    NamesStartCapital(month, MONTHS, 1);
    var r := Named(month, MONTHS, 1).value + rest;
    var tail := " of " + r;
    assert tail[4] == r[0] == Named(month, MONTHS, 1).value[0];
    NotStripped(tail, " of every month", 4);
    NotStripped(tail, ", ", 0);
    NotStripped(tail, " and ", 1);
    Stripped(" of ", r);
    MonthsDecode(day, month, rest);
  }

  lemma AndWeekdaysDecodes(day: Field, month: Field, weekday: Field, rest: string)
    requires Named(weekday, WEEKDAYS, 0).Some? && weekday.ranges != []
    requires MonthsText(month).Some? && WellFormed(month, false) && AfterDays(rest)
    ensures var weekdays := Named(weekday, WEEKDAYS, 0).value;
            var tail := " and every " + (weekdays + (InMonths(MonthsText(month).value) + rest));
            DecodeAfterOrdinals(day, tail) == Some((day, month, weekday, rest)) && ListStops(Days, tail)
  {
    hide Named, MonthsText, InMonths, DecodeMonths, DecodeWeekdays, ParseNumber;
    var r := Named(weekday, WEEKDAYS, 0).value + (InMonths(MonthsText(month).value) + rest);
    var tail := " and every " + r;
    NotStripped(tail, " of every month", 1);
    NotStripped(tail, " of ", 1);
    NotStripped(tail, ", ", 0);
    assert tail[5..][0] == 'e';
    NoNumber(tail[5..]);
    Stripped(" and every ", r);
    WeekdaysDecode(day, month, weekday, rest);
  }

  /** The days are read back, and are taken neither for a time nor for every day. */
  lemma DaysDecode(day: Field, month: Field, weekday: Field, rest: string)
    requires WellFormed(day, false) && WellFormed(month, false) && WellFormed(weekday, true) && AfterDays(rest)
    requires DaysText(day, month, weekday).Some? && DaysText(day, month, weekday).value.Some?
    ensures var t := DaysText(day, month, weekday).value.value;
            DecodeDays(t + rest) == Some((day, month, weekday, rest))
            && DecodeTime(t + rest) == None && Strip(t + rest, "every day at ") == None
  {
    hide Named, DecodeDays, DecodeTime, Strip, Listing, Ordinals, ListStops, DecodeAfterOrdinals, InMonths;
    var months := MonthsText(month).value;
    if day.Any? && weekday.Any? {
      EveryDayInDecodes(month, rest);
    } else if day.Any? {
      EveryWeekdayDecodes(month, weekday, rest);
    } else {
      var ordinals := Listing(Ordinals(Singles(day).value));
      if !weekday.Any? {
        var names := Named(weekday, WEEKDAYS, 0).value;
        var tail := " and every " + (names + (InMonths(months) + rest));
        RegroupSix("on the ", ordinals, " and every ", names, InMonths(months), rest);
        AndWeekdaysDecodes(day, month, weekday, rest);
        OnTheDecodes(day, tail);
      } else if month.Any? {
        RegroupFive("on the ", ordinals, " of ", "every month", rest);
        assert " of " + ("every month" + rest) == " of every month" + rest;
        OfEveryMonthDecodes(day, rest);
        OnTheDecodes(day, " of every month" + rest);
      } else {
        var names := Named(month, MONTHS, 1).value;
        RegroupFive("on the ", ordinals, " of ", names, rest);
        OfMonthsDecodes(day, month, rest);
        OnTheDecodes(day, " of " + (names + rest));
      }
    }
  }

  lemma RegroupFive(a: string, b: string, c: string, d: string, e: string)
    ensures (a + b + c + d) + e == a + (b + (c + (d + e)))
  {}

  lemma RegroupSix(a: string, b: string, c: string, d: string, e: string, f: string)
    ensures (a + b + c + d + e) + f == a + (b + (c + (d + (e + f))))
  {}

  // ---------------------------------------------------------------- readings

  lemma DailyTimes(minute: Field, hour: Field)
    requires TimeText(minute, hour).Some?
    ensures hour.Values? ==>
              && Single(minute).Some? && Singles(hour).Some?
              && TimeText(minute, hour).value == "at " + Listing(ClockTimes(Singles(hour).value, Single(minute).value))
              && "at " <= TimeText(minute, hour).value
    ensures !hour.Values? ==> !("at " <= TimeText(minute, hour).value)
  {
    hide Listing, ClockTimes;
    if hour.Values? {
      Stripped("at ", Listing(ClockTimes(Singles(hour).value, Single(minute).value)));
    } else {
      NotStripped(TimeText(minute, hour).value, "at ", 0);
    }
  }

  /** Every reading is read back as the fields it reads. */
  lemma ReadingDecodes(f: CronFields)
    requires WellFormedFields(f) && Reading(f).Some?
    ensures DecodeReading(Reading(f).value) == Some(f)
  {
    hide TimeText, DaysText, DecodeTime, DecodeDays, DecodeTimes, Listing, ClockTimes, Singles, Single;
    var time, days := TimeText(f.minute, f.hour).value, DaysText(f.day, f.month, f.weekday).value;
    DailyTimes(f.minute, f.hour);
    if f.hour.Values? {
      var times := Listing(ClockTimes(Singles(f.hour).value, Single(f.minute).value));
      TimesDecode(f.minute, f.hour);
      if days.None? {
        assert "every day " + ("at " + times) == "every day at " + times;
        Stripped("every day at ", times);
        NoDaysText(f.day, f.month, f.weekday);
      } else {
        var rest := " at " + times;
        assert days.value + " " + ("at " + times) == days.value + rest;
        TimesNotEmpty(f.minute, f.hour);
        Stripped(" at ", times);
        DaysDecode(f.day, f.month, f.weekday, rest);
      }
    } else if days.None? {
      TimeDecodes(f.minute, f.hour, "");
      assert time + "" == time;
      NoDaysText(f.day, f.month, f.weekday);
    } else {
      var rest := ", " + days.value;
      Stripped(", ", days.value);
      assert time + ", " + days.value == time + rest;
      TimeDecodes(f.minute, f.hour, rest);
      DaysDecode(f.day, f.month, f.weekday, "");
      assert days.value + "" == days.value;
    }
  }

  lemma TimesNotEmpty(minute: Field, hour: Field)
    requires Single(minute).Some? && Singles(hour).Some? && hour.ranges != []
    ensures Listing(ClockTimes(Singles(hour).value, Single(minute).value)) != ""
  {
    ListingStarts(ClockTimes(Singles(hour).value, Single(minute).value));
  }

  lemma NoDaysText(day: Field, month: Field, weekday: Field)
    requires DaysText(day, month, weekday) == Some(None)
    ensures day.Any? && month.Any? && weekday.Any?
  {}

  /** Two schedules with the same reading are the same schedule. */
  lemma ReadingsAreUnambiguous(a: string, b: string)
    requires CronReading(a).Some? && CronReading(a) == CronReading(b)
    ensures ParseFields(a) == ParseFields(b)
  {
    hide Reading, DecodeReading, ParseFields;
    ParsedFieldsWellFormed(a);
    ParsedFieldsWellFormed(b);
    ReadingDecodes(ParseFields(a).value);
    ReadingDecodes(ParseFields(b).value);
  }

  lemma ParsedFieldsWellFormed(expression: string)
    requires ParseFields(expression).Some?
    ensures WellFormedFields(ParseFields(expression).value)
  {
    hide FieldOf, WellFormed;
    var fields := Words(expression);
    ParsedIsWellFormed(fields[0], [], false);
    ParsedIsWellFormed(fields[1], [], false);
    ParsedIsWellFormed(fields[2], [], false);
    ParsedIsWellFormed(fields[3], MONTHS, false);
    ParsedIsWellFormed(fields[4], WEEKDAYS, true);
  }
}
