/**
  What every expression reads as, said by its text alone: which numbers and names a
  field spells (`field` in cron.rs), and that the names a reading shows are the ones
  typed.
 */
module CronNames {
  import opened Results
  import opened Text
  import opened CronReadings

  // ------------------------------------------------------------------- values

  /** `c` is the letter `letter`, in either case. */
  predicate SameLetter(c: char, letter: char) {
    || c == letter
    || ('A' <= letter <= 'Z' && c as int == letter as int + 32)
    || ('a' <= letter <= 'z' && c as int == letter as int - 32)
  }

  /** `text` is the first three letters of `name`, in any case. */
  predicate Abbreviates(text: string, name: string) {
    |text| == 3 <= |name| && forall i :: 0 <= i < 3 ==> SameLetter(text[i], name[i])
  }

  /** A field's values: their names count from `first`, and `seven` tells whether 7 is Sunday too. */
  datatype Naming = Naming(names: seq<string>, first: nat, seven: bool)

  const NUMBERS := Naming([], 0, false)
  const OF_MONTHS := Naming(MONTHS, 1, false)
  const OF_WEEKDAYS := Naming(WEEKDAYS, 0, true)

  /** `text` writes the number `n`. */
  ghost predicate WritesNumber(text: string, n: nat) {
    n <= U32_MAX && (Writes(text, "", n) || Writes(text, "+", n))
  }

  /** `text` stands for the value `v`: as a number, or by a name's first three letters. */
  ghost predicate Spells(naming: Naming, text: string, v: nat) {
    || (WritesNumber(text, v) && !(naming.seven && v == 7))
    || (WritesNumber(text, 7) && naming.seven && v == 0)
    || (naming.first <= v < naming.first + |naming.names| && Abbreviates(text, naming.names[v - naming.first]))
  }

  /** `text` stands for a range: one value, or two with a dash between them. */
  ghost predicate SpellsRange(naming: Naming, text: string, range: (nat, nat)) {
    || (range.0 == range.1 && Spells(naming, text, range.0))
    || exists low, high :: text == low + "-" + high && Spells(naming, low, range.0) && Spells(naming, high, range.1)
  }

  /** Each of `parts` stands for its range. */
  ghost predicate SpellAll(naming: Naming, parts: seq<string>, ranges: seq<(nat, nat)>) {
    |parts| == |ranges| && forall i :: 0 <= i < |parts| ==> SpellsRange(naming, parts[i], ranges[i])
  }

  /** `text` stands for the field `f`. */
  ghost predicate SpellsField(naming: Naming, text: string, f: Field) {
    match f
    case Any => text == "*"
    case Every(step) => step > 0 && exists number :: text == "*/" + number && WritesNumber(number, step)
    case Values(ranges) => ranges != [] && exists parts :: text == Join(parts, ",") && SpellAll(naming, parts, ranges)
  }

  // ---------------------------------------------------------- names are unlike

  predicate IsLetter(c: char) { 'a' <= c <= 'z' || 'A' <= c <= 'Z' }

  /** The names start with three letters each, and no two with the same. */
  ghost predicate Unlike(names: seq<string>) {
    && FieldNames(names)
    && (forall i, k :: 0 <= i < |names| && 0 <= k < 3 ==> IsLetter(names[i][k]))
    && forall i, j, text :: 0 <= i < |names| && 0 <= j < |names| && i != j && Abbreviates(text, names[i]) ==>
         !Abbreviates(text, names[j])
  }

  /** One of the three namings the expressions use. */
  ghost predicate Used(naming: Naming) {
    naming == NUMBERS || naming == OF_MONTHS || naming == OF_WEEKDAYS
  }

  /** A capital and two small letters. */
  predicate Capitalized(name: string) {
    |name| >= 3 && 'A' <= name[0] <= 'Z' && 'a' <= name[1] <= 'z' && 'a' <= name[2] <= 'z'
  }

  lemma DifferingAreUnlike(names: seq<string>)
    requires |names| <= 12 && forall i :: 0 <= i < |names| ==> Capitalized(names[i])
    requires forall i, j :: 0 <= i < |names| && 0 <= j < |names| && i != j ==>
              Capitalized(names[i]) && Capitalized(names[j]) && names[i][..3] != names[j][..3]
    ensures Unlike(names)
  {
    forall i, j, text | 0 <= i < |names| && 0 <= j < |names| && i != j && Abbreviates(text, names[i])
      ensures !Abbreviates(text, names[j])
    {
      OneAbbreviated(text, names[i], names[j]);
    }
  }

  lemma OneAbbreviated(text: string, a: string, b: string)
    requires Capitalized(a) && Capitalized(b)
    ensures Abbreviates(text, a) && Abbreviates(text, b) ==> a[..3] == b[..3]
  {
    if Abbreviates(text, a) && Abbreviates(text, b) {
      assert a[0] == b[0] && a[1] == b[1] && a[2] == b[2];
    }
  }

  lemma MonthsAreUnlike()
    ensures Unlike(MONTHS)
  {
    var n := MONTHS;
    assert n[0][..3] == "Jan" && n[1][..3] == "Feb" && n[2][..3] == "Mar" && n[3][..3] == "Apr" && n[4][..3] == "May"
           && n[5][..3] == "Jun";
    assert n[6][..3] == "Jul" && n[7][..3] == "Aug" && n[8][..3] == "Sep" && n[9][..3] == "Oct" && n[10][..3] == "Nov"
           && n[11][..3] == "Dec";
    hide Unlike, Abbreviates, MONTHS;
    DifferingAreUnlike(n);
  }

  lemma WeekdaysAreUnlike()
    ensures Unlike(WEEKDAYS)
  {
    var n := WEEKDAYS;
    assert n[0][..3] == "Sun" && n[1][..3] == "Mon" && n[2][..3] == "Tue" && n[3][..3] == "Wed" && n[4][..3] == "Thu"
           && n[5][..3] == "Fri" && n[6][..3] == "Sat";
    hide Unlike, Abbreviates;
    DifferingAreUnlike(n);
  }

  lemma UsedAreUnlike(naming: Naming)
    requires Used(naming)
    ensures Unlike(naming.names) && naming.first == (if |naming.names| == 12 then 1 else 0)
    ensures naming.seven ==> |naming.names| <= 7
  {
    MonthsAreUnlike();
    WeekdaysAreUnlike();
    assert Unlike([]);
    hide Unlike;
  }

  // ------------------------------------------------------------ a value's text

  lemma FoldsAlike(text: string, name: string)
    requires |name| >= 3 && forall k :: 0 <= k < 3 ==> IsLetter(name[k])
    ensures EqIgnoreAsciiCase(name[..3], text) <==> Abbreviates(text, name)
  {
    if |text| == 3 {
      forall k | 0 <= k < 3
        ensures ToLower(name[..3][k]) == ToLower(text[k]) <==> SameLetter(text[k], name[k])
      {
      }
    }
  }

  lemma {:induction false} PositionIs(names: seq<string>, text: string)
    requires Unlike(names)
    ensures forall i: nat :: NamePosition(names, text) == Some(i) <==> i < |names| && Abbreviates(text, names[i])
  {
    if names != [] {
      FoldsAlike(text, names[0]);
      var rest := names[1..];
      assert forall i :: 0 <= i < |rest| ==> rest[i] == names[i + 1];
      PositionIs(rest, text);
      hide Unlike, Abbreviates, EqIgnoreAsciiCase;
      forall i: nat
        ensures NamePosition(names, text) == Some(i) <==> i < |names| && Abbreviates(text, names[i])
      {
        if i > 0 {
          assert NamePosition(rest, text) == Some((i - 1) as nat) <==> i < |names| && Abbreviates(text, rest[i - 1]);
        }
      }
    }
  }

  /** No name is read as a number. */
  lemma NamesAreNoNumbers(names: seq<string>, i: nat, text: string)
    requires Unlike(names) && i < |names| && Abbreviates(text, names[i])
    ensures ParseU32(text) == None
  {
    assert SameLetter(text[0], names[i][0]) && IsLetter(names[i][0]);
    assert !IsDigit(text[0]) && text[0] != '+';
  }

  lemma NumberIs(text: string, n: nat)
    ensures ParseU32(text) == Some(n) <==> WritesNumber(text, n)
  {
    U32Reads(text, n);
  }

  lemma ValueIs(naming: Naming, text: string, v: nat)
    requires Used(naming)
    ensures FieldNames(naming.names)
    ensures ValueOf(text, naming.names, naming.seven) == Some(v) <==> Spells(naming, text, v)
  {
    UsedAreUnlike(naming);
    assert FieldNames(naming.names);
    hide Unlike, Used, FieldNames, ValueOf, Spells, ParseU32;
    if ParseU32(text).Some? {
      NumberValueIs(naming, text, v);
    } else {
      NameValueIs(naming, text, v);
    }
  }

  lemma NumberValueIs(naming: Naming, text: string, v: nat)
    requires Unlike(naming.names) && FieldNames(naming.names) && ParseU32(text).Some?
    ensures ValueOf(text, naming.names, naming.seven) == Some(v) <==> Spells(naming, text, v)
  {
    NoNameIs(naming, text);
    NumberIs(text, v);
    NumberIs(text, 7);
    hide WritesNumber, Abbreviates, Unlike, FieldNames, ParseU32;
  }

  lemma NameValueIs(naming: Naming, text: string, v: nat)
    requires Unlike(naming.names) && FieldNames(naming.names) && ParseU32(text).None?
    requires naming.first == (if |naming.names| == 12 then 1 else 0) && (naming.seven ==> |naming.names| <= 7)
    ensures ValueOf(text, naming.names, naming.seven) == Some(v) <==> Spells(naming, text, v)
  {
    PositionIs(naming.names, text);
    NumberIs(text, v);
    NumberIs(text, 7);
    hide WritesNumber, Abbreviates, Unlike, FieldNames, ParseU32, NamePosition;
    assert ValueOf(text, naming.names, naming.seven) == Some(v) <==>
        v >= naming.first && NamePosition(naming.names, text) == Some((v - naming.first) as nat);
  }

  lemma NoNameIs(naming: Naming, text: string)
    requires Unlike(naming.names) && ParseU32(text).Some?
    ensures forall i :: 0 <= i < |naming.names| ==> !Abbreviates(text, naming.names[i])
  {
    hide ParseU32, Unlike, Abbreviates;
    forall i | 0 <= i < |naming.names|
      ensures !Abbreviates(text, naming.names[i])
    {
      if Abbreviates(text, naming.names[i]) { NamesAreNoNumbers(naming.names, i, text); }
    }
  }

  // --------------------------------------------------------- ranges and fields

  /** Only digits, a plus and letters spell a value. */
  predicate Plain(text: string) {
    text != "" && forall i :: 0 <= i < |text| ==> IsDigit(text[i]) || text[i] == '+' || IsLetter(text[i])
  }

  lemma SpelledIsPlain(naming: Naming, text: string, v: nat)
    requires Used(naming) && Spells(naming, text, v)
    ensures Plain(text)
  {
    UsedAreUnlike(naming);
    if n: nat :| WritesNumber(text, n) {
      hide Used, Spells, Unlike, Abbreviates;
      NumberIsPlain(text, n);
    } else {
      var name := naming.names[v - naming.first];
      forall i | 0 <= i < 3
        ensures IsLetter(text[i])
      {
        assert SameLetter(text[i], name[i]) && IsLetter(name[i]);
      }
    }
  }

  lemma NumberIsPlain(text: string, n: nat)
    requires WritesNumber(text, n)
    ensures Plain(text)
  {
    DigitsWrite(text, "", n);
    DigitsWrite(text, "+", n);
    hide DigitsValue, Writes;
    if Writes(text, "", n) {
      assert text[0..] == text;
    } else {
      assert text == "+" + text[1..];
      assert forall i :: 1 <= i < |text| ==> text[i] == text[1..][i - 1];
    }
  }

  lemma PlainLacks(text: string)
    requires Plain(text)
    ensures Lacks(text, '-') && Lacks(text, '/') && Lacks(text, ',') && text[0] != '*'
  {
  }

  lemma RangeIs(naming: Naming, text: string, range: (nat, nat))
    requires Used(naming)
    ensures FieldNames(naming.names)
    ensures RangeOf(text, naming.names, naming.seven) == Some(range) <==> SpellsRange(naming, text, range)
  {
    UsedAreUnlike(naming);
    hide Used, FieldNames, RangeOf, SpellsRange, Unlike;
    if SpellsRange(naming, text, range) {
      RangeReads(naming, text, range);
    }
    if RangeOf(text, naming.names, naming.seven) == Some(range) {
      ReadIsSpelled(naming, text, range);
    }
  }

  lemma ReadIsSpelled(naming: Naming, text: string, range: (nat, nat))
    requires Used(naming) && FieldNames(naming.names) && RangeOf(text, naming.names, naming.seven) == Some(range)
    ensures SpellsRange(naming, text, range)
  {
    var dash := IndexOf(text, '-');
    hide Used, Spells, ValueOf, FieldNames, IndexOf, Lacks;
    if dash < |text| {
      var low, high := text[..dash], text[dash + 1..];
      ValueIs(naming, low, range.0);
      ValueIs(naming, high, range.1);
      assert text == low + "-" + high;
    } else {
      ValueIs(naming, text, range.0);
    }
  }

  lemma RangeReads(naming: Naming, text: string, range: (nat, nat))
    requires Used(naming) && FieldNames(naming.names) && SpellsRange(naming, text, range)
    ensures RangeOf(text, naming.names, naming.seven) == Some(range)
  {
    hide Used, Spells, ValueOf, FieldNames, Plain, RangeOf;
    if range.0 == range.1 && Spells(naming, text, range.0) {
      SpelledIsPlain(naming, text, range.0);
      PlainLacks(text);
      ValueIs(naming, text, range.0);
      OneValueReads(text, range.0, naming.names, naming.seven);
    } else {
      var low, high :|
        text == low + "-" + high && Spells(naming, low, range.0) && Spells(naming, high, range.1);
      SpelledIsPlain(naming, low, range.0);
      SpelledIsPlain(naming, high, range.1);
      PlainLacks(low);
      PlainLacks(high);
      ValueIs(naming, low, range.0);
      ValueIs(naming, high, range.1);
      TwoValuesRead(low, high, range, naming.names, naming.seven);
    }
  }

  /** What spells a range starts it with no star and has no comma. */
  lemma SpelledRange(naming: Naming, text: string, range: (nat, nat))
    requires Used(naming) && SpellsRange(naming, text, range)
    ensures text != "" && text[0] != '*' && Lacks(text, ',')
  {
    hide Used, Spells, Plain;
    if range.0 == range.1 && Spells(naming, text, range.0) {
      SpelledIsPlain(naming, text, range.0);
      PlainLacks(text);
      PlainIsSome(text);
    } else {
      var low, high :|
        text == low + "-" + high && Spells(naming, low, range.0) && Spells(naming, high, range.1);
      SpelledIsPlain(naming, low, range.0);
      SpelledIsPlain(naming, high, range.1);
      PlainLacks(low);
      PlainLacks(high);
      PlainIsSome(low);
      assert text[0] == low[0];
    }
  }

  lemma PlainIsSome(text: string)
    requires Plain(text)
    ensures text != ""
  {
  }

  lemma RangesAre(naming: Naming, parts: seq<string>, ranges: seq<(nat, nat)>)
    requires Used(naming)
    ensures FieldNames(naming.names)
    ensures RangesOf(parts, naming.names, naming.seven) == Some(ranges) <==> SpellAll(naming, parts, ranges)
  {
    UsedAreUnlike(naming);
    hide Used, RangeOf, SpellsRange;
    var r := RangesOf(parts, naming.names, naming.seven);
    hide FieldNames;
    if r.Some? {
      forall i | 0 <= i < |parts|
        ensures SpellsRange(naming, parts[i], r.value[i])
      {
        RangeIs(naming, parts[i], r.value[i]);
      }
    }
    if SpellAll(naming, parts, ranges) {
      forall i | 0 <= i < |parts|
        ensures RangeOf(parts[i], naming.names, naming.seven) == Some(ranges[i])
      {
        RangeIs(naming, parts[i], ranges[i]);
      }
      assert r.Some? && r.value == ranges;
    }
  }

  /** The comma-separated parts are the only ones that can be spelled. */
  lemma SpelledParts(naming: Naming, text: string, parts: seq<string>, ranges: seq<(nat, nat)>)
    requires Used(naming) && SpellAll(naming, parts, ranges) && ranges != [] && text == Join(parts, ",")
    ensures Split(text, ',') == parts && text != "" && text[0] != '*'
  {
    hide Used, SpellsRange;
    forall i | 0 <= i < |parts|
      ensures parts[i] != "" && parts[i][0] != '*' && Lacks(parts[i], ',')
    {
      SpelledRange(naming, parts[i], ranges[i]);
    }
    hide Lacks;
    SplitIs(text, ',', parts);
    assert text[0] == parts[0][0];
  }

  /** The field parser reads exactly what spells a field, for each of the three namings. */
  lemma FieldIs(naming: Naming, text: string, f: Field)
    requires Used(naming)
    ensures FieldNames(naming.names)
    ensures FieldOf(text, naming.names, naming.seven) == Some(f) <==> SpellsField(naming, text, f)
  {
    UsedAreUnlike(naming);
    hide Used, FieldNames;
    match f
    case Any =>
    case Every(step) => StepIs(naming, text, step);
    case Values(ranges) => ValuesAre(naming, text, ranges);
  }

  lemma StepIs(naming: Naming, text: string, step: nat)
    requires FieldNames(naming.names)
    ensures FieldOf(text, naming.names, naming.seven) == Some(Every(step)) <==> SpellsField(naming, text, Every(step))
  {
    hide ParseU32, WritesNumber, FieldNames;
    if "*/" <= text {
      NumberIs(text[2..], step);
      assert text == "*/" + text[2..];
    }
    forall number | text == "*/" + number
      ensures text[2..] == number
    {
    }
  }

  lemma ValuesAre(naming: Naming, text: string, ranges: seq<(nat, nat)>)
    requires Used(naming) && FieldNames(naming.names)
    ensures FieldOf(text, naming.names, naming.seven) == Some(Values(ranges)) <==>
            SpellsField(naming, text, Values(ranges))
  {
    var parts := Split(text, ',');
    RangesAre(naming, parts, ranges);
    hide Used, FieldNames, SpellAll, Split;
    if FieldOf(text, naming.names, naming.seven) == Some(Values(ranges)) {
      SplitIs(text, ',', parts);
      assert SpellAll(naming, parts, ranges) && text == Join(parts, ",");
      SpelledCount(naming, parts, ranges);
    }
    if SpellsField(naming, text, Values(ranges)) {
      var typed :| text == Join(typed, ",") && SpellAll(naming, typed, ranges);
      SpelledParts(naming, text, typed, ranges);
    }
  }

  lemma SpelledCount(naming: Naming, parts: seq<string>, ranges: seq<(nat, nat)>)
    requires SpellAll(naming, parts, ranges)
    ensures |parts| == |ranges|
  {
  }

  // ------------------------------------------------------------- expressions

  /** `expression` is five words that spell `f`, minutes first. */
  ghost predicate SpellsFields(expression: string, f: CronFields) {
    exists minute, hour, day, month, weekday ::
      && Spaces(expression, [minute, hour, day, month, weekday])
      && SpellsField(NUMBERS, minute, f.minute) && SpellsField(NUMBERS, hour, f.hour)
      && SpellsField(NUMBERS, day, f.day)
      && SpellsField(OF_MONTHS, month, f.month) && SpellsField(OF_WEEKDAYS, weekday, f.weekday)
  }

  lemma FieldsAre(expression: string, f: CronFields)
    ensures ParseFields(expression) == Some(f) <==> SpellsFields(expression, f)
  {
    var words := Words(expression);
    hide Words, FieldOf, SpellsField, FieldNames, Used, MONTHS, WEEKDAYS;
    forall a, b, c, d, e
      ensures words == [a, b, c, d, e] <==> Spaces(expression, [a, b, c, d, e])
    {
      WordsAre(expression, [a, b, c, d, e]);
    }
    if |words| == 5 {
      assert words == [words[0], words[1], words[2], words[3], words[4]];
      FiveAre(words, f);
    }
  }

  lemma FiveAre(words: seq<string>, f: CronFields)
    requires |words| == 5
    ensures FieldNames([]) && FieldNames(MONTHS) && FieldNames(WEEKDAYS)
    ensures FieldOf(words[0], [], false) == Some(f.minute) <==> SpellsField(NUMBERS, words[0], f.minute)
    ensures FieldOf(words[1], [], false) == Some(f.hour) <==> SpellsField(NUMBERS, words[1], f.hour)
    ensures FieldOf(words[2], [], false) == Some(f.day) <==> SpellsField(NUMBERS, words[2], f.day)
    ensures FieldOf(words[3], MONTHS, false) == Some(f.month) <==> SpellsField(OF_MONTHS, words[3], f.month)
    ensures FieldOf(words[4], WEEKDAYS, true) == Some(f.weekday) <==> SpellsField(OF_WEEKDAYS, words[4], f.weekday)
  {
    hide FieldOf, SpellsField, FieldNames;
    FieldIs(NUMBERS, words[0], f.minute);
    FieldIs(NUMBERS, words[1], f.hour);
    FieldIs(NUMBERS, words[2], f.day);
    FieldIs(OF_MONTHS, words[3], f.month);
    FieldIs(OF_WEEKDAYS, words[4], f.weekday);
  }

  // ------------------------------------------------------------ names in words

  /** The name of the value `v`. */
  function NameOf(naming: Naming, v: nat): string
    requires HasName(v, naming.names, naming.first)
  {
    naming.names[v - naming.first]
  }

  /** `text` stands for named values, and `words` says their names: one, or two with "to" between them. */
  ghost predicate SaysRange(naming: Naming, text: string, words: string) {
    || (exists v :: HasName(v, naming.names, naming.first) && Spells(naming, text, v) && words == NameOf(naming, v))
    || (exists low, high, v, w ::
          && text == low + "-" + high && Spells(naming, low, v) && Spells(naming, high, w)
          && HasName(v, naming.names, naming.first) && HasName(w, naming.names, naming.first)
          && words == if v == w then NameOf(naming, v) else NameOf(naming, v) + " to " + NameOf(naming, w))
  }

  /** `text` is a list of such parts, and `shown` what each of them says. */
  ghost predicate Says(naming: Naming, text: string, shown: seq<string>) {
    exists parts: seq<string> :: text == Join(parts, ",") && |parts| == |shown| > 0
      && forall i :: 0 <= i < |parts| ==> SaysRange(naming, parts[i], shown[i])
  }

  lemma RangeSays(naming: Naming, text: string, range: (nat, nat))
    requires SpellsRange(naming, text, range)
    requires HasName(range.0, naming.names, naming.first) && HasName(range.1, naming.names, naming.first)
    ensures SaysRange(naming, text, NamedRange(range, naming.names, naming.first))
  {
    hide Spells;
  }

  /** A field that has a name is shown as the names that were typed for it, in order. */
  lemma NamedIsTyped(naming: Naming, text: string, f: Field)
    requires SpellsField(naming, text, f) && Named(f, naming.names, naming.first).Some?
    ensures exists shown :: Says(naming, text, shown) && Named(f, naming.names, naming.first) == Some(Listing(shown))
  {
    var parts :| text == Join(parts, ",") && SpellAll(naming, parts, f.ranges);
    hide SpellsRange, SaysRange, NamedRange;
    var shown := seq(|f.ranges|, i requires 0 <= i < |f.ranges| => NamedRange(f.ranges[i], naming.names, naming.first));
    forall i | 0 <= i < |parts|
      ensures SaysRange(naming, parts[i], shown[i])
    {
      RangeSays(naming, parts[i], f.ranges[i]);
    }
    assert Says(naming, text, shown);
  }

  /** `piece` stands in `text`. */
  ghost predicate Within(piece: string, text: string) {
    exists before, after :: text == before + piece + after
  }

  lemma WithinMore(piece: string, text: string, before: string, after: string)
    requires Within(piece, text)
    ensures Within(piece, before + text + after) && Within(piece, before + text) && Within(piece, text + after)
  {
    var a, b :| text == a + piece + b;
    assert before + text + after == (before + a) + piece + (b + after);
    assert before + text == (before + a) + piece + b;
    assert text + after == a + piece + (b + after);
  }

  lemma WithinItself(piece: string)
    ensures Within(piece, piece)
  {
    assert piece == "" + piece + "";
  }

  /** The days of a reading name the months and the weekdays, unless any will do. */
  lemma DaysName(day: Field, month: Field, weekday: Field)
    requires DaysText(day, month, weekday).Some?
    ensures !month.Any? ==>
              var names := Named(month, MONTHS, 1);
              var days := DaysText(day, month, weekday).value;
              names.Some? && days.Some? && Within(names.value, days.value)
    ensures !weekday.Any? ==>
              var names := Named(weekday, WEEKDAYS, 0);
              var days := DaysText(day, month, weekday).value;
              names.Some? && days.Some? && Within(names.value, days.value)
  {
    hide Named, Singles, Listing, Ordinals, MONTHS, WEEKDAYS, Within;
    var months := MonthsText(month).value;
    if months.Some? {
      WithinItself(months.value);
      WithinMore(months.value, months.value, " in ", "");
      assert InMonths(months) == " in " + months.value;
    }
    var days := DaysText(day, month, weekday).value;
    if !weekday.Any? {
      var names := Named(weekday, WEEKDAYS, 0).value;
      WithinItself(names);
      if day.Any? {
        WithinMore(names, names, "every ", InMonths(months));
        if months.Some? { WithinMore(months.value, InMonths(months), "every " + names, ""); }
      } else {
        var start := "on the " + Listing(Ordinals(Singles(day).value)) + " and every ";
        WithinMore(names, names, start, InMonths(months));
        assert days == Some(start + names + InMonths(months));
        if months.Some? { WithinMore(months.value, InMonths(months), start + names, ""); }
      }
    } else if day.Any? {
      if months.Some? { WithinMore(months.value, InMonths(months), "every day", ""); }
    } else if months.Some? {
      var start := "on the " + Listing(Ordinals(Singles(day).value)) + " of ";
      WithinMore(months.value, months.value, start, "");
    }
  }

  lemma ReadingHasDays(f: CronFields, piece: string)
    requires Reading(f).Some?
    ensures DaysText(f.day, f.month, f.weekday).Some?
    ensures var days := DaysText(f.day, f.month, f.weekday).value;
            days.Some? && Within(piece, days.value) ==> Within(piece, Reading(f).value)
  {
    hide DaysText, TimeText, Within;
    var days, time := DaysText(f.day, f.month, f.weekday).value, TimeText(f.minute, f.hour).value;
    if days.Some? && Within(piece, days.value) {
      WithinMore(piece, days.value, time + ", ", " " + time);
      assert days.value + " " + time == days.value + (" " + time);
    }
  }

  /** A reading names the months and the weekdays as they were typed, by names or by numbers. */
  lemma ReadingSaysWhatIsTyped(expression: string, minute: string, hour: string, day: string, month: string,
      weekday: string)
    requires Spaces(expression, [minute, hour, day, month, weekday]) && CronReading(expression).Some?
    ensures var reading := CronReading(expression).value;
            && (month != "*" ==> exists shown :: Says(OF_MONTHS, month, shown) && Within(Listing(shown), reading))
            && (weekday != "*" ==> exists shown :: Says(OF_WEEKDAYS, weekday, shown) && Within(Listing(shown), reading))
  {
    var f := ParseFields(expression).value;
    WordsAre(expression, [minute, hour, day, month, weekday]);
    hide Words, Reading, FieldOf, Spaces;
    FiveAre([minute, hour, day, month, weekday], f);
    hide ParseFields, FieldNames, Says, Within, Listing, MONTHS, WEEKDAYS;
    ReadingHasDays(f, "");
    DaysName(f.day, f.month, f.weekday);
    if month != "*" {
      var shown := TypedNames(OF_MONTHS, month, f.month);
      ReadingHasDays(f, Listing(shown));
    }
    if weekday != "*" {
      var shown := TypedNames(OF_WEEKDAYS, weekday, f.weekday);
      ReadingHasDays(f, Listing(shown));
    }
  }

  lemma TypedNames(naming: Naming, text: string, f: Field) returns (shown: seq<string>)
    requires SpellsField(naming, text, f) && text != "*"
    requires !f.Any? ==> Named(f, naming.names, naming.first).Some?
    ensures !f.Any? && Says(naming, text, shown) && Named(f, naming.names, naming.first) == Some(Listing(shown))
  {
    hide Named, Says;
    NamedIsTyped(naming, text, f);
    shown :| Says(naming, text, shown) && Named(f, naming.names, naming.first) == Some(Listing(shown));
  }

  // ----------------------------------------------------- what has a reading

  /** The field is a list of single values. */
  predicate AllSingle(f: Field) {
    f.Values? && forall i :: 0 <= i < |f.ranges| ==> f.ranges[i].0 == f.ranges[i].1
  }

  /** The field is a list of values from `low` to `high`. */
  predicate AllBetween(f: Field, low: nat, high: nat) {
    f.Values? && forall i :: 0 <= i < |f.ranges| ==> low <= f.ranges[i].0 <= high && low <= f.ranges[i].1 <= high
  }

  /** Every minute or some step of them, or one minute of every hour, of a step of hours, or of some hours. */
  predicate TimesHaveWords(minute: Field, hour: Field) {
    || (hour.Any? && (minute.Any? || minute.Every?))
    || (AllSingle(minute) && |minute.ranges| == 1 && (hour.Any? || hour.Every? || AllSingle(hour)))
  }

  /** Any days or single ones, and any weekdays and months or ones there are. */
  predicate DaysHaveWords(day: Field, month: Field, weekday: Field) {
    && (day.Any? || AllSingle(day))
    && (month.Any? || AllBetween(month, 1, 12))
    && (weekday.Any? || AllBetween(weekday, 0, 6))
  }

  /** The expressions that have a reading. */
  lemma HasReadingIff(expression: string)
    ensures CronReading(expression).Some? <==>
            exists f :: SpellsFields(expression, f) && TimesHaveWords(f.minute, f.hour)
                        && DaysHaveWords(f.day, f.month, f.weekday)
  {
    forall f
      ensures ParseFields(expression) == Some(f) <==> SpellsFields(expression, f)
      ensures Reading(f).Some? <==> TimesHaveWords(f.minute, f.hour) && DaysHaveWords(f.day, f.month, f.weekday)
    {
      FieldsAre(expression, f);
      TimesTextIff(f.minute, f.hour);
      DaysTextIff(f.day, f.month, f.weekday);
      hide ParseFields, SpellsFields, TimesHaveWords, DaysHaveWords, TimeText, DaysText;
    }
    hide ParseFields, SpellsFields, TimesHaveWords, DaysHaveWords, Reading;
    if ParseFields(expression).Some? {
      assert SpellsFields(expression, ParseFields(expression).value);
    }
  }

  lemma TimesTextIff(minute: Field, hour: Field)
    ensures TimeText(minute, hour).Some? <==> TimesHaveWords(minute, hour)
  {
    hide Listing, ClockTimes, Decimal, Padded;
  }

  lemma NamedIff(f: Field, names: seq<string>, first: nat)
    requires names != []
    ensures Named(f, names, first).Some? <==> AllBetween(f, first, first + |names| - 1)
  {
    hide Listing, NamedRange;
  }

  lemma DaysTextIff(day: Field, month: Field, weekday: Field)
    ensures DaysText(day, month, weekday).Some? <==> DaysHaveWords(day, month, weekday)
  {
    NamedIff(month, MONTHS, 1);
    NamedIff(weekday, WEEKDAYS, 0);
    hide Named, Listing, Ordinals, MONTHS, WEEKDAYS, AllBetween;
  }

  // ------------------------------------------------------------------ ordinals

  /** A day's suffix, by how its digits end: "th" after a 1 and a digit, else by the last digit. */
  lemma OrdinalIs(day: nat)
    ensures var digits := Decimal(day);
            var last := digits[|digits| - 1];
            var teen := |digits| > 1 && digits[|digits| - 2] == '1';
            Ordinal(day) == digits + if teen then "th" else if last == '1' then "st" else if last == '2' then "nd"
                                     else if last == '3' then "rd" else "th"
  {
    LastDigit(day);
    TensAndOnes(day);
    if day >= 10 {
      LastDigit(day / 10);
      assert Decimal(day) == Decimal(day / 10) + [DigitChar(day % 10)];
    }
    hide Decimal, DigitChar;
  }

  lemma LastDigit(n: nat)
    ensures var digits := Decimal(n);
            digits[|digits| - 1] as int - '0' as int == n % 10 && (|digits| > 1 <==> n >= 10)
  {
  }

  lemma TensAndOnes(n: nat)
    ensures n % 100 == 10 * (n / 10 % 10) + n % 10
  {
  }
}
