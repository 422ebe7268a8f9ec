/**
  A decoder that recovers the fields of an expression from its reading, so that
  no two readings of different schedules are the same text.
 */
module CronDecoder {
  import opened Results
  import opened Text
  import opened CronReadings

  // ---------------------------------------------------------------- prefixes

  function Strip(s: string, prefix: string): Option<string> {
    if prefix <= s then Some(s[|prefix|..]) else None
  }

  lemma Regroup(a: string, b: string, c: string, d: string)
    ensures (a + b + c) + d == a + (b + (c + d))
  {}

  lemma Stripped(prefix: string, rest: string)
    ensures Strip(prefix + rest, prefix) == Some(rest)
  {
    assert (prefix + rest)[|prefix|..] == rest;
  }

  /** One different character is enough for a prefix not to be there. */
  lemma NotStripped(s: string, prefix: string, i: nat)
    requires i < |prefix| && (i < |s| ==> s[i] != prefix[i])
    ensures Strip(s, prefix) == None
  {}

  // ----------------------------------------------------------------- numbers

  function DigitCount(s: string): (n: nat)
    ensures n <= |s| && AllDigits(s[..n])
    ensures n < |s| ==> !IsDigit(s[n])
  {
    if s == [] || !IsDigit(s[0]) then 0
    else
      var n := DigitCount(s[1..]);
      assert s[..n + 1] == [s[0]] + s[1..][..n];
      n + 1
  }

  function ParseNumber(s: string): (r: Option<(nat, string)>)
    ensures r.Some? ==> |r.value.1| < |s|
  {
    var n := DigitCount(s);
    if n == 0 then None else Some((DigitsValue(s[..n]), s[n..]))
  }

  lemma NumberDecodes(digits: string, rest: string)
    requires digits != [] && AllDigits(digits) && (rest == [] || !IsDigit(rest[0]))
    ensures ParseNumber(digits + rest) == Some((DigitsValue(digits), rest))
  {
    var s := digits + rest;
    assert forall i :: 0 <= i < |digits| ==> s[i] == digits[i];
    assert rest != [] ==> s[|digits|] == rest[0];
    var n := DigitCount(s);
    hide DigitCount, DigitsValue;
    assert forall i :: 0 <= i < n ==> s[..n][i] == s[i];
    assert n == |digits|;
    assert s[..|digits|] == digits && s[|digits|..] == rest;
  }

  lemma NoNumber(s: string)
    requires s == [] || !IsDigit(s[0])
    ensures ParseNumber(s) == None
  {}

  // ------------------------------------------------------------------- names

  function FindName(names: seq<string>, s: string): (r: Option<nat>)
    ensures r.Some? ==> r.value < |names| && names[r.value] <= s
  {
    if names == [] then None
    else if names[0] <= s then Some(0)
    else match FindName(names[1..], s)
      case None => None
      case Some(n) => Some(n + 1)
  }

  /** No name starts another, and none is empty. */
  ghost predicate PrefixFree(names: seq<string>) {
    && (forall i :: 0 <= i < |names| ==> names[i] != [] && 'A' <= names[i][0] <= 'Z')
    && forall i, j :: 0 <= i < |names| && 0 <= j < |names| && i != j ==> !(names[i] <= names[j])
  }

  lemma NamesArePrefixFree()
    ensures PrefixFree(WEEKDAYS) && PrefixFree(MONTHS)
  {
    WeekdayNames();
    MonthNames();
  }

  lemma WeekdayNames()
    ensures PrefixFree(WEEKDAYS)
  {
    var n := WEEKDAYS;
    assert n[0][..2] == "Su" && n[1][..2] == "Mo" && n[2][..2] == "Tu" && n[3][..2] == "We" && n[4][..2] == "Th"
           && n[5][..2] == "Fr" && n[6][..2] == "Sa";
    assert forall i, j :: 0 <= i < 7 && 0 <= j < 7 && i != j ==> n[i][0] != n[j][0] || n[i][1] != n[j][1];
  }

  lemma MonthNames()
    ensures PrefixFree(MONTHS)
  {
    MonthsDiffer();
    var n := MONTHS;
    assert forall i :: 0 <= i < 12 ==> |n[i]| >= 3 && 'A' <= n[i][0] <= 'Z';
    hide MONTHS;
  }

  lemma MonthsDiffer()
    ensures var n := MONTHS;
            && |n| == 12 && (forall i :: 0 <= i < 12 ==> |n[i]| >= 3)
            && forall i, j :: 0 <= i < 12 && 0 <= j < 12 && i != j ==>
                 n[i][0] != n[j][0] || n[i][1] != n[j][1] || n[i][2] != n[j][2]
  {
    var n := MONTHS;
    assert n[0][..3] == "Jan" && n[1][..3] == "Feb" && n[2][..3] == "Mar" && n[3][..3] == "Apr" && n[4][..3] == "May"
           && n[5][..3] == "Jun";
    assert n[6][..3] == "Jul" && n[7][..3] == "Aug" && n[8][..3] == "Sep" && n[9][..3] == "Oct" && n[10][..3] == "Nov"
           && n[11][..3] == "Dec";
  }

  lemma {:induction false} FirstNameFound(names: seq<string>, s: string, i: nat)
    requires i < |names| && names[i] <= s && forall j :: 0 <= j < i ==> !(names[j] <= s)
    ensures FindName(names, s) == Some(i)
  {
    if i > 0 {
      FirstNameFound(names[1..], s, i - 1);
    }
  }

  lemma NameDecodes(names: seq<string>, i: nat, rest: string)
    requires PrefixFree(names) && i < |names|
    ensures FindName(names, names[i] + rest) == Some(i)
  {
    var s := names[i] + rest;
    forall j | 0 <= j < i
      ensures !(names[j] <= s)
    {
      PrefixesCompare(names[i], names[j], s);
      assert !(names[i] <= names[j]) && !(names[j] <= names[i]);
    }
    FirstNameFound(names, s, i);
  }

  lemma PrefixesCompare(a: string, b: string, s: string)
    ensures a <= s && b <= s ==> a <= b || b <= a
  {
    if a <= s && b <= s {
      assert forall i :: 0 <= i < |a| && i < |b| ==> a[i] == s[i] == b[i];
    }
  }

  // ------------------------------------------------------------- list pieces

  datatype Kind = Clocks | Days | Names(names: seq<string>, offset: nat)

  /** One item of a list in a reading: a time, a day of the month, or a range of names. */
  datatype Piece = Clock(hour: nat, minute: nat) | Day(day: nat) | Range(low: nat, high: nat)

  ghost predicate ValidKind(k: Kind) { k.Names? ==> PrefixFree(k.names) }

  predicate ValidPiece(k: Kind, p: Piece) {
    match k
    case Clocks => p.Clock?
    case Days => p.Day?
    case Names(names, offset) => p.Range? && HasName(p.low, names, offset) && HasName(p.high, names, offset)
  }

  function PieceText(k: Kind, p: Piece): string
    requires ValidPiece(k, p)
  {
    match p
    case Clock(h, m) => ClockTime(h, m)
    case Day(d) => Ordinal(d)
    case Range(low, high) => NamedRange((low, high), k.names, k.offset)
  }

  function ParseClock(s: string): (r: Option<(Piece, string)>)
    ensures r.Some? ==> |r.value.1| < |s|
  {
    match ParseNumber(s)
    case None => None
    case Some((h, r)) =>
      match Strip(r, ":")
      case None => None
      case Some(r) =>
        match ParseNumber(r)
        case None => None
        case Some((m, r)) => Some((Clock(h, m), r))
  }

  function ParseDay(s: string): (r: Option<(Piece, string)>)
    ensures r.Some? ==> |r.value.1| < |s|
  {
    match ParseNumber(s)
    case None => None
    case Some((d, r)) => if |r| < 2 then None else Some((Day(d), r[2..]))
  }

  function ParseRange(names: seq<string>, offset: nat, s: string): (r: Option<(Piece, string)>)
    ensures r.Some? ==> |r.value.1| <= |s|
  {
    match FindName(names, s)
    case None => None
    case Some(low) =>
      var r := s[|names[low]|..];
      match Strip(r, " to ")
      case None => Some((Range(low + offset, low + offset), r))
      case Some(r) =>
        match FindName(names, r)
        case None => None
        case Some(high) => Some((Range(low + offset, high + offset), r[|names[high]|..]))
  }

  function ParsePiece(k: Kind, s: string): (r: Option<(Piece, string)>)
    ensures r.Some? ==> |r.value.1| <= |s|
  {
    match k
    case Clocks => ParseClock(s)
    case Days => ParseDay(s)
    case Names(names, offset) => ParseRange(names, offset, s)
  }

  /** A piece ends before `rest`. */
  predicate Stops(k: Kind, rest: string) {
    match k
    case Clocks => rest == [] || !IsDigit(rest[0])
    case Days => true
    case Names(_, _) => !(" to " <= rest)
  }

  lemma ClockDecodes(h: nat, m: nat, rest: string)
    requires rest == [] || !IsDigit(rest[0])
    ensures ParseClock(ClockTime(h, m) + rest) == Some((Clock(h, m), rest))
  {
    hide ParseNumber, Strip, Padded, DigitsValue;
    var tail := ":" + (Padded(m) + rest);
    assert ClockTime(h, m) + rest == Padded(h) + tail;
    NumberDecodes(Padded(h), tail);
    PaddedValue(h);
    Stripped(":", Padded(m) + rest);
    NumberDecodes(Padded(m), rest);
    PaddedValue(m);
  }

  lemma DayDecodes(d: nat, rest: string)
    ensures ParseDay(Ordinal(d) + rest) == Some((Day(d), rest))
  {
    var tail := OrdinalSuffix(d) + rest;
    assert Ordinal(d) + rest == Decimal(d) + tail;
    NumberDecodes(Decimal(d), tail);
    DecimalValue(d);
    assert tail[2..] == rest;
  }

  lemma NameDecodesAt(names: seq<string>, i: nat, rest: string)
    requires PrefixFree(names) && i < |names|
    ensures FindName(names, names[i] + rest) == Some(i) && (names[i] + rest)[|names[i]|..] == rest
  {
    NameDecodes(names, i, rest);
  }

  lemma OneNameDecodes(names: seq<string>, offset: nat, i: nat, rest: string)
    requires PrefixFree(names) && i < |names| && !(" to " <= rest)
    ensures ParseRange(names, offset, names[i] + rest) == Some((Range(i + offset, i + offset), rest))
  {
    NameDecodesAt(names, i, rest);
  }

  lemma TwoNamesDecode(names: seq<string>, offset: nat, i: nat, j: nat, rest: string)
    requires PrefixFree(names) && i < |names| && j < |names|
    ensures ParseRange(names, offset, names[i] + (" to " + (names[j] + rest))) ==
              Some((Range(i + offset, j + offset), rest))
  {
    hide FindName, Strip, PrefixFree;
    var last := names[j] + rest;
    NameDecodesAt(names, i, " to " + last);
    Stripped(" to ", last);
    NameDecodesAt(names, j, rest);
  }

  lemma RangeDecodes(names: seq<string>, offset: nat, low: nat, high: nat, rest: string)
    requires PrefixFree(names) && HasName(low, names, offset) && HasName(high, names, offset)
    requires !(" to " <= rest)
    ensures ParseRange(names, offset, NamedRange((low, high), names, offset) + rest) == Some((Range(low, high), rest))
  {
    hide ParseRange, PrefixFree;
    var a, b := names[low - offset], names[high - offset];
    if low == high {
      OneNameDecodes(names, offset, low - offset, rest);
    } else {
      Regroup(a, " to ", b, rest);
      TwoNamesDecode(names, offset, low - offset, high - offset, rest);
    }
  }

  lemma PieceDecodes(k: Kind, p: Piece, rest: string)
    requires ValidKind(k) && ValidPiece(k, p) && Stops(k, rest)
    ensures ParsePiece(k, PieceText(k, p) + rest) == Some((p, rest))
  {
    match p
    case Clock(h, m) => ClockDecodes(h, m, rest);
    case Day(d) => DayDecodes(d, rest);
    case Range(low, high) => RangeDecodes(k.names, k.offset, low, high, rest);
  }

  // ------------------------------------------------------------------- lists

  predicate ValidPieces(k: Kind, ps: seq<Piece>) {
    forall i :: 0 <= i < |ps| ==> ValidPiece(k, ps[i])
  }

  function PieceTexts(k: Kind, ps: seq<Piece>): (r: seq<string>)
    requires ValidPieces(k, ps)
    ensures |r| == |ps|
  {
    seq(|ps|, i requires 0 <= i < |ps| => PieceText(k, ps[i]))
  }

  lemma ListingStep(parts: seq<string>)
    requires |parts| >= 3
    ensures Listing(parts) == parts[0] + ", " + Listing(parts[1..])
  {
    assert parts[..|parts| - 1][1..] == parts[1..][..|parts| - 2];
    var sep := ", ";
    var init := Join(parts[1..][..|parts| - 2], sep);
    assert Join(parts[..|parts| - 1], sep) == parts[0] + sep + init;
    assert parts[1..][|parts| - 2] == parts[|parts| - 1];
    var last := " and " + parts[|parts| - 1];
    assert parts[0] + sep + init + last == parts[0] + sep + (init + last);
    assert Listing(parts[1..]) == init + last;
  }

  lemma ListingOfOne(parts: seq<string>)
    requires |parts| == 1
    ensures Listing(parts) == parts[0]
  {}

  lemma ListingOfTwo(parts: seq<string>)
    requires |parts| == 2
    ensures Listing(parts) == parts[0] + " and " + parts[1]
  {
    assert parts[..1] == [parts[0]];
  }

  function ParseList(k: Kind, s: string): (r: Option<(seq<Piece>, string)>)
    ensures r.Some? ==> |r.value.1| <= |s|
    decreases |s|
  {
    match ParsePiece(k, s)
    case None => None
    case Some((p, r)) =>
      match Strip(r, ", ")
      case Some(next) =>
        (match ParseList(k, next)
         case None => Some(([p], r))
         case Some((ps, r)) => Some(([p] + ps, r)))
      case None =>
        match Strip(r, " and ")
        case None => Some(([p], r))
        case Some(next) =>
          match ParsePiece(k, next)
          case None => Some(([p], r))
          case Some((q, r)) => Some(([p, q], r))
  }

  /** A list ends before `rest`. */
  predicate ListStops(k: Kind, rest: string) {
    && Stops(k, rest)
    && !(", " <= rest)
    && (" and " <= rest ==> ParsePiece(k, rest[5..]).None?)
  }

  lemma {:induction false} ListDecodes(k: Kind, ps: seq<Piece>, rest: string)
    requires ValidKind(k) && ps != [] && ValidPieces(k, ps) && ListStops(k, rest)
    ensures ParseList(k, Listing(PieceTexts(k, ps)) + rest) == Some((ps, rest))
    decreases |ps|
  {
    hide ParseList, ParsePiece, ListStops, PieceText, Listing;
    var texts := PieceTexts(k, ps);
    if |ps| == 1 {
      OneDecodes(k, ps[0], rest);
      ListingOfOne(texts);
      assert ps == [ps[0]];
    } else if |ps| == 2 {
      ListingOfTwo(texts);
      StopsAtListEnd(k, rest);
      TwoDecode(k, ps[0], ps[1], rest);
      Regroup(texts[0], " and ", texts[1], rest);
      assert ps == [ps[0], ps[1]];
    } else {
      ListingStep(texts);
      assert texts[1..] == PieceTexts(k, ps[1..]);
      var more := Listing(PieceTexts(k, ps[1..])) + rest;
      Regroup(texts[0], ", ", Listing(texts[1..]), rest);
      ListDecodes(k, ps[1..], rest);
      MoreDecode(k, ps[0], ps[1..], more, rest);
      assert ps == [ps[0]] + ps[1..];
    }
  }

  lemma OneDecodes(k: Kind, p: Piece, rest: string)
    requires ValidKind(k) && ValidPiece(k, p) && ListStops(k, rest)
    ensures ParseList(k, PieceText(k, p) + rest) == Some(([p], rest))
  {
    PieceDecodes(k, p, rest);
    hide ParsePiece, PieceText, ValidPiece, Stops;
    if " and " <= rest {
      assert Strip(rest, " and ") == Some(rest[5..]);
    }
  }

  lemma TwoDecode(k: Kind, p: Piece, q: Piece, rest: string)
    requires ValidKind(k) && ValidPiece(k, p) && ValidPiece(k, q) && Stops(k, rest)
    ensures ParseList(k, PieceText(k, p) + (" and " + (PieceText(k, q) + rest))) == Some(([p, q], rest))
  {
    var last := PieceText(k, q) + rest;
    StopsBeforeSeparator(k, last);
    PieceDecodes(k, p, " and " + last);
    NotStripped(" and " + last, ", ", 0);
    Stripped(" and ", last);
    PieceDecodes(k, q, rest);
  }

  lemma MoreDecode(k: Kind, p: Piece, ps: seq<Piece>, more: string, rest: string)
    requires ValidKind(k) && ValidPiece(k, p)
    requires ParseList(k, more) == Some((ps, rest))
    ensures ParseList(k, PieceText(k, p) + (", " + more)) == Some(([p] + ps, rest))
  {
    StopsBeforeSeparator(k, more);
    PieceDecodes(k, p, ", " + more);
    Stripped(", ", more);
  }

  lemma StopsAtListEnd(k: Kind, rest: string)
    requires ListStops(k, rest)
    ensures Stops(k, rest)
  {}

  lemma StopsBeforeSeparator(k: Kind, rest: string)
    ensures Stops(k, ", " + rest) && Stops(k, " and " + rest)
  {
    assert (", " + rest)[0] == ',';
    assert (" and " + rest)[0] == ' ' && (" and " + rest)[1] == 'a';
  }
}
