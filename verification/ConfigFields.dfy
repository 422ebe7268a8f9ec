/**
  One field of the Configuration form: the values it can show, the text it
  shows them as, and the change a draft of that text makes (`ConfigField` and
  `FormField` in config_form.rs).
 */
module ConfigFields {
  import opened Results
  import opened Text
  import opened ConfigValues
  import opened ModelLists

  datatype FieldKind =
    | BoolKind
    | IntegerKind
    | NumberKind
    | TextKind
    | ChoiceKind(options: seq<string>)
    | ChoicesKind(options: seq<string>)
    | SecretKind
    | ModelsKind

  datatype FieldDefault = DefaultValue(text: string) | Note(note: string)

  datatype ConfigField = ConfigField(key: Key, kind: FieldKind, default: FieldDefault)

  /** A field with its value, unless it is unset; `MASK` stands for every credential. */
  datatype FormField = FormField(field: ConfigField, value: Option<Value>)

  /** Number and JSON text, as the standard library and serde_json print and read them. */
  datatype Library = Library(
    printFloat: real -> string,
    parseFloat: string -> Option<real>,
    printJson: Value -> string,
    parseJson: string -> Option<Value>)

  /** The library reads back what it prints for this one value, as text without blanks around it. */
  predicate ReadsBack(lib: Library, value: Value) {
    && (value.Float? ==>
          var t := lib.printFloat(value.f); t != [] && Trimmed(t) && lib.parseFloat(t) == Some(value.f))
    && (var t := lib.printJson(value); t != [] && Trimmed(t) && lib.parseJson(t) == Some(value))
  }

  /** Such libraries exist: this one reads back every whole float in `i64`, and every integer as JSON. */
  lemma WholeNumbersReadBack() returns (lib: Library)
    ensures forall i :: I64_MIN <= i <= I64_MAX ==> ReadsBack(lib, Int(i)) && ReadsBack(lib, Float(i as real))
  {
    lib := Library(
      (f: real) => PrintInt(f.Floor),
      (t: string) => match ParseI64(t) case Some(i) => Some(i as real) case None => None,
      (v: Value) => if v.Int? then PrintInt(v.i) else if v.Float? then "f" + PrintInt(v.f.Floor) else "null",
      (t: string) => ParseTagged(t));
    forall i | I64_MIN <= i <= I64_MAX
      ensures ReadsBack(lib, Int(i)) && ReadsBack(lib, Float(i as real))
    {
      I64RoundTrip(i);
      TaggedReadsBack(i);
    }
  }

  /** An integer, or one after an `f` for a float. */
  function ParseTagged(t: string): Option<Value> {
    if t != [] && t[0] == 'f' then
      match ParseI64(t[1..]) case Some(i) => Some(Float(i as real)) case None => None
    else
      match ParseI64(t) case Some(i) => Some(Int(i)) case None => None
  }

  lemma TaggedReadsBack(i: int)
    requires I64_MIN <= i <= I64_MAX
    ensures var t := PrintInt(i);
            && t != [] && Trimmed(t) && ParseTagged(t) == Some(Int(i))
            && Trimmed("f" + t) && ParseTagged("f" + t) == Some(Float(i as real))
  {
    I64RoundTrip(i);
    var t := PrintInt(i);
    assert ("f" + t)[1..] == t;
    assert ("f" + t)[|t|] == t[|t| - 1];
  }

  /** The options of a choice are plain words, as every one in `SECTIONS` is. */
  predicate PlainOptions(kind: FieldKind) {
    (kind.ChoiceKind? || kind.ChoicesKind?) ==>
      forall i :: 0 <= i < |kind.options| ==>
        kind.options[i] != [] && Trimmed(kind.options[i]) && Lacks(kind.options[i], ',')
  }

  /** Whether the field can show `value`. */
  predicate Accepts(kind: FieldKind, value: Value) {
    match kind
    case BoolKind => value.Bool?
    case IntegerKind => value.Int? && I64_MIN <= value.i <= U64_MAX
    case NumberKind => value.Int? || value.Float?
    case TextKind => value.Str?
    case SecretKind => value.Str?
    case ChoiceKind(options) => value.Str? && value.s in options
    case ChoicesKind(options) =>
      value.Arr? && forall i :: 0 <= i < |value.items| ==> value.items[i].Str? && value.items[i].s in options
    case ModelsKind => ModelsFromValue(value).Some?
  }

  function Display(lib: Library, value: Value): string {
    match value
    case Bool(b) => if b then "true" else "false"
    case Int(i) => PrintInt(i)
    case Float(f) => lib.printFloat(f)
    case _ => lib.printJson(value)
  }

  function Strings(values: seq<Value>): seq<string> {
    if values == [] then []
    else (if values[0].Str? then [values[0].s] else []) + Strings(values[1..])
  }

  /** `value` as the field's text. */
  function TextOf(lib: Library, kind: FieldKind, value: Value): string {
    match kind
    case SecretKind => ""
    case ModelsKind => Display(lib, value)
    case ChoicesKind(_) => if value.Arr? then Join(Strings(value.items), ",") else ""
    case BoolKind => Display(lib, value)
    case IntegerKind => Display(lib, value)
    case NumberKind => Display(lib, value)
    case TextKind => if value.Str? then value.s else ""
    case ChoiceKind(_) => if value.Str? then value.s else ""
  }

  /** The names of a `Choices` text, each an option; `None` when one is not. */
  function ChosenFrom(options: seq<string>, names: seq<string>): (r: Option<seq<Value>>)
    ensures r.Some? ==> |r.value| == |names|
    ensures r.Some? ==> forall i :: 0 <= i < |names| ==> r.value[i] == Str(Trim(names[i])) && Trim(names[i]) in options
    ensures r.None? ==> exists i :: 0 <= i < |names| && Trim(names[i]) !in options
  {
    hide Trim;
    if names == [] then Some([])
    else if Trim(names[0]) !in options then None
    else match ChosenFrom(options, names[1..])
      case None =>
        var rest := names[1..];
        assert forall i :: 0 <= i < |rest| ==> rest[i] == names[i + 1];
        None
      case Some(rest) =>
        assert forall i :: 1 <= i < |names| ==> names[1..][i - 1] == names[i];
        Some([Str(Trim(names[0]))] + rest)
  }

  /** The loop of the `Choices` branch of `parse`. */
  method ParseChoices(options: seq<string>, text: string) returns (r: Option<seq<Value>>)
    ensures r == ChosenFrom(options, Split(text, ','))
  {
    var names := Split(text, ',');
    var chosen: seq<Value> := [];
    for i := 0 to |names|
      invariant |chosen| == i
      invariant forall j :: 0 <= j < i ==> Trim(names[j]) in options && chosen[j] == Str(Trim(names[j]))
    {
      if Trim(names[i]) !in options {
        return None;
      }
      chosen := chosen + [Str(Trim(names[i]))];
    }
    assert ChosenFrom(options, names).Some?;
    assert ChosenFrom(options, names).value == chosen;
    return Some(chosen);
  }

  /** What `text` reads as: no value when it is blank, or what is wrong with it. */
  function Parse(lib: Library, kind: FieldKind, text: string): Result<Option<Value>, string> {
    var t := Trim(text);
    if t == [] then Ok(None)
    else match kind
      case BoolKind => Ok(Some(Bool(t == "true")))
      case IntegerKind =>
        (match ParseI64(t) case Some(i) => Ok(Some(Int(i))) case None => Err("must be a whole number"))
      case NumberKind =>
        (match lib.parseFloat(t) case Some(f) => Ok(Some(Float(f))) case None => Err("must be a number"))
      case TextKind => Ok(Some(Str(t)))
      case ChoiceKind(options) =>
        if t in options then Ok(Some(Str(t))) else Err("must be one of " + Join(options, ", "))
      case ChoicesKind(options) =>
        (match ChosenFrom(options, Split(t, ','))
         case Some(values) => Ok(Some(Arr(values)))
         case None => Err("must be from " + Join(options, ", ")))
      case SecretKind => Err("change this one in the file")
      case ModelsKind =>
        match lib.parseJson(t)
        case Some(v) => if ModelsFromValue(v).Some? then Ok(Some(v)) else Err("is not a model list")
        case None => Err("is not a model list")
  }

  function DefaultText(field: ConfigField): Option<string> {
    match field.default
    case DefaultValue(text) => Some(text)
    case Note(_) => None
  }

  function CurrentText(lib: Library, f: FormField): string {
    if f.value.Some? then TextOf(lib, f.field.kind, f.value.value) else ""
  }

  function ShownText(lib: Library, f: FormField, draft: Option<string>): string {
    var authored := if draft.Some? then draft.value else CurrentText(lib, f);
    if Trim(authored) == [] then (if DefaultText(f.field).Some? then DefaultText(f.field).value else "")
    else authored
  }

  /** The change `draft` makes, if any: `Some(None)` removes the key. */
  function Change(lib: Library, f: FormField, draft: string): Result<Option<Option<Value>>, string> {
    match Parse(lib, f.field.kind, draft)
    case Err(e) => Err(e)
    case Ok(next) =>
      if next == f.value then Ok(None)
      else if f.value.None? && DefaultText(f.field).Some? then
        match Parse(lib, f.field.kind, DefaultText(f.field).value)
        case Err(e) => Err(e)
        case Ok(default) => if next == default then Ok(None) else Ok(Some(next))
      else Ok(Some(next))
  }

  // ------------------------------------------------------------- round trips

  /** The values that `parse` can write. */
  predicate Canonical(kind: FieldKind, value: Value) {
    match kind
    case BoolKind => value.Bool?
    case IntegerKind => value.Int? && I64_MIN <= value.i <= I64_MAX
    case NumberKind => value.Float?
    case TextKind => value.Str? && value.s != [] && Trimmed(value.s)
    case SecretKind => false
    case ChoiceKind(options) => value.Str? && value.s in options
    case ChoicesKind(options) => Accepts(kind, value) && value.items != []
    case ModelsKind => ModelsFromValue(value).Some?
  }

  /** A credential has no text, a switch shows as a word, and every integer of 64 bits can be shown, signed or not. */
  lemma ShownTexts(lib: Library, value: Value)
    ensures TextOf(lib, SecretKind, value) == ""
    ensures TextOf(lib, BoolKind, Bool(true)) == "true" && TextOf(lib, BoolKind, Bool(false)) == "false"
    ensures forall i :: Accepts(IntegerKind, Int(i)) <==> I64_MIN <= i <= I64_MAX || 0 <= i <= U64_MAX
    ensures Accepts(NumberKind, value) <==> value.Int? || value.Float?
  {}

  /** Every value a text parses to is one the field shows, in its canonical form. */
  lemma ParsedIsAccepted(lib: Library, kind: FieldKind, text: string)
    ensures Parse(lib, kind, text).Ok? && Parse(lib, kind, text).value.Some? ==>
              && Accepts(kind, Parse(lib, kind, text).value.value)
              && Canonical(kind, Parse(lib, kind, text).value.value)
  {}

  lemma {:induction false} StringsOf(values: seq<Value>)
    requires forall i :: 0 <= i < |values| ==> values[i].Str?
    ensures |Strings(values)| == |values|
    ensures forall i :: 0 <= i < |values| ==> Strings(values)[i] == values[i].s
  {
    if values != [] {
      StringsOf(values[1..]);
    }
  }

  lemma {:induction false} JoinTrimmed(parts: seq<string>, sep: string)
    requires parts != []
    requires forall i :: 0 <= i < |parts| ==> parts[i] != [] && Trimmed(parts[i])
    ensures Join(parts, sep) != [] && Trimmed(Join(parts, sep))
  {
    if |parts| > 1 {
      JoinTrimmed(parts[1..], sep);
      var s := Join(parts, sep);
      assert s[|s| - 1] == Join(parts[1..], sep)[|Join(parts[1..], sep)| - 1];
    }
  }

  /** A list of options reads back from its text, unless it is empty. */
  lemma ChoicesRoundTrip(options: seq<string>, values: seq<Value>)
    requires PlainOptions(ChoicesKind(options)) && Accepts(ChoicesKind(options), Arr(values)) && values != []
    ensures var t := Join(Strings(values), ",");
            t != [] && Trimmed(t) && ChosenFrom(options, Split(t, ',')) == Some(values)
  {
    StringsOf(values);
    var names := Strings(values);
    forall i | 0 <= i < |names|
      ensures names[i] in options && names[i] != [] && Trimmed(names[i]) && Lacks(names[i], ',')
    {
      assert values[i].s in options;
    }
    JoinTrimmed(names, ",");
    SplitJoin(names, ',');
    assert forall i :: 0 <= i < |names| ==> Trim(names[i]) == names[i];
    assert ChosenFrom(options, names).value == values;
  }

  lemma CanonicalRoundTrip(lib: Library, kind: FieldKind, value: Value)
    requires ReadsBack(lib, value) && PlainOptions(kind) && Canonical(kind, value)
    ensures Parse(lib, kind, TextOf(lib, kind, value)) == Ok(Some(value))
  {
    CanonicalText(lib, kind, value);
    TrimOfTrimmed(TextOf(lib, kind, value));
    hide Trim, ModelsFromValue, PrintInt;
    match kind
    case IntegerKind => I64RoundTrip(value.i);
    case ChoicesKind(options) =>
      ChoicesRoundTrip(options, value.items);
      hide ChosenFrom, Split, Join, Strings;
    case _ =>
  }

  lemma CanonicalText(lib: Library, kind: FieldKind, value: Value)
    requires ReadsBack(lib, value) && PlainOptions(kind) && Canonical(kind, value)
    ensures TextOf(lib, kind, value) != "" && Trimmed(TextOf(lib, kind, value))
  {
    hide ModelsFromValue, PrintInt;
    if kind.ChoicesKind? { ChoicesRoundTrip(kind.options, value.items); }
  }

  /** A shown value reads back from its text exactly when it is canonical. */
  lemma TextRoundTrip(lib: Library, kind: FieldKind, value: Value)
    requires ReadsBack(lib, value) && PlainOptions(kind) && Accepts(kind, value)
    ensures Parse(lib, kind, TextOf(lib, kind, value)) == Ok(Some(value)) <==> Canonical(kind, value)
  {
    if Canonical(kind, value) {
      CanonicalRoundTrip(lib, kind, value);
    } else {
      ParsedIsAccepted(lib, kind, TextOf(lib, kind, value));
    }
  }

  lemma BlankReadsAsNothing(lib: Library, kind: FieldKind, text: string)
    ensures Trim(text) == [] ==> Parse(lib, kind, text) == Ok(None)
    ensures Trim("") == []
  {}

  /** The default's text means something to the field, as every one in `SECTIONS` does. */
  predicate DefaultParses(lib: Library, field: ConfigField) {
    DefaultText(field).Some? ==> Parse(lib, field.kind, DefaultText(field).value).Ok?
  }

  /**
    Submitting what a field shows changes nothing exactly when the field is
    unset with a default it understands, or set to a canonical value.
   */
  lemma SubmittingShownText(lib: Library, f: FormField)
    requires PlainOptions(f.field.kind)
    requires f.value.Some? ==> ReadsBack(lib, f.value.value) && Accepts(f.field.kind, f.value.value)
    ensures Change(lib, f, ShownText(lib, f, None)) == Ok(None) <==>
            (if f.value.Some? then Canonical(f.field.kind, f.value.value) else DefaultParses(lib, f.field))
  {
    if f.value.Some? {
      var v := f.value.value;
      TextRoundTrip(lib, f.field.kind, v);
      ParsedIsAccepted(lib, f.field.kind, ShownText(lib, f, None));
      BlankReadsAsNothing(lib, f.field.kind, TextOf(lib, f.field.kind, v));
      hide Parse, TextOf, Canonical, Accepts, Trim, ReadsBack, PlainOptions;
    } else {
      BlankReadsAsNothing(lib, f.field.kind, "");
      hide TextOf, Canonical, Accepts, Trim;
    }
  }
}
