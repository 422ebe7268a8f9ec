/**
  Model fields as the picker's choices and back (`models_from_value`,
  `models_to_value` in config_form.rs).
 */
module ModelLists {
  import opened Results
  import opened Identities
  import opened ConfigValues

  /** `OnboardingModelField`; `Unknown` is a field a newer daemon names. */
  datatype ModelField = DefaultModel | SmallModel | UtilityModel | Unknown

  datatype ModelChoice =
    | Model(model: string, variant: Option<string>)
    | SameAs(field: ModelField)

  /** The identities inside a choice have been validated. */
  predicate ValidChoice(c: ModelChoice) {
    c.Model? ==> ValidModelKey(c.model) && (c.variant.Some? ==> ValidVariantId(c.variant.value))
  }

  predicate ValidChoices(cs: seq<ModelChoice>) {
    forall i :: 0 <= i < |cs| ==> ValidChoice(cs[i])
  }

  function FieldName(f: ModelField): string {
    match f
    case DefaultModel => "default_model"
    case SmallModel => "small_model"
    case UtilityModel => "utility_model"
    case Unknown => "another field"
  }

  function Expression(f: ModelField): string { "${" + FieldName(f) + "}" }

  function FieldOfExpression(text: string): (r: Option<ModelField>)
    ensures r.Some? ==> r.value != Unknown && text == Expression(r.value)
    ensures r.None? ==> forall f :: f != Unknown ==> text != Expression(f)
  {
    if text == Expression(DefaultModel) then Some(DefaultModel)
    else if text == Expression(SmallModel) then Some(SmallModel)
    else if text == Expression(UtilityModel) then Some(UtilityModel)
    else None
  }

  // ----------------------------------------------------------------- reading

  function ChoiceOf(model: string, variant: Option<string>): (r: Option<ModelChoice>)
    requires variant.Some? ==> ValidVariantId(variant.value)
    ensures r.Some? ==> ValidChoice(r.value)
  {
    match FieldOfExpression(model)
    case Some(f) => if variant.None? then Some(SameAs(f)) else None
    case None => if ValidModelKey(model) then Some(Model(model, variant)) else None
  }

  function EntryOf(value: Value): (r: Option<ModelChoice>)
    ensures r.Some? ==> ValidChoice(r.value)
  {
    match value
    case Str(model) => ChoiceOf(model, None)
    case Obj(t) =>
      if !(t.Keys <= {"model", "variant"}) || "model" !in t || !t["model"].Str? then None
      else if "variant" !in t then ChoiceOf(t["model"].s, None)
      else if t["variant"].Str? && ValidVariantId(t["variant"].s) then
        ChoiceOf(t["model"].s, Some(t["variant"].s))
      else None
    case _ => None
  }

  function EntriesOf(values: seq<Value>): (r: Option<seq<ModelChoice>>)
    ensures r.Some? ==> |r.value| == |values| && ValidChoices(r.value)
    ensures r.Some? ==> forall i :: 0 <= i < |values| ==> EntryOf(values[i]) == Some(r.value[i])
    ensures r.None? ==> exists i :: 0 <= i < |values| && EntryOf(values[i]) == None
  {
    if values == [] then Some([])
    else match EntryOf(values[0])
      case None => None
      case Some(c) =>
        match EntriesOf(values[1..])
        case None =>
          assert forall i :: 0 <= i < |values[1..]| ==> values[1..][i] == values[i + 1];
          None
        case Some(cs) => Some([c] + cs)
  }

  function ModelsFromValue(value: Value): (r: Option<seq<ModelChoice>>)
    ensures r.Some? ==> r.value != [] && ValidChoices(r.value)
  {
    match value
    case Arr(values) => if values == [] then None else EntriesOf(values)
    case single =>
      match EntryOf(single)
      case None => None
      case Some(c) => Some([c])
  }

  /** `value` is a model's text alone, or a table of that text and perhaps a variant's, and nothing else. */
  predicate SpellsEntry(value: Value, model: string, variant: Option<string>) {
    match value
    case Str(text) => text == model && variant == None
    case Obj(table) =>
      && table == (if variant.Some? then map["model" := Str(model), "variant" := Str(variant.value)]
                   else map["model" := Str(model)])
    case _ => false
  }

  /** The model's text and the variant stand for `c`: another field's variable without a variant, or a key. */
  predicate StandsFor(model: string, variant: Option<string>, c: ModelChoice) {
    match c
    case SameAs(DefaultModel) => model == "${default_model}" && variant == None
    case SameAs(SmallModel) => model == "${small_model}" && variant == None
    case SameAs(UtilityModel) => model == "${utility_model}" && variant == None
    case SameAs(Unknown) => false
    case Model(key, v) => model == key && variant == v && ValidChoice(c)
  }

  lemma Expressions()
    ensures Expression(DefaultModel) == "${default_model}" && Expression(SmallModel) == "${small_model}"
    ensures Expression(UtilityModel) == "${utility_model}"
  {
  }

  lemma ChoiceIs(model: string, variant: Option<string>, c: ModelChoice)
    requires variant.Some? ==> ValidVariantId(variant.value)
    ensures ChoiceOf(model, variant) == Some(c) <==> StandsFor(model, variant, c)
  {
    Expressions();
    ExpressionReads(DefaultModel);
    ExpressionReads(SmallModel);
    ExpressionReads(UtilityModel);
    if ValidModelKey(model) { ModelIsNoExpression(model); }
    hide Expression, ValidModelKey, ValidVariantId;
  }

  /** An entry reads as a choice exactly when it spells it. */
  lemma EntryIs(value: Value, c: ModelChoice)
    ensures EntryOf(value) == Some(c) <==>
            exists model, variant :: SpellsEntry(value, model, variant) && StandsFor(model, variant, c)
  {
    hide ChoiceOf, ValidVariantId, ValidModelKey;
    match value
    case Str(text) =>
      ChoiceIs(text, None, c);
      assert SpellsEntry(value, text, None);
    case Obj(table) => TableIs(table, c);
    case _ =>
  }

  lemma TableIs(table: map<string, Value>, c: ModelChoice)
    ensures EntryOf(Obj(table)) == Some(c) <==>
            exists model, variant :: SpellsEntry(Obj(table), model, variant) && StandsFor(model, variant, c)
  {
    hide ChoiceOf, ValidModelKey;
    if "model" in table && table["model"].Str? {
      var model := table["model"].s;
      if "variant" !in table {
        ChoiceIs(model, None, c);
        assert table.Keys <= {"model", "variant"} ==> table == map["model" := Str(model)];
      } else if table["variant"].Str? {
        var variant := table["variant"].s;
        if ValidVariantId(variant) { ChoiceIs(model, Some(variant), c); }
        assert table.Keys <= {"model", "variant"} ==>
            table == map["model" := Str(model), "variant" := Str(variant)];
      }
    }
  }

  /** A value is a list of choices exactly when it is one entry, or an array of some, each of which reads so. */
  lemma ModelsAre(value: Value, cs: seq<ModelChoice>)
    ensures ModelsFromValue(value) == Some(cs) <==>
            if value.Arr?
            then |value.items| == |cs| > 0 && forall i :: 0 <= i < |cs| ==> EntryOf(value.items[i]) == Some(cs[i])
            else |cs| == 1 && EntryOf(value) == Some(cs[0])
  {
    hide EntryOf;
    assert |cs| == 1 ==> cs == [cs[0]];
    if value.Arr? && value.items != [] {
      var r := EntriesOf(value.items);
      if r.None? {
        var i :| 0 <= i < |value.items| && EntryOf(value.items[i]) == None;
        assert |value.items| == |cs| ==> EntryOf(value.items[i]) != Some(cs[i]);
      } else if |r.value| == |cs| && forall i :: 0 <= i < |cs| ==> EntryOf(value.items[i]) == Some(cs[i]) {
        assert forall i :: 0 <= i < |cs| ==> r.value[i] == cs[i];
        assert r.value == cs;
      }
    }
  }

  // ----------------------------------------------------------------- writing

  /** The variant a choice writes: none when it is its model's default. */
  function Erased(c: ModelChoice, defaultOf: string -> Option<string>): ModelChoice {
    if c.Model? && c.variant.Some? && defaultOf(c.model) == c.variant then c.(variant := None) else c
  }

  function EntryValue(c: ModelChoice, defaultOf: string -> Option<string>): Value {
    match Erased(c, defaultOf)
    case SameAs(f) => Str(Expression(f))
    case Model(m, None) => Str(m)
    case Model(m, Some(v)) => Obj(map["model" := Str(m), "variant" := Str(v)])
  }

  function EntryValues(cs: seq<ModelChoice>, defaultOf: string -> Option<string>): (vs: seq<Value>)
    ensures |vs| == |cs| && forall i :: 0 <= i < |cs| ==> vs[i] == EntryValue(cs[i], defaultOf)
  {
    seq(|cs|, i requires 0 <= i < |cs| => EntryValue(cs[i], defaultOf))
  }

  function ModelsToValue(cs: seq<ModelChoice>, defaultOf: string -> Option<string>): Value {
    var values := EntryValues(cs, defaultOf);
    if |values| == 1 then values[0] else Arr(values)
  }

  function ErasedAll(cs: seq<ModelChoice>, defaultOf: string -> Option<string>): (es: seq<ModelChoice>)
    ensures |es| == |cs|
  {
    seq(|cs|, i requires 0 <= i < |cs| => Erased(cs[i], defaultOf))
  }

  // ------------------------------------------------------------- round trips

  /** An entry reads back unless it stands for a field this client does not know. */
  lemma EntryRoundTrip(c: ModelChoice, defaultOf: string -> Option<string>)
    requires ValidChoice(c)
    ensures EntryOf(EntryValue(c, defaultOf)) == if c == SameAs(Unknown) then None else Some(Erased(c, defaultOf))
    ensures !EntryValue(c, defaultOf).Arr?
  {
    hide Expression, FieldOfExpression, ValidModelKey, ValidVariantId;
    match c
    case SameAs(f) => ExpressionReads(f);
    case Model(m, v) => ModelIsNoExpression(m);
  }

  /** Each known field's expression is that field's alone; the unknown one's is nothing. */
  lemma ExpressionReads(f: ModelField)
    ensures FieldOfExpression(Expression(f)) == if f == Unknown then None else Some(f)
    ensures !ValidModelKey(Expression(f))
  {
    ExpressionsDiffer();
    hide FieldName, ValidModelKey;
    assert Expression(f)[0] == '$';
    if ValidModelKey(Expression(f)) { ModelKeyShape(Expression(f)); }
  }

  lemma ExpressionsDiffer()
    ensures forall f, g :: f != g ==> Expression(f) != Expression(g)
  {
    assert Expression(DefaultModel)[2] == 'd' && Expression(SmallModel)[2] == 's';
    assert Expression(UtilityModel)[2] == 'u' && Expression(Unknown)[2] == 'a';
  }

  lemma ModelIsNoExpression(m: string)
    requires ValidModelKey(m)
    ensures FieldOfExpression(m).None?
  {
    ModelKeyShape(m);
    hide FieldName, ValidModelKey;
  }

  /**
    Reading back what was written gives the choices with each model's default
    variant left out, exactly when the list is not empty and names no unknown
    field; otherwise it gives nothing.
   */
  lemma WriteThenRead(cs: seq<ModelChoice>, defaultOf: string -> Option<string>)
    requires ValidChoices(cs)
    ensures ModelsFromValue(ModelsToValue(cs, defaultOf)) ==
            if cs != [] && SameAs(Unknown) !in cs then Some(ErasedAll(cs, defaultOf)) else None
  {
    if |cs| == 1 {
      EntryRoundTrip(cs[0], defaultOf);
      assert EntryValues(cs, defaultOf) == [EntryValue(cs[0], defaultOf)];
      assert cs == [cs[0]];
      assert ErasedAll(cs, defaultOf) == [Erased(cs[0], defaultOf)];
    } else {
      EntriesRoundTrip(cs, defaultOf);
    }
  }

  lemma EntriesRoundTrip(cs: seq<ModelChoice>, defaultOf: string -> Option<string>)
    requires ValidChoices(cs)
    ensures EntriesOf(EntryValues(cs, defaultOf)) ==
            if SameAs(Unknown) !in cs then Some(ErasedAll(cs, defaultOf)) else None
  {
    var vs := EntryValues(cs, defaultOf);
    var r := EntriesOf(vs);
    if r.Some? {
      forall i | 0 <= i < |cs|
        ensures cs[i] != SameAs(Unknown) && r.value[i] == Erased(cs[i], defaultOf)
      {
        EntryRoundTrip(cs[i], defaultOf);
        assert EntryOf(vs[i]) == Some(r.value[i]);
      }
      assert r.value == ErasedAll(cs, defaultOf);
    } else {
      var i :| 0 <= i < |vs| && EntryOf(vs[i]) == None;
      EntryRoundTrip(cs[i], defaultOf);
    }
  }

  /**
    The form a written list takes, from the value alone: a table that needs no
    variant becomes its model's string, and a list of one its entry.
   */
  function PlainEntry(v: Value, defaultOf: string -> Option<string>): Value {
    if v.Obj? && "model" in v.table && v.table["model"].Str?
       && ("variant" in v.table && v.table["variant"].Str?
           ==> defaultOf(v.table["model"].s) == Some(v.table["variant"].s))
    then v.table["model"]
    else v
  }

  function PlainList(v: Value, defaultOf: string -> Option<string>): Value {
    if !v.Arr? then PlainEntry(v, defaultOf)
    else if |v.items| == 1 then PlainEntry(v.items[0], defaultOf)
    else Arr(seq(|v.items|, i requires 0 <= i < |v.items| => PlainEntry(v.items[i], defaultOf)))
  }

  lemma EntryReadThenWritten(v: Value, defaultOf: string -> Option<string>)
    requires EntryOf(v).Some?
    ensures EntryValue(EntryOf(v).value, defaultOf) == PlainEntry(v, defaultOf)
    ensures EntryOf(v).value != SameAs(Unknown)
    ensures !PlainEntry(v, defaultOf).Arr?
    ensures PlainEntry(PlainEntry(v, defaultOf), defaultOf) == PlainEntry(v, defaultOf)
  {
    hide Expression, ValidModelKey, ValidVariantId, FieldOfExpression;
    if v.Str? {
    } else if "variant" in v.table {
      assert v.table == map["model" := v.table["model"], "variant" := v.table["variant"]];
    }
  }

  /** The entries of a list, or the value as the only one. */
  function Items(v: Value): seq<Value> {
    if v.Arr? then v.items else [v]
  }

  lemma ReadItem(v: Value, i: nat, defaultOf: string -> Option<string>)
    requires ModelsFromValue(v).Some? && i < |Items(v)|
    ensures var cs, plain := ModelsFromValue(v).value, PlainEntry(Items(v)[i], defaultOf);
            && |cs| == |Items(v)|
            && EntryValue(cs[i], defaultOf) == plain && cs[i] != SameAs(Unknown)
            && !plain.Arr? && PlainEntry(plain, defaultOf) == plain
  {
    EntryReadThenWritten(Items(v)[i], defaultOf);
    hide EntryOf, EntryValue, PlainEntry, ValidChoice;
  }

  lemma WrittenIsPlain(v: Value, defaultOf: string -> Option<string>)
    requires ModelsFromValue(v).Some?
    ensures ModelsToValue(ModelsFromValue(v).value, defaultOf) == PlainList(v, defaultOf)
    ensures SameAs(Unknown) !in ModelsFromValue(v).value
    ensures PlainList(PlainList(v, defaultOf), defaultOf) == PlainList(v, defaultOf)
  {
    var items, cs := Items(v), ModelsFromValue(v).value;
    ReadItem(v, 0, defaultOf);
    hide ModelsFromValue, EntryOf, EntryValue, PlainEntry, ValidChoice, Erased;
    var plain := seq(|items|, i requires 0 <= i < |items| => PlainEntry(items[i], defaultOf));
    forall i | 0 <= i < |items|
      ensures EntryValue(cs[i], defaultOf) == plain[i] && cs[i] != SameAs(Unknown)
      ensures !plain[i].Arr? && PlainEntry(plain[i], defaultOf) == plain[i]
    {
      ReadItem(v, i, defaultOf);
    }
    assert EntryValues(cs, defaultOf) == plain;
    assert PlainList(v, defaultOf) == if |items| == 1 then plain[0] else Arr(plain);
    assert |items| != 1 ==> PlainList(Arr(plain), defaultOf).items == plain;
  }

  /** Writing what was read gives the plain form, which is a fixpoint and reads as the same choices. */
  lemma ReadThenWrite(v: Value, defaultOf: string -> Option<string>)
    requires ModelsFromValue(v).Some?
    ensures ModelsToValue(ModelsFromValue(v).value, defaultOf) == PlainList(v, defaultOf)
    ensures PlainList(PlainList(v, defaultOf), defaultOf) == PlainList(v, defaultOf)
    ensures ModelsFromValue(PlainList(v, defaultOf)) == Some(ErasedAll(ModelsFromValue(v).value, defaultOf))
  {
    WrittenIsPlain(v, defaultOf);
    WriteThenRead(ModelsFromValue(v).value, defaultOf);
  }
}
