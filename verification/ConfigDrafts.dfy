/**
  What a draft's text comes to, said by what it and the default read as: which `set`
  it sends, what the document then holds, and which drafts fail (`FormField::change`
  and `ConfigForm::changes` in config_form.rs).
 */
module ConfigDrafts {
  import opened Results
  import opened Text
  import opened ConfigValues
  import opened ConfigFields
  import opened ConfigSchema
  import opened ConfigForms
  import opened ConfigSecrecy
  import opened ConfigEdits
  import opened ModelLists

  // ------------------------------------------------------------ what text reads as

  /** `text` is the comma-separated `names`, each an option, and `items` are those. */
  predicate ListsNames(options: seq<string>, text: string, names: seq<string>, items: seq<Value>) {
    && |names| == |items| > 0 && text == Join(names, ",")
    && (forall i :: 0 <= i < |names| ==> Lacks(names[i], ','))
    && forall i :: 0 <= i < |names| ==> Trim(names[i]) in options && items[i] == Str(Trim(names[i]))
  }

  /** `text` without blanks at its ends reads as a value of `kind`. */
  ghost predicate Means(lib: Library, kind: FieldKind, text: string, value: Value) {
    match kind
    case BoolKind => value == Bool(text == "true")
    case IntegerKind => value.Int? && I64_MIN <= value.i <= I64_MAX && WritesInt(text, value.i)
    case NumberKind => value.Float? && lib.parseFloat(text) == Some(value.f)
    case TextKind => value == Str(text)
    case ChoiceKind(options) => value == Str(text) && text in options
    case ChoicesKind(options) =>
      value.Arr? && exists names :: ListsNames(options, text, names, value.items)
    case SecretKind => false
    case ModelsKind => lib.parseJson(text) == Some(value) && ModelsFromValue(value).Some?
  }

  /** Blank text removes the key, any other is taken for what it means, and fails when it means nothing. */
  lemma ParseIs(lib: Library, kind: FieldKind, text: string, value: Value)
    ensures Parse(lib, kind, text) == Ok(None) <==> Trim(text) == ""
    ensures Parse(lib, kind, text) == Ok(Some(value)) <==> Trim(text) != "" && Means(lib, kind, Trim(text), value)
  {
    var t := Trim(text);
    match kind
    case IntegerKind =>
      if value.Int? { I64Reads(t, value.i); }
      hide Trim, ParseI64, WritesInt;
    case ChoicesKind(options) =>
      hide Trim;
      if value.Arr? { ChosenAre(options, t, value.items); }
      hide ChosenFrom, Split, ListsNames;
    case _ => hide Trim;
  }

  lemma ChosenAre(options: seq<string>, text: string, items: seq<Value>)
    ensures ChosenFrom(options, Split(text, ',')) == Some(items) <==>
            exists names :: ListsNames(options, text, names, items)
  {
    var parts := Split(text, ',');
    SplitIs(text, ',', parts);
    hide Trim, Split, Lacks, Join, ChosenFrom;
    var chosen := ChosenFrom(options, parts);
    if chosen == Some(items) {
      assert ListsNames(options, text, parts, items);
    }
    if names :| ListsNames(options, text, names, items) {
      SplitIs(text, ',', names);
      assert chosen.Some?;
      assert chosen.value == items;
    }
  }

  /** What a field shows although no text reads as it. */
  predicate ShownOnly(kind: FieldKind, value: Value) {
    || ((kind.SecretKind? || kind.TextKind?) && value.Str?)
    || (kind.NumberKind? && value.Int?)
    || (kind.IntegerKind? && value.Int? && I64_MAX < value.i <= U64_MAX)
    || (kind.ChoicesKind? && value == Arr([]))
  }

  /**
    A field accepts the values that some text reads as, and besides them any string as
    text or credential, integers as numbers, unsigned ones, and the empty list.
   */
  lemma AcceptedIff(kind: FieldKind, value: Value)
    requires PlainOptions(kind)
    ensures Accepts(kind, value) <==>
            ShownOnly(kind, value) || exists lib, text :: Parse(lib, kind, text) == Ok(Some(value))
  {
    if lib, text :| Parse(lib, kind, text) == Ok(Some(value)) {
      ParsedIsAccepted(lib, kind, text);
    }
    hide Parse, ModelsFromValue;
    if Accepts(kind, value) && !ShownOnly(kind, value) {
      var lib := OnlyReads(value);
      CanonicalRoundTrip(lib, kind, value);
    }
  }

  /** A library for one value. */
  lemma OnlyReads(value: Value) returns (lib: Library)
    ensures ReadsBack(lib, value)
  {
    lib := Library((f: real) => "x", (t: string) => if value.Float? then Some(value.f) else None,
      (v: Value) => "x", (t: string) => Some(value));
  }

  // --------------------------------------------------------------- what is sent

  /** `f` is unset, with a default that reads as `next`. */
  predicate DefaultReads(lib: Library, f: FormField, next: Option<Value>) {
    f.value == None && f.field.default.DefaultValue? && Parse(lib, f.field.kind, f.field.default.text) == Ok(next)
  }

  /** `draft` fails on `f`: it means nothing, or it would set an unset field whose default means nothing. */
  predicate Fails(lib: Library, f: FormField, draft: string, why: string) {
    || Parse(lib, f.field.kind, draft) == Err(why)
    || (Parse(lib, f.field.kind, draft).Ok? && Parse(lib, f.field.kind, draft).value != f.value && f.value == None
        && f.field.default.DefaultValue? && Parse(lib, f.field.kind, f.field.default.text) == Err(why))
  }

  /** The drafted text of `f`. */
  function DraftOf(f: FormField, drafts: Drafts): Option<string> {
    var path := Join(f.field.key, ".");
    if path in drafts then Some(drafts[path]) else None
  }

  lemma ChangeIs(lib: Library, f: FormField, draft: string, why: string)
    ensures Change(lib, f, draft) == Err(why) <==> Fails(lib, f, draft, why)
    ensures Change(lib, f, draft).Ok? ==> Parse(lib, f.field.kind, draft).Ok?
    ensures Change(lib, f, draft).Ok? ==>
              var next := Parse(lib, f.field.kind, draft).value;
              Change(lib, f, draft).value ==
              if next == f.value || DefaultReads(lib, f, next) then None else Some(next)
  {
    hide Parse;
  }

  /** The errors are those of the drafts that fail, each with why. */
  lemma ErrorsAre(lib: Library, fields: seq<FormField>, drafts: Drafts, path: string, why: string)
    ensures (path, why) in ErrorsOf(lib, fields, drafts) <==>
            path in drafts && exists i :: 0 <= i < |fields| && Join(fields[i].field.key, ".") == path
                                          && Fails(lib, fields[i], drafts[path], why)
  {
    ErrorsNameFailingDrafts(lib, fields, drafts, path, why);
    if path in drafts {
      forall i | 0 <= i < |fields|
        ensures Change(lib, fields[i], drafts[path]) == Err(why) <==> Fails(lib, fields[i], drafts[path], why)
      {
        ChangeIs(lib, fields[i], drafts[path], why);
      }
    }
    hide Change, Fails, ErrorsOf;
  }

  /** A draft is sent unless it says what is there, or what the default of an unset field says. */
  predicate Sends(lib: Library, f: FormField, drafts: Drafts, next: Option<Value>) {
    && DraftOf(f, drafts).Some? && Parse(lib, f.field.kind, DraftOf(f, drafts).value) == Ok(next)
    && next != f.value && !DefaultReads(lib, f, next)
  }

  lemma {:induction false} NoErrorHere(lib: Library, fields: seq<FormField>, drafts: Drafts, j: nat)
    requires ErrorsOf(lib, fields, drafts) == [] && j < |fields|
    ensures DraftChange(lib, fields[j], drafts).Ok?
  {
    if j > 0 {
      NoErrorHere(lib, fields[1..], drafts, j - 1);
    }
  }

  lemma DraftChangeIs(lib: Library, f: FormField, drafts: Drafts, next: Option<Value>)
    requires DraftChange(lib, f, drafts).Ok?
    ensures DraftChange(lib, f, drafts) == Ok(Some(next)) <==> Sends(lib, f, drafts, next)
    ensures DraftOf(f, drafts).Some? ==> Parse(lib, f.field.kind, DraftOf(f, drafts).value).Ok?
  {
    if DraftOf(f, drafts).Some? { ChangeIs(lib, f, drafts[Path(f.field)], ""); }
    hide Parse, Change, DefaultReads;
  }

  /** `c` is the `set` that the draft of `f` sends; `null` removes the key. */
  ghost predicate SentFor(lib: Library, f: FormField, drafts: Drafts, c: ConfigChange) {
    exists next: Option<Value> :: Sends(lib, f, drafts, next)
      && c.key == f.field.key && c.value == if next.Some? then next.value else Null
  }

  lemma OneIsSent(lib: Library, f: FormField, drafts: Drafts, c: ConfigChange)
    requires DraftChange(lib, f, drafts).Ok?
    ensures ChangeOf(lib, f, drafts) == [c] <==> SentFor(lib, f, drafts, c)
  {
    forall next: Option<Value>
      ensures DraftChange(lib, f, drafts) == Ok(Some(next)) <==> Sends(lib, f, drafts, next)
    {
      DraftChangeIs(lib, f, drafts, next);
    }
    hide DraftChange, Sends;
  }

  lemma {:induction false} SomeChanges(lib: Library, fields: seq<FormField>, drafts: Drafts, c: ConfigChange)
    ensures c in ChangesOf(lib, fields, drafts) <==> ChangesSome(lib, fields, drafts, c)
  {
    if fields != [] {
      var rest := fields[1..];
      SomeChanges(lib, rest, drafts, c);
      ChangeKey(lib, fields[0], drafts);
      hide ChangeOf;
      assert ChangesSome(lib, fields, drafts, c) <==>
          ChangeOf(lib, fields[0], drafts) == [c] || ChangesSome(lib, rest, drafts, c) by {
        assert forall j :: 0 <= j < |rest| ==> rest[j] == fields[j + 1];
        assert forall j :: 0 < j < |fields| ==> fields[j] == rest[j - 1];
      }
      hide ChangesSome;
      var head := ChangeOf(lib, fields[0], drafts);
      assert c in head <==> head == [c];
    }
  }

  /** The `set`s are exactly those that drafts send. */
  lemma ChangesAre(lib: Library, fields: seq<FormField>, drafts: Drafts, c: ConfigChange)
    requires ErrorsOf(lib, fields, drafts) == []
    ensures c in ChangesOf(lib, fields, drafts) <==>
            exists j :: 0 <= j < |fields| && SentFor(lib, fields[j], drafts, c)
  {
    SomeChanges(lib, fields, drafts, c);
    forall j | 0 <= j < |fields|
      ensures ChangeOf(lib, fields[j], drafts) == [c] <==> SentFor(lib, fields[j], drafts, c)
    {
      NoErrorHere(lib, fields, drafts, j);
      OneIsSent(lib, fields[j], drafts, c);
    }
    hide ChangesOf, ChangeOf, SentFor, ErrorsOf;
  }

  /** They come in the form's order, and so do the errors. */
  lemma {:induction false} ChangesInOrder(lib: Library, a: seq<FormField>, b: seq<FormField>, drafts: Drafts)
    ensures ChangesOf(lib, a + b, drafts) == ChangesOf(lib, a, drafts) + ChangesOf(lib, b, drafts)
    ensures ErrorsOf(lib, a + b, drafts) == ErrorsOf(lib, a, drafts) + ErrorsOf(lib, b, drafts)
  {
    hide ChangeOf, ErrorOf;
    if a == [] {
      assert a + b == b;
    } else {
      assert (a + b)[1..] == a[1..] + b;
      ChangesInOrder(lib, a[1..], b, drafts);
    }
  }

  // ------------------------------------------------------ what the document holds

  /**
    A drafted field holds, after the changes, what its draft reads as; only where it
    was unset and its default reads as the same is it left unset.
   */
  lemma DraftIsApplied(lib: Library, s: Schema, doc: Value, form: Form, drafts: Drafts, after: Value, j: nat)
    requires ValidSchema(s) && Shows(s, doc, form) && j < |FormFields(form.sections)|
    requires ErrorsOf(lib, FormFields(form.sections), drafts) == []
    requires ApplyAll(doc, ChangesOf(lib, FormFields(form.sections), drafts)) == Ok(after)
    ensures var f := FormFields(form.sections)[j];
            var held, was, draft := At(after, f.field.key), At(doc, f.field.key), DraftOf(f, drafts);
            if draft.None? then held == was
            else Parse(lib, f.field.kind, draft.value).Ok? &&
                 var next := Parse(lib, f.field.kind, draft.value).value;
                 held == next || (held == was == None && DefaultReads(lib, f, next))
  {
    FormFieldAfter(lib, s, doc, form, drafts, after, j);
    NoErrorHere(lib, FormFields(form.sections), drafts, j);
    hide FormFields, ChangesOf, ErrorsOf, ApplyAll, ValidSchema, Shows, FieldShown, AfterDraft, DraftChange, Parse, At,
         DefaultReads;
    OneDraftApplied(lib, doc, after, FormFields(form.sections)[j], drafts);
  }

  lemma FormFieldAfter(lib: Library, s: Schema, doc: Value, form: Form, drafts: Drafts, after: Value, j: nat)
    requires ValidSchema(s) && Shows(s, doc, form) && j < |FormFields(form.sections)|
    requires ApplyAll(doc, ChangesOf(lib, FormFields(form.sections), drafts)) == Ok(after)
    ensures var f := FormFields(form.sections)[j];
            f == FieldShown(doc, f.field) && InForm(doc, f.field) && AfterDraft(lib, doc, after, f.field, drafts)
  {
    var all := AllFields(s.sections);
    FormFieldsAre(s, doc, form);
    ShownFieldsAre(doc, all);
    hide ValidSchema, Shows, ApplyAll, ChangesOf, FormFields, Shown, DistinctFields, FieldShown, AfterDraft, InForm;
    var f := FormFields(form.sections)[j];
    var i :| 0 <= i < |all| && all[i] == f.field;
    FieldAfterDraft(lib, s, doc, form, drafts, after, i);
  }

  lemma OneDraftApplied(lib: Library, doc: Value, after: Value, f: FormField, drafts: Drafts)
    requires f == FieldShown(doc, f.field) && InForm(doc, f.field) && AfterDraft(lib, doc, after, f.field, drafts)
    requires DraftChange(lib, f, drafts).Ok?
    ensures var held, was, draft := At(after, f.field.key), At(doc, f.field.key), DraftOf(f, drafts);
            if draft.None? then held == was
            else Parse(lib, f.field.kind, draft.value).Ok? &&
                 var next := Parse(lib, f.field.kind, draft.value).value;
                 held == next || (held == was == None && DefaultReads(lib, f, next))
  {
    var draft := DraftOf(f, drafts);
    if draft.Some? {
      DraftChangeIs(lib, f, drafts, Parse(lib, f.field.kind, draft.value).value);
      SecretIsNoText(lib, f.field.kind, draft.value);
    }
    hide Change, Parse, At, Accepts;
  }

  /** No text reads as a credential, so a draft of a shown one never says what is there. */
  lemma SecretIsNoText(lib: Library, kind: FieldKind, draft: string)
    ensures kind.SecretKind? && Parse(lib, kind, draft).Ok? ==> Parse(lib, kind, draft).value == None
  {
    hide Trim;
  }

  /** `g` is `f` with what its draft reads as, or `f` itself where it has no draft or its default reads as the same. */
  ghost predicate Settled(lib: Library, f: FormField, drafts: Drafts, g: FormField) {
    var draft := DraftOf(f, drafts);
    if draft.None? then g == f
    else Parse(lib, f.field.kind, draft.value).Ok? &&
         var next := Parse(lib, f.field.kind, draft.value).value;
         g == f.(value := next) || (g == f && DefaultReads(lib, f, next))
  }

  lemma EditedIsSettled(lib: Library, f: FormField, drafts: Drafts)
    requires DraftChange(lib, f, drafts).Ok?
    ensures Settled(lib, f, drafts, Edited(lib, f, drafts))
  {
    if DraftOf(f, drafts).Some? {
      DraftChangeIs(lib, f, drafts, Parse(lib, f.field.kind, DraftOf(f, drafts).value).value);
    }
    hide Parse, Change;
  }

  /**
    Editing settles: once the changes of drafts are applied and the form is built
    again, each drafted field shows what its draft reads as, unless it was unset and
    its default reads as that; nothing else of the form has changed; and the same
    drafts change nothing more.
   */
  lemma EditThenRebuild(lib: Library, s: Schema, doc: Value, form: Form, drafts: Drafts, after: Value, rebuilt: Form)
    requires ValidSchema(s) && Shows(s, doc, form)
    requires ErrorsOf(lib, FormFields(form.sections), drafts) == []
    requires ApplyAll(doc, ChangesOf(lib, FormFields(form.sections), drafts)) == Ok(after)
    requires Shows(s, after, rebuilt)
    ensures |FormFields(rebuilt.sections)| == |FormFields(form.sections)|
    ensures forall j :: 0 <= j < |FormFields(form.sections)| ==>
              Settled(lib, FormFields(form.sections)[j], drafts, FormFields(rebuilt.sections)[j])
    ensures SameForm(rebuilt, EditedForm(lib, form, drafts))
    ensures ChangesOf(lib, FormFields(rebuilt.sections), drafts) == []
    ensures ErrorsOf(lib, FormFields(rebuilt.sections), drafts) == []
  {
    RebuiltIsEdited(lib, s, doc, form, drafts, after, rebuilt);
    var fields := FormFields(form.sections);
    AppliedDraftsSettle(lib, fields, drafts);
    hide ErrorsOf, ChangesOf, FormFields, Shows, ValidSchema, ApplyAll, Edited, SameForm, EditedForm, Settled;
    forall j | 0 <= j < |fields|
      ensures Settled(lib, fields[j], drafts, EditedAll(lib, fields, drafts)[j])
    {
      NoErrorHere(lib, fields, drafts, j);
      EditedIsSettled(lib, fields[j], drafts);
    }
  }

  /** The default's text, or nothing. */
  function DefaultShown(f: FormField): string {
    if f.field.default.DefaultValue? then f.field.default.text else ""
  }

  /** A drafted field shows its draft, or its default where that is blank, as the unset field does. */
  lemma DraftIsShown(lib: Library, f: FormField, draft: string)
    ensures ShownText(lib, f, Some(draft)) == if Trim(draft) == "" then DefaultShown(f) else draft
    ensures f.value == None ==> ShownText(lib, f, None) == DefaultShown(f)
  {
    BlankReadsAsNothing(lib, f.field.kind, "");
    hide Trim;
  }

  /** What a field shows while it is drafted means what it shows once the draft was applied. */
  lemma AppliedMeansTheDraft(lib: Library, f: FormField, drafts: Drafts, g: FormField)
    requires PlainOptions(f.field.kind) && DraftOf(f, drafts).Some? && Settled(lib, f, drafts, g)
    requires g.value.Some? ==> ReadsBack(lib, g.value.value)
    ensures Parse(lib, f.field.kind, ShownText(lib, g, None)) ==
            Parse(lib, f.field.kind, ShownText(lib, f, DraftOf(f, drafts)))
  {
    var draft := DraftOf(f, drafts).value;
    var kind := f.field.kind;
    var next := Parse(lib, kind, draft).value;
    DraftIsShown(lib, f, draft);
    DraftIsShown(lib, g, draft);
    ParseIs(lib, kind, draft, Null);
    hide Trim, Means, PlainOptions, ReadsBack;
    if g == f.(value := next) && next.Some? {
      ParsedIsAccepted(lib, kind, draft);
      CanonicalRoundTrip(lib, kind, next.value);
      ParseIs(lib, kind, TextOf(lib, kind, next.value), next.value);
      hide Parse, Accepts, Canonical, TextOf;
    } else {
      hide Parse, Accepts, Canonical, TextOf;
    }
  }
}
