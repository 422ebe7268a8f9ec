/**
  What drafts change, and that applying the changes and building the form again
  settles: the drafts then change nothing, and nothing else has moved
  (`ConfigForm::changes` in config_form.rs and the `config.apply` it feeds).
 */
module ConfigEdits {
  import opened Results
  import opened Text
  import opened ConfigValues
  import opened ConfigFields
  import opened ConfigSchema
  import opened ConfigForms
  import opened ConfigSecrecy

  /** One `set`; `Null` removes the key. */
  datatype ConfigChange = Set(key: Key, value: Value)

  /** Drafts: field text by dotted key. */
  type Drafts = map<string, string>

  function Path(f: ConfigField): string { Join(f.key, ".") }

  function FormFields(sections: seq<FormSection>): seq<FormField> {
    if sections == [] then [] else sections[0].fields + FormFields(sections[1..])
  }

  /** What the draft of `f`, if it has one, changes. */
  function DraftChange(lib: Library, f: FormField, drafts: Drafts): Result<Option<Option<Value>>, string> {
    if Path(f.field) in drafts then Change(lib, f, drafts[Path(f.field)]) else Ok(None)
  }

  function ToSet(f: FormField, next: Option<Value>): ConfigChange {
    Set(f.field.key, if next.Some? then next.value else Null)
  }

  function ChangeOf(lib: Library, f: FormField, drafts: Drafts): seq<ConfigChange> {
    match DraftChange(lib, f, drafts)
    case Ok(Some(next)) => [ToSet(f, next)]
    case _ => []
  }

  function ErrorOf(lib: Library, f: FormField, drafts: Drafts): seq<(string, string)> {
    match DraftChange(lib, f, drafts)
    case Err(e) => [(Path(f.field), e)]
    case _ => []
  }

  /** The changes of `fields`, in order. */
  function ChangesOf(lib: Library, fields: seq<FormField>, drafts: Drafts): seq<ConfigChange> {
    if fields == [] then [] else ChangeOf(lib, fields[0], drafts) + ChangesOf(lib, fields[1..], drafts)
  }

  /** The drafts that cannot be applied, each with why, in order. */
  function ErrorsOf(lib: Library, fields: seq<FormField>, drafts: Drafts): seq<(string, string)> {
    if fields == [] then [] else ErrorOf(lib, fields[0], drafts) + ErrorsOf(lib, fields[1..], drafts)
  }

  lemma {:induction false} OneMoreChange(lib: Library, fields: seq<FormField>, f: FormField, drafts: Drafts)
    ensures ChangesOf(lib, fields + [f], drafts) == ChangesOf(lib, fields, drafts) + ChangeOf(lib, f, drafts)
  {
    hide ChangeOf;
    if fields == [] {
      assert ([] + [f])[1..] == [];
    } else {
      assert (fields + [f])[1..] == fields[1..] + [f];
      OneMoreChange(lib, fields[1..], f, drafts);
    }
  }

  lemma {:induction false} OneMoreError(lib: Library, fields: seq<FormField>, f: FormField, drafts: Drafts)
    ensures ErrorsOf(lib, fields + [f], drafts) == ErrorsOf(lib, fields, drafts) + ErrorOf(lib, f, drafts)
  {
    hide ErrorOf;
    if fields == [] {
      assert ([] + [f])[1..] == [];
    } else {
      assert (fields + [f])[1..] == fields[1..] + [f];
      OneMoreError(lib, fields[1..], f, drafts);
    }
  }

  /** `ConfigForm::changes`: nothing is changed when any draft fails. */
  method Changes(lib: Library, form: Form, drafts: Drafts) returns (r: Result<seq<ConfigChange>, seq<(string, string)>>)
    ensures var fields := FormFields(form.sections);
            r == if ErrorsOf(lib, fields, drafts) == [] then Ok(ChangesOf(lib, fields, drafts))
                 else Err(ErrorsOf(lib, fields, drafts))
  {
    var fields := FormFields(form.sections);
    var changes: seq<ConfigChange>, errors: seq<(string, string)> := [], [];
    for i := 0 to |fields|
      invariant changes == ChangesOf(lib, fields[..i], drafts)
      invariant errors == ErrorsOf(lib, fields[..i], drafts)
    {
      var f := fields[i];
      assert fields[..i + 1] == fields[..i] + [f];
      OneMoreChange(lib, fields[..i], f, drafts);
      OneMoreError(lib, fields[..i], f, drafts);
      var path := Path(f.field);
      if path in drafts {
        match Change(lib, f, drafts[path])
        case Ok(Some(next)) => changes := changes + [ToSet(f, next)];
        case Ok(None) =>
        case Err(e) => errors := errors + [(path, e)];
      }
    }
    assert fields[..|fields|] == fields;
    if errors == [] {
      return Ok(changes);
    } else {
      return Err(errors);
    }
  }

  /** The errors name exactly the drafts that fail. */
  lemma {:induction false} ErrorsNameFailingDrafts(lib: Library, fields: seq<FormField>, drafts: Drafts, path: string,
      why: string)
    ensures (path, why) in ErrorsOf(lib, fields, drafts) <==>
            path in drafts && exists i :: 0 <= i < |fields| && Path(fields[i].field) == path
                                          && Change(lib, fields[i], drafts[path]) == Err(why)
  {
    if fields != [] {
      ErrorsNameFailingDrafts(lib, fields[1..], drafts, path, why);
      var rest := fields[1..];
      assert forall i :: 0 <= i < |rest| ==> rest[i] == fields[i + 1];
      forall i | 0 < i < |fields|
        ensures fields[i] == rest[i - 1]
      {
      }
    }
  }

  // ------------------------------------------------------- applying changes

  function ValueOf(c: ConfigChange): Option<Value> {
    if c.value.Null? then None else Some(c.value)
  }

  /** The `set`s, one after the other; one refused refuses the whole request. */
  function ApplyAll(doc: Value, changes: seq<ConfigChange>): Result<Value, string>
    decreases |changes|
  {
    if changes == [] then Ok(doc)
    else if changes[0].key == [] then Err("empty key")
    else match SetKey(doc, changes[0].key, ValueOf(changes[0]))
      case Err(e) => Err(e)
      case Ok(next) => ApplyAll(next, changes[1..])
  }

  /** The same keys are in boxes, with the same values. */
  ghost predicate SameBoxes(s: Schema, a: Value, b: Value) {
    forall k :: (Boxed(s, a, k) <==> Boxed(s, b, k)) && (Boxed(s, a, k) ==> At(a, k) == At(b, k))
  }

  /** `field` is in the form of `doc`: unset, or with a value it shows. */
  ghost predicate InForm(doc: Value, field: ConfigField) {
    At(doc, field.key).Some? ==> Accepts(field.kind, At(doc, field.key).value)
  }

  ghost predicate Writes(field: ConfigField, next: Option<Value>) {
    next.Some? ==> Accepts(field.kind, next.value)
  }

  /** A `set` of a field in the form moves no box, */
  lemma SetMovesNoBox(s: Schema, doc: Value, i: nat, next: Option<Value>, q: Key)
    requires ValidSchema(s) && i < |AllFields(s.sections)|
    requires var f := AllFields(s.sections)[i];
             InForm(doc, f) && Writes(f, next) && f.key != [] && SetKey(doc, f.key, next).Ok?
    ensures var after := SetKey(doc, AllFields(s.sections)[i].key, next).value;
            (Boxed(s, doc, q) <==> Boxed(s, after, q)) && (Boxed(s, doc, q) ==> At(doc, q) == At(after, q))
  {
    var f := AllFields(s.sections)[i];
    var k := f.key;
    var after := SetKey(doc, k, next).value;
    assert KnownKeys(s)[i] == k;
    SetKeyAccepted(doc, k, next);
    SetKeyAtAndBelow(doc, k, next, []);
    assert k + [] == k;
    if k <= q {
      FieldNotBoxed(s, doc, i, q);
      FieldNotBoxed(s, after, i, q);
    } else if q < k {
      SetKeyAbove(doc, k, next, |q|);
      assert q == k[..|q|];
      TableAboveNotBoxed(s, doc, i, |q|);
      TableAboveNotBoxed(s, after, i, |q|);
    } else {
      SetKeyElsewhere(doc, k, next, q);
      if At(doc, q).Some? && q != [] {
        forall n | 0 < n < |q|
          ensures Passed(s, doc, q[..n]) <==> Passed(s, after, q[..n])
        {
          PassedStill(s, doc, i, next, q, n);
        }
      }
    }
  }

  lemma FieldNotBoxed(s: Schema, doc: Value, i: nat, q: Key)
    requires ValidSchema(s) && i < |AllFields(s.sections)|
    requires InForm(doc, AllFields(s.sections)[i]) && AllFields(s.sections)[i].key <= q
    ensures !Boxed(s, doc, q)
  {
    FieldAtIs(s, i);
    var k := AllFields(s.sections)[i].key;
    if Visited(s, doc, q) {
      AtPrefix(doc, k, q);
      assert KnownKeys(s)[i] == k;
      assert q[..|k|] == k;
      assert Classify(s, k, At(doc, k).value) == Field;
    }
  }

  lemma TableAboveNotBoxed(s: Schema, doc: Value, i: nat, n: nat)
    requires ValidSchema(s) && i < |KnownKeys(s)| && n < |KnownKeys(s)[i]|
    requires At(doc, KnownKeys(s)[i][..n]).Some? ==> At(doc, KnownKeys(s)[i][..n]).value.Obj?
    ensures !Boxed(s, doc, KnownKeys(s)[i][..n])
  {
    AboveKnownKey(s, i, n);
  }

  lemma PassedStill(s: Schema, doc: Value, i: nat, next: Option<Value>, q: Key, n: nat)
    requires ValidSchema(s) && i < |AllFields(s.sections)|
    requires var k := AllFields(s.sections)[i].key;
             k != [] && SetKey(doc, k, next).Ok? && !(k <= q) && !(q <= k) && n < |q| && At(doc, q).Some?
    ensures var after := SetKey(doc, AllFields(s.sections)[i].key, next).value;
            Passed(s, doc, q[..n]) <==> Passed(s, after, q[..n])
  {
    var k := AllFields(s.sections)[i].key;
    assert KnownKeys(s)[i] == k;
    var p := q[..n];
    hide SetKey, ValidSchema, At, KnownKeys, AllFields, Classify;
    if p <= k {
      assert p == k[..n];
      SetKeyAbove(doc, k, next, n);
      AtPrefix(doc, p, q);
      TablesArePassed(s, i, n, At(doc, p).value, At(SetKey(doc, k, next).value, p).value);
    } else {
      SetKeyElsewhere(doc, k, next, p);
    }
  }

  /** Whatever tables stand above a known key, the sorter goes through them. */
  lemma TablesArePassed(s: Schema, i: nat, n: nat, a: Value, b: Value)
    requires ValidSchema(s) && i < |KnownKeys(s)| && n < |KnownKeys(s)[i]| && a.Obj? && b.Obj?
    ensures Classify(s, KnownKeys(s)[i][..n], a) == Classify(s, KnownKeys(s)[i][..n], b)
  {
    AboveKnownKey(s, i, n);
    hide ValidSchema, KnownKeys, IsManaged, LeadsSomewhere, FieldAt;
  }

  /** leaves every other known key as it was, */
  lemma SetKeepsOtherKnownKeys(s: Schema, doc: Value, i: nat, next: Option<Value>, j: nat)
    requires ValidSchema(s) && i < |KnownKeys(s)| && j < |KnownKeys(s)| && i != j
    requires KnownKeys(s)[i] != [] && SetKey(doc, KnownKeys(s)[i], next).Ok?
    ensures var after := SetKey(doc, KnownKeys(s)[i], next).value;
            At(after, KnownKeys(s)[j]) == At(doc, KnownKeys(s)[j])
            && (Open(after, KnownKeys(s)[j]) <==> Open(doc, KnownKeys(s)[j]))
  {
    var k, q := KnownKeys(s)[i], KnownKeys(s)[j];
    var after := SetKey(doc, k, next).value;
    assert !(k <= q) && !(q <= k);
    SetKeyElsewhere(doc, k, next, q);
    SetKeyAccepted(doc, k, next);
    forall n | 0 <= n < |q|
      ensures At(after, q[..n]).Some? && !At(after, q[..n]).value.Obj? <==>
                At(doc, q[..n]).Some? && !At(doc, q[..n]).value.Obj?
    {
      if q[..n] <= k {
        SetKeyAbove(doc, k, next, n);
        assert q[..n] == k[..n];
      } else {
        SetKeyElsewhere(doc, k, next, q[..n]);
      }
    }
  }

  // -------------------------------------------------------- several changes

  /** What `changes` make of the value at `key`. */
  function Overlaid(changes: seq<ConfigChange>, key: Key, old_: Option<Value>): Option<Value> {
    if changes == [] then old_
    else if changes[0].key == key then ValueOf(changes[0])
    else Overlaid(changes[1..], key, old_)
  }

  /** Each change is of a different field in the form, to a value it shows. */
  ghost predicate Editable(s: Schema, doc: Value, changes: seq<ConfigChange>) {
    && DistinctChanges(changes)
    && forall i :: 0 <= i < |changes| ==> EditableOne(s, doc, changes[i])
  }

  ghost predicate EditableOne(s: Schema, doc: Value, c: ConfigChange) {
    var f := FieldAt(AllFields(s.sections), c.key);
    f.Some? && c.key != [] && InForm(doc, f.value) && Writes(f.value, ValueOf(c))
  }

  lemma FieldIndex(s: Schema, key: Key) returns (i: nat)
    requires FieldAt(AllFields(s.sections), key).Some?
    ensures i < |AllFields(s.sections)| && AllFields(s.sections)[i] == FieldAt(AllFields(s.sections), key).value
    ensures KnownKeys(s)[i] == key
  {
    i :| 0 <= i < |AllFields(s.sections)| && AllFields(s.sections)[i] == FieldAt(AllFields(s.sections), key).value;
  }

  /** What is left to apply after the first change. */
  lemma EditableAfter(s: Schema, doc: Value, changes: seq<ConfigChange>, after: Value)
    requires ValidSchema(s) && Editable(s, doc, changes) && changes != []
    requires SetKey(doc, changes[0].key, ValueOf(changes[0])) == Ok(after)
    ensures Editable(s, after, changes[1..])
    ensures forall i :: 0 < i < |changes| ==> (Open(after, changes[i].key) <==> Open(doc, changes[i].key))
  {
    assert EditableOne(s, doc, changes[0]);
    var a := FieldIndex(s, changes[0].key);
    forall i | 0 < i < |changes|
      ensures EditableOne(s, after, changes[i])
      ensures Open(after, changes[i].key) <==> Open(doc, changes[i].key)
    {
      assert EditableOne(s, doc, changes[i]);
      var b := FieldIndex(s, changes[i].key);
      SetKeepsOtherKnownKeys(s, doc, a, ValueOf(changes[0]), b);
    }
  }

  /**
    The changes go through exactly when only tables are on the way to each key;
    then no box moves, and each known key holds what its change says, or what it
    held.
   */
  lemma {:induction false} ApplyEditable(s: Schema, doc: Value, changes: seq<ConfigChange>)
    requires ValidSchema(s) && Editable(s, doc, changes)
    ensures ApplyAll(doc, changes).Ok? <==> forall i :: 0 <= i < |changes| ==> Open(doc, changes[i].key)
    ensures ApplyAll(doc, changes).Ok? ==> SameBoxes(s, doc, ApplyAll(doc, changes).value)
    ensures ApplyAll(doc, changes).Ok? ==>
              forall j :: 0 <= j < |KnownKeys(s)| ==>
                At(ApplyAll(doc, changes).value, KnownKeys(s)[j]) ==
                Overlaid(changes, KnownKeys(s)[j], At(doc, KnownKeys(s)[j]))
    decreases |changes|
  {
    if changes != [] {
      var c := changes[0];
      assert EditableOne(s, doc, c);
      var a := FieldIndex(s, c.key);
      SetKeyAccepted(doc, c.key, ValueOf(c));
      if Open(doc, c.key) {
        var after := SetKey(doc, c.key, ValueOf(c)).value;
        EditableAfter(s, doc, changes, after);
        ApplyEditable(s, after, changes[1..]);
        assert forall i :: 0 < i < |changes| ==> changes[1..][i - 1] == changes[i];
        assert ApplyAll(doc, changes) == ApplyAll(after, changes[1..]);
        if ApplyAll(doc, changes).Ok? {
          FirstChangeMovesNoBox(s, doc, a, ValueOf(c), after);
          forall j | 0 <= j < |KnownKeys(s)|
            ensures Overlaid(changes[1..], KnownKeys(s)[j], At(after, KnownKeys(s)[j])) ==
                    Overlaid(changes, KnownKeys(s)[j], At(doc, KnownKeys(s)[j]))
          {
            FirstChangeOverlaid(s, doc, changes, a, j, after);
          }
        }
      }
    }
  }

  lemma FirstChangeMovesNoBox(s: Schema, doc: Value, a: nat, next: Option<Value>, after: Value)
    requires ValidSchema(s) && a < |AllFields(s.sections)|
    requires InForm(doc, AllFields(s.sections)[a]) && Writes(AllFields(s.sections)[a], next)
    requires AllFields(s.sections)[a].key != [] && SetKey(doc, AllFields(s.sections)[a].key, next) == Ok(after)
    ensures SameBoxes(s, doc, after)
  {
    forall q
      ensures (Boxed(s, doc, q) <==> Boxed(s, after, q)) && (Boxed(s, doc, q) ==> At(doc, q) == At(after, q))
    {
      SetMovesNoBox(s, doc, a, next, q);
    }
  }

  lemma FirstChangeOverlaid(s: Schema, doc: Value, changes: seq<ConfigChange>, a: nat, j: nat, after: Value)
    requires ValidSchema(s) && Editable(s, doc, changes) && changes != []
    requires a < |KnownKeys(s)| && j < |KnownKeys(s)| && KnownKeys(s)[a] == changes[0].key
    requires changes[0].key != [] && SetKey(doc, changes[0].key, ValueOf(changes[0])) == Ok(after)
    ensures Overlaid(changes[1..], KnownKeys(s)[j], At(after, KnownKeys(s)[j])) ==
            Overlaid(changes, KnownKeys(s)[j], At(doc, KnownKeys(s)[j]))
  {
    if j == a {
      SetKeyAtAndBelow(doc, changes[0].key, ValueOf(changes[0]), []);
      assert changes[0].key + [] == changes[0].key;
      NotOverlaid(changes[1..], changes[0].key, At(after, changes[0].key));
    } else {
      SetKeepsOtherKnownKeys(s, doc, a, ValueOf(changes[0]), j);
      assert !(KnownKeys(s)[a] <= KnownKeys(s)[j]);
    }
  }

  lemma {:induction false} NotOverlaid(changes: seq<ConfigChange>, key: Key, old_: Option<Value>)
    requires forall i :: 0 <= i < |changes| ==> changes[i].key != key
    ensures Overlaid(changes, key, old_) == old_
  {
    if changes != [] {
      NotOverlaid(changes[1..], key, old_);
    }
  }

  // ---------------------------------------------------- the form once more

  /** `f` once its draft is applied. */
  function Edited(lib: Library, f: FormField, drafts: Drafts): FormField {
    match DraftChange(lib, f, drafts)
    case Ok(Some(next)) => f.(value := next)
    case _ => f
  }

  function EditedAll(lib: Library, fields: seq<FormField>, drafts: Drafts): (r: seq<FormField>)
    ensures |r| == |fields|
  {
    seq(|fields|, i requires 0 <= i < |fields| => Edited(lib, fields[i], drafts))
  }

  /** The form with each drafted field's value replaced and nothing else touched. */
  function EditedForm(lib: Library, form: Form, drafts: Drafts): Form {
    form.(sections := seq(|form.sections|, i requires 0 <= i < |form.sections| =>
            form.sections[i].(fields := EditedAll(lib, form.sections[i].fields, drafts))))
  }

  /** A draft that was applied changes nothing when it is made again. */
  lemma AppliedDraftSettles(lib: Library, f: FormField, drafts: Drafts)
    requires DraftChange(lib, f, drafts).Ok?
    ensures DraftChange(lib, Edited(lib, f, drafts), drafts) == Ok(None)
  {}

  /** A change writes a value its field shows, and is shown as it is. */
  lemma ChangeIsShown(lib: Library, f: FormField, drafts: Drafts)
    requires DraftChange(lib, f, drafts).Ok? && DraftChange(lib, f, drafts).value.Some?
    ensures var next := DraftChange(lib, f, drafts).value.value;
            && Writes(f.field, next)
            && (next.Some? ==> ShownValue(f.field.kind, next.value) == next.value)
            && ValueOf(ToSet(f, next)) == next
  {
    ParsedIsAccepted(lib, f.field.kind, drafts[Path(f.field)]);
  }

  ghost predicate DistinctFields(fields: seq<FormField>) {
    forall i, j :: 0 <= i < j < |fields| ==> fields[i].field.key != fields[j].field.key
  }

  ghost predicate ChangesSome(lib: Library, fields: seq<FormField>, drafts: Drafts, c: ConfigChange) {
    exists j :: 0 <= j < |fields| && ChangeOf(lib, fields[j], drafts) == [c]
  }

  /** The changes are of the fields, each of another one. */
  lemma {:induction false} ChangesAreOfFields(lib: Library, fields: seq<FormField>, drafts: Drafts)
    requires DistinctFields(fields)
    ensures forall c :: c in ChangesOf(lib, fields, drafts) ==> ChangesSome(lib, fields, drafts, c)
    ensures DistinctChanges(ChangesOf(lib, fields, drafts))
  {
    if fields != [] {
      var rest := fields[1..];
      ChangesAreOfFields(lib, rest, drafts);
      var tail, head := ChangesOf(lib, rest, drafts), ChangeOf(lib, fields[0], drafts);
      ChangeKey(lib, fields[0], drafts);
      forall c | c in tail
        ensures ChangesSome(lib, fields, drafts, c) && c.key != fields[0].field.key
      {
        var j :| 0 <= j < |rest| && ChangeOf(lib, rest[j], drafts) == [c];
        ChangeKey(lib, rest[j], drafts);
        assert fields[j + 1] == rest[j];
      }
      if head != [] {
        assert ChangeOf(lib, fields[0], drafts) == [head[0]];
      }
      assert forall i :: 0 <= i < |tail| ==> tail[i] in tail;
    }
  }

  ghost predicate DistinctChanges(cs: seq<ConfigChange>) {
    forall i, j :: 0 <= i < j < |cs| ==> cs[i].key != cs[j].key
  }

  lemma ChangeKey(lib: Library, f: FormField, drafts: Drafts)
    ensures |ChangeOf(lib, f, drafts)| <= 1
    ensures ChangeOf(lib, f, drafts) != [] ==>
              && ChangeOf(lib, f, drafts)[0].key == f.field.key
              && DraftChange(lib, f, drafts).Ok? && DraftChange(lib, f, drafts).value.Some?
              && ChangeOf(lib, f, drafts)[0] == ToSet(f, DraftChange(lib, f, drafts).value.value)
  {}

  /** The changes make of a field's value what its own draft says. */
  lemma {:induction false} OverlaidByDraft(lib: Library, fields: seq<FormField>, drafts: Drafts, i: nat,
      old_: Option<Value>)
    requires DistinctFields(fields) && i < |fields|
    ensures Overlaid(ChangesOf(lib, fields, drafts), fields[i].field.key, old_) ==
            match DraftChange(lib, fields[i], drafts) case Ok(Some(next)) => next case _ => old_
  {
    var head, rest := ChangeOf(lib, fields[0], drafts), fields[1..];
    var key := fields[i].field.key;
    ChangeKey(lib, fields[0], drafts);
    if i == 0 {
      if head == [] {
        OtherKeyNotOverlaid(lib, rest, drafts, key, old_);
        assert ChangesOf(lib, fields, drafts) == ChangesOf(lib, rest, drafts);
      } else {
        ChangeIsShown(lib, fields[0], drafts);
        assert ChangesOf(lib, fields, drafts)[0] == head[0];
      }
    } else {
      assert fields[i] == rest[i - 1];
      OverlaidByDraft(lib, rest, drafts, i - 1, old_);
      HeadNotOverlaid(lib, fields, drafts, key, old_);
    }
  }

  lemma {:induction false} OtherKeyNotOverlaid(lib: Library, fields: seq<FormField>, drafts: Drafts, key: Key,
      old_: Option<Value>)
    requires forall j :: 0 <= j < |fields| ==> fields[j].field.key != key
    ensures Overlaid(ChangesOf(lib, fields, drafts), key, old_) == old_
  {
    if fields != [] {
      OtherKeyNotOverlaid(lib, fields[1..], drafts, key, old_);
      HeadNotOverlaid(lib, fields, drafts, key, old_);
    }
  }

  lemma HeadNotOverlaid(lib: Library, fields: seq<FormField>, drafts: Drafts, key: Key, old_: Option<Value>)
    requires fields != [] && fields[0].field.key != key
    ensures Overlaid(ChangesOf(lib, fields, drafts), key, old_) ==
              Overlaid(ChangesOf(lib, fields[1..], drafts), key, old_)
  {
    ChangeKey(lib, fields[0], drafts);
    var head, tail := ChangeOf(lib, fields[0], drafts), ChangesOf(lib, fields[1..], drafts);
    var all := ChangesOf(lib, fields, drafts);
    if head == [] {
      assert all == tail;
    } else {
      assert all[0] == head[0] && all[1..] == tail;
    }
  }

  // ------------------------------------------------- the fields of a section

  lemma {:induction false} ShownConcat(doc: Value, a: seq<ConfigField>, b: seq<ConfigField>)
    ensures Shown(doc, EVERY_KEY, a + b) == Shown(doc, EVERY_KEY, a) + Shown(doc, EVERY_KEY, b)
  {
    if a == [] {
      assert [] + b == b;
    } else {
      assert (a + b)[1..] == a[1..] + b;
      ShownConcat(doc, a[1..], b);
    }
  }

  /** The fields of the form are what it shows of the schema's, in order. */
  lemma {:induction false} FormFieldsShown(doc: Value, sections: seq<Section>, form: seq<FormSection>)
    requires |sections| == |form|
    requires forall i :: 0 <= i < |form| ==> form[i].fields == Shown(doc, EVERY_KEY, sections[i].fields)
    ensures FormFields(form) == Shown(doc, EVERY_KEY, AllFields(sections))
  {
    if sections != [] {
      FormFieldsShown(doc, sections[1..], form[1..]);
      ShownConcat(doc, sections[0].fields, AllFields(sections[1..]));
    }
  }

  /** How a field in the form of `doc` shows. */
  ghost function FieldShown(doc: Value, f: ConfigField): FormField {
    FormField(f, if At(doc, f.key).Some? then Some(ShownValue(f.kind, At(doc, f.key).value)) else None)
  }

  /** Each shown field is one of the schema's, in the form, with its value. */
  lemma {:induction false} ShownFieldsAre(doc: Value, fields: seq<ConfigField>)
    requires forall i, j :: 0 <= i < j < |fields| ==> fields[i].key != fields[j].key
    ensures DistinctFields(Shown(doc, EVERY_KEY, fields))
    ensures forall j :: 0 <= j < |Shown(doc, EVERY_KEY, fields)| ==>
              var f := Shown(doc, EVERY_KEY, fields)[j];
              f.field in fields && InForm(doc, f.field) && f == FieldShown(doc, f.field)
  {
    if fields != [] {
      var rest, all := Shown(doc, EVERY_KEY, fields[1..]), Shown(doc, EVERY_KEY, fields);
      ShownFieldsAre(doc, fields[1..]);
      assert forall j :: 0 <= j < |rest| ==> rest[j].field in fields[1..] && rest[j].field.key != fields[0].key;
      if all != rest {
        assert all[1..] == rest;
        assert forall j :: 0 < j < |all| ==> all[j] == rest[j - 1];
      }
    }
  }

  /**
    A field of the form of `doc`, and its field in the form of `after`: the same,
    with its own draft applied.
   */
  ghost predicate AfterDraft(lib: Library, doc: Value, after: Value, f: ConfigField, drafts: Drafts) {
    if !InForm(doc, f) then At(after, f.key) == At(doc, f.key)
    else match DraftChange(lib, FieldShown(doc, f), drafts)
      case Ok(Some(next)) => At(after, f.key) == next
      case _ => At(after, f.key) == At(doc, f.key)
  }

  ghost predicate ShownEdited(lib: Library, doc: Value, after: Value, fields: seq<ConfigField>, drafts: Drafts) {
    Shown(after, EVERY_KEY, fields) == EditedAll(lib, Shown(doc, EVERY_KEY, fields), drafts)
  }

  lemma {:induction false} ShownAfterDrafts(lib: Library, doc: Value, after: Value, fields: seq<ConfigField>,
      drafts: Drafts)
    requires forall i :: 0 <= i < |fields| ==> ShownEdited(lib, doc, after, [fields[i]], drafts)
    ensures ShownEdited(lib, doc, after, fields, drafts)
  {
    if fields != [] {
      ShownAfterDrafts(lib, doc, after, fields[1..], drafts);
      assert fields == [fields[0]] + fields[1..];
      ShownConcat(doc, [fields[0]], fields[1..]);
      ShownConcat(after, [fields[0]], fields[1..]);
      EditedConcat(lib, Shown(doc, EVERY_KEY, [fields[0]]), Shown(doc, EVERY_KEY, fields[1..]), drafts);
    }
  }

  lemma EditedConcat(lib: Library, a: seq<FormField>, b: seq<FormField>, drafts: Drafts)
    ensures EditedAll(lib, a + b, drafts) == EditedAll(lib, a, drafts) + EditedAll(lib, b, drafts)
  {
    forall i | 0 <= i < |a + b|
      ensures EditedAll(lib, a + b, drafts)[i] == (EditedAll(lib, a, drafts) + EditedAll(lib, b, drafts))[i]
    {
      assert (a + b)[i] == if i < |a| then a[i] else b[i - |a|];
    }
  }

  lemma OneShownAfterDraft(lib: Library, doc: Value, after: Value, f: ConfigField, drafts: Drafts)
    requires AfterDraft(lib, doc, after, f, drafts)
    ensures ShownEdited(lib, doc, after, [f], drafts)
  {
    hide At, Accepts, DraftChange;
    var shown := FieldShown(doc, f);
    if InForm(doc, f) {
      assert Shown(doc, EVERY_KEY, [f]) == [shown];
      if DraftChange(lib, shown, drafts).Ok? && DraftChange(lib, shown, drafts).value.Some? {
        ChangeIsShown(lib, shown, drafts);
      }
      assert Shown(after, EVERY_KEY, [f]) == [Edited(lib, shown, drafts)];
    } else {
      assert Shown(doc, EVERY_KEY, [f]) == [] && Shown(after, EVERY_KEY, [f]) == [];
    }
  }

  lemma {:induction false} InFormIsShown(doc: Value, fields: seq<ConfigField>, f: ConfigField)
    requires f in fields && InForm(doc, f)
    ensures FieldShown(doc, f) in Shown(doc, EVERY_KEY, fields)
  {
    if fields[0] != f {
      InFormIsShown(doc, fields[1..], f);
    }
  }

  // ------------------------------------------------------------ the theorems

  lemma FormFieldsAre(s: Schema, doc: Value, form: Form)
    requires ValidSchema(s) && Shows(s, doc, form)
    ensures FormFields(form.sections) == Shown(doc, EVERY_KEY, AllFields(s.sections))
    ensures forall i, j :: 0 <= i < j < |AllFields(s.sections)| ==>
              AllFields(s.sections)[i].key != AllFields(s.sections)[j].key
  {
    forall i | 0 <= i < |s.sections|
      ensures form.sections[i].fields == Shown(doc, EVERY_KEY, s.sections[i].fields)
    {
      assert SectionHolds(s, doc, EVERY_KEY, i, form.sections[i]);
    }
    FormFieldsShown(doc, s.sections, form.sections);
    var ks := KnownKeys(s);
    forall i, j | 0 <= i < j < |AllFields(s.sections)|
      ensures AllFields(s.sections)[i].key != AllFields(s.sections)[j].key
    {
      assert !(ks[i] <= ks[j]);
    }
  }

  lemma ChangesAreEditable(lib: Library, s: Schema, doc: Value, form: Form, drafts: Drafts)
    requires ValidSchema(s) && Shows(s, doc, form)
    ensures Editable(s, doc, ChangesOf(lib, FormFields(form.sections), drafts))
  {
    var fields, all := FormFields(form.sections), AllFields(s.sections);
    FormFieldsAre(s, doc, form);
    ShownFieldsAre(doc, all);
    ChangesAreOfFields(lib, fields, drafts);
    forall c | c in ChangesOf(lib, fields, drafts)
      ensures EditableOne(s, doc, c)
    {
      var j :| 0 <= j < |fields| && ChangeOf(lib, fields[j], drafts) == [c];
      OneChangeIsEditable(lib, s, doc, fields[j], drafts, c);
    }
  }

  lemma OneChangeIsEditable(lib: Library, s: Schema, doc: Value, f: FormField, drafts: Drafts, c: ConfigChange)
    requires ValidSchema(s) && f.field in AllFields(s.sections) && InForm(doc, f.field)
    requires ChangeOf(lib, f, drafts) == [c]
    ensures EditableOne(s, doc, c)
  {
    ChangeKey(lib, f, drafts);
    ChangeIsShown(lib, f, drafts);
    var i :| 0 <= i < |AllFields(s.sections)| && AllFields(s.sections)[i] == f.field;
    FieldAtIs(s, i);
    assert KnownKeys(s)[i] == c.key;
  }

  /** `config.apply` takes the changes exactly when only tables are on the way to each key. */
  lemma ChangesAccepted(lib: Library, s: Schema, doc: Value, form: Form, drafts: Drafts)
    requires ValidSchema(s) && Shows(s, doc, form)
    ensures var changes := ChangesOf(lib, FormFields(form.sections), drafts);
            ApplyAll(doc, changes).Ok? <==> forall i :: 0 <= i < |changes| ==> Open(doc, changes[i].key)
  {
    ChangesAreEditable(lib, s, doc, form, drafts);
    ApplyEditable(s, doc, ChangesOf(lib, FormFields(form.sections), drafts));
  }

  /** Each field of the schema after the changes: as its own draft says. */
  lemma FieldAfterDraft(lib: Library, s: Schema, doc: Value, form: Form, drafts: Drafts, after: Value, i: nat)
    requires ValidSchema(s) && Shows(s, doc, form) && i < |AllFields(s.sections)|
    requires ApplyAll(doc, ChangesOf(lib, FormFields(form.sections), drafts)) == Ok(after)
    ensures AfterDraft(lib, doc, after, AllFields(s.sections)[i], drafts)
  {
    var fields, all := FormFields(form.sections), AllFields(s.sections);
    var f := all[i];
    ChangesAreEditable(lib, s, doc, form, drafts);
    ApplyEditable(s, doc, ChangesOf(lib, fields, drafts));
    assert KnownKeys(s)[i] == f.key;
    FormFieldsAre(s, doc, form);
    ShownFieldsAre(doc, all);
    if InForm(doc, f) {
      InFormIsShown(doc, all, f);
      var j :| 0 <= j < |fields| && fields[j] == FieldShown(doc, f);
      OverlaidByDraft(lib, fields, drafts, j, At(doc, f.key));
    } else {
      forall j | 0 <= j < |fields|
        ensures fields[j].field.key != f.key
      {
        assert fields[j].field in all;
        assert InForm(doc, fields[j].field) && fields[j].field != f;
      }
      OtherKeyNotOverlaid(lib, fields, drafts, f.key, At(doc, f.key));
    }
  }

  lemma ManagedAfterDrafts(lib: Library, s: Schema, doc: Value, form: Form, drafts: Drafts, after: Value, j: nat)
    requires ValidSchema(s) && Shows(s, doc, form) && j < |s.managed|
    requires ApplyAll(doc, ChangesOf(lib, FormFields(form.sections), drafts)) == Ok(after)
    ensures At(after, s.managed[j]) == At(doc, s.managed[j])
  {
    var fields, all := FormFields(form.sections), AllFields(s.sections);
    ChangesAreEditable(lib, s, doc, form, drafts);
    ApplyEditable(s, doc, ChangesOf(lib, fields, drafts));
    var n := |all| + j;
    assert KnownKeys(s)[n] == s.managed[j];
    FormFieldsAre(s, doc, form);
    ShownFieldsAre(doc, all);
    forall a | 0 <= a < |fields|
      ensures fields[a].field.key != s.managed[j]
    {
      var i :| 0 <= i < |all| && all[i] == fields[a].field;
      FieldAtIs(s, i);
    }
    OtherKeyNotOverlaid(lib, fields, drafts, s.managed[j], At(doc, s.managed[j]));
  }

  /** Every field, box and count of the rebuilt form is as before, but for the drafted fields. */
  lemma RebuiltIsEdited(lib: Library, s: Schema, doc: Value, form: Form, drafts: Drafts, after: Value, rebuilt: Form)
    requires ValidSchema(s) && Shows(s, doc, form)
    requires ApplyAll(doc, ChangesOf(lib, FormFields(form.sections), drafts)) == Ok(after)
    requires Shows(s, after, rebuilt)
    ensures SameForm(rebuilt, EditedForm(lib, form, drafts))
    ensures FormFields(rebuilt.sections) == EditedAll(lib, FormFields(form.sections), drafts)
  {
    ChangesAreEditable(lib, s, doc, form, drafts);
    ApplyEditable(s, doc, ChangesOf(lib, FormFields(form.sections), drafts));
    assert AgreeOnBoxes(s, after, doc) by {
      SameBoxesAgree(s, doc, after);
    }
    forall i | 0 <= i < |AllFields(s.sections)|
      ensures ShownEdited(lib, doc, after, [AllFields(s.sections)[i]], drafts)
    {
      FieldAfterDraft(lib, s, doc, form, drafts, after, i);
      OneShownAfterDraft(lib, doc, after, AllFields(s.sections)[i], drafts);
    }
    ShownAfterDrafts(lib, doc, after, AllFields(s.sections), drafts);
    FormFieldsAre(s, doc, form);
    FormFieldsAre(s, after, rebuilt);
    var edited := EditedForm(lib, form, drafts);
    forall i | 0 <= i < |s.sections|
      ensures rebuilt.sections[i].section == edited.sections[i].section
      ensures rebuilt.sections[i].fields == edited.sections[i].fields
      ensures multiset(rebuilt.sections[i].other) == multiset(edited.sections[i].other)
    {
      RebuiltSection(lib, s, doc, form, drafts, after, rebuilt, i);
    }
    forall j | 0 <= j < |s.managed|
      ensures rebuilt.managed[j] == form.managed[j]
    {
      ManagedAfterDrafts(lib, s, doc, form, drafts, after, j);
      assert ManagedHolds(doc, EVERY_KEY, s.managed[j], form.managed[j]);
      assert ManagedHolds(after, EVERY_KEY, s.managed[j], rebuilt.managed[j]);
    }
    AgreeingBoxes(s, after, doc, None, rebuilt.other, form.other);
  }

  lemma SameBoxesAgree(s: Schema, a: Value, b: Value)
    requires SameBoxes(s, a, b)
    ensures AgreeOnBoxes(s, b, a)
  {
    forall e, owner
      ensures IsBox(s, b, EVERY_KEY, owner, e) <==> IsBox(s, a, EVERY_KEY, owner, e)
    {
      assert Boxed(s, a, e.key) <==> Boxed(s, b, e.key);
    }
  }

  lemma RebuiltSection(lib: Library, s: Schema, doc: Value, form: Form, drafts: Drafts, after: Value, rebuilt: Form,
      i: nat)
    requires Shows(s, doc, form) && Shows(s, after, rebuilt) && AgreeOnBoxes(s, after, doc) && i < |s.sections|
    requires forall n :: 0 <= n < |AllFields(s.sections)| ==>
              ShownEdited(lib, doc, after, [AllFields(s.sections)[n]], drafts)
    ensures rebuilt.sections[i].section == form.sections[i].section
    ensures rebuilt.sections[i].fields == EditedAll(lib, form.sections[i].fields, drafts)
    ensures multiset(rebuilt.sections[i].other) == multiset(form.sections[i].other)
  {
    assert SectionHolds(s, doc, EVERY_KEY, i, form.sections[i]);
    assert SectionHolds(s, after, EVERY_KEY, i, rebuilt.sections[i]);
    forall j | 0 <= j < |s.sections[i].fields|
      ensures ShownEdited(lib, doc, after, [s.sections[i].fields[j]], drafts)
    {
      FieldOfSection(s.sections, i, j);
    }
    ShownAfterDrafts(lib, doc, after, s.sections[i].fields, drafts);
    AgreeingBoxes(s, after, doc, Some(i), rebuilt.sections[i].other, form.sections[i].other);
  }

  lemma {:induction false} AppliedDraftsSettle(lib: Library, fields: seq<FormField>, drafts: Drafts)
    requires ErrorsOf(lib, fields, drafts) == []
    ensures ChangesOf(lib, EditedAll(lib, fields, drafts), drafts) == []
    ensures ErrorsOf(lib, EditedAll(lib, fields, drafts), drafts) == []
  {
    if fields != [] {
      hide ChangeOf, ErrorOf, Edited;
      var edited := EditedAll(lib, fields, drafts);
      assert edited[0] == Edited(lib, fields[0], drafts);
      assert edited[1..] == EditedAll(lib, fields[1..], drafts);
      AppliedDraftsSettle(lib, fields[1..], drafts);
      AppliedDraftSaysNothing(lib, fields[0], drafts);
      hide EditedAll;
    }
  }

  lemma AppliedDraftSaysNothing(lib: Library, f: FormField, drafts: Drafts)
    requires ErrorOf(lib, f, drafts) == []
    ensures ChangeOf(lib, Edited(lib, f, drafts), drafts) == [] && ErrorOf(lib, Edited(lib, f, drafts), drafts) == []
  {
    AppliedDraftSettles(lib, f, drafts);
  }
}
