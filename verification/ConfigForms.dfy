/**
  What the form shows of a document (`ConfigForm::build`,
  `sort_table`, `sort_value` and `leads_somewhere` in config_form.rs). The
  tables are visited in an arbitrary order; the result is the same up to the
  order of the boxes.
 */
module ConfigForms {
  import opened Results
  import opened ConfigValues
  import opened ConfigFields
  import opened ConfigSchema

  /** What is shown of a key without a control: its masked value. */
  datatype OtherEntry = OtherEntry(key: Key, value: Value)

  datatype FormSection = FormSection(section: Section, fields: seq<FormField>, other: seq<OtherEntry>)

  datatype FormManaged = FormManaged(key: Key, count: nat)

  datatype Form = Form(sections: seq<FormSection>, managed: seq<FormManaged>, other: seq<OtherEntry>)

  // ----------------------------------------- what a form shows of a document

  function ShownValue(kind: FieldKind, value: Value): Value {
    if kind.SecretKind? then Str(MASK) else value
  }

  /**
    The fields of `fields` a form shows once the keys of `done` were sorted: not
    those that are in a box instead.
   */
  ghost function Shown(doc: Value, done: iset<Key>, fields: seq<ConfigField>): seq<FormField> {
    if fields == [] then []
    else
      var f, rest := fields[0], Shown(doc, done, fields[1..]);
      var v := At(doc, f.key);
      if f.key !in done || v.None? then [FormField(f, None)] + rest
      else if Accepts(f.kind, v.value) then [FormField(f, Some(ShownValue(f.kind, v.value)))] + rest
      else rest
  }

  ghost function Entries(v: Option<Value>): nat {
    match v
    case None => 0
    case Some(Obj(t)) => |t|
    case Some(_) => 1
  }

  /** The first section that owns the top-level key of `key`. */
  function Owner(sections: seq<Section>, key: Key): (r: Option<nat>)
    ensures r.Some? ==> r.value < |sections|
  {
    if sections == [] || key == [] then None
    else if key[0] in sections[0].tables then Some(0)
    else match Owner(sections[1..], key)
      case None => None
      case Some(n) => Some(n + 1)
  }

  /** `e` is the box of a sorted key, with `owner`'s boxes. */
  ghost predicate IsBox(s: Schema, doc: Value, done: iset<Key>, owner: Option<nat>, e: OtherEntry) {
    && e.key in done
    && Boxed(s, doc, e.key)
    && Owner(s.sections, e.key) == owner
    && e.value == Masked(e.key[|e.key| - 1], At(doc, e.key).value)
  }

  predicate DistinctKeys(entries: seq<OtherEntry>) {
    forall i, j :: 0 <= i < j < |entries| ==> entries[i].key != entries[j].key
  }

  ghost predicate Boxes(s: Schema, doc: Value, done: iset<Key>, owner: Option<nat>, entries: seq<OtherEntry>) {
    && DistinctKeys(entries)
    && forall e :: e in entries <==> IsBox(s, doc, done, owner, e)
  }

  ghost predicate SectionHolds(s: Schema, doc: Value, done: iset<Key>, i: nat, section: FormSection)
    requires i < |s.sections|
  {
    && section.section == s.sections[i]
    && section.fields == Shown(doc, done, s.sections[i].fields)
    && Boxes(s, doc, done, Some(i), section.other)
  }

  ghost predicate ManagedHolds(doc: Value, done: iset<Key>, key: Key, managed: FormManaged) {
    managed == FormManaged(key, if key in done then Entries(At(doc, key)) else 0)
  }

  /** `form` is what the sorter has made of `doc` once the keys of `done` were sorted. */
  ghost predicate Holds(s: Schema, doc: Value, done: iset<Key>, form: Form) {
    && |form.sections| == |s.sections|
    && (forall i :: 0 <= i < |s.sections| ==> SectionHolds(s, doc, done, i, form.sections[i]))
    && |form.managed| == |s.managed|
    && (forall j :: 0 <= j < |s.managed| ==> ManagedHolds(doc, done, s.managed[j], form.managed[j]))
    && Boxes(s, doc, done, None, form.other)
  }

  ghost const EVERY_KEY: iset<Key> := iset k: Key | true

  /**
    The form of `doc`: each field holds the document's value at its key if it
    can show it, and is absent if it cannot; each managed table counts its
    entries; and the boxes are exactly the keys the sorter stops at otherwise.
   */
  ghost predicate Shows(s: Schema, doc: Value, form: Form) {
    Holds(s, doc, EVERY_KEY, form)
  }

  /** Section `i` is the first to name the table that `key` starts with. */
  ghost predicate FirstToName(sections: seq<Section>, key: Key, i: nat) {
    && i < |sections| && key != [] && key[0] in sections[i].tables
    && forall k :: 0 <= k < i ==> key[0] !in sections[k].tables
  }

  lemma {:induction false} OwnerIs(sections: seq<Section>, key: Key)
    ensures forall i: nat :: Owner(sections, key) == Some(i) <==> FirstToName(sections, key, i)
    ensures Owner(sections, key) == None <==> forall i: nat :: !FirstToName(sections, key, i)
  {
    if sections != [] && key != [] {
      var rest := sections[1..];
      OwnerIs(rest, key);
      assert forall k :: 0 < k < |sections| ==> sections[k] == rest[k - 1];
      if key[0] in sections[0].tables {
        assert FirstToName(sections, key, 0);
      } else {
        forall i: nat
          ensures FirstToName(sections, key, i + 1) <==> FirstToName(rest, key, i)
        {
        }
        forall i: nat
          ensures FirstToName(sections, key, i) <==> i > 0 && FirstToName(rest, key, i - 1)
        {
        }
      }
    }
  }

  /** `key` is in one of these boxes. */
  predicate InBoxes(entries: seq<OtherEntry>, key: Key) {
    exists j :: 0 <= j < |entries| && entries[j].key == key
  }

  /** Each boxed key is in the boxes of the first section that names its table, or in the form's own without one. */
  lemma BoxesAreWithTheirSection(s: Schema, doc: Value, form: Form, key: Key)
    requires Shows(s, doc, form)
    ensures forall i: nat :: i < |form.sections| ==>
              (InBoxes(form.sections[i].other, key) <==> Boxed(s, doc, key) && FirstToName(s.sections, key, i))
    ensures InBoxes(form.other, key) <==> Boxed(s, doc, key) && forall i: nat :: !FirstToName(s.sections, key, i)
  {
    OwnerIs(s.sections, key);
    BoxesHold(s, doc, None, form.other, key);
    forall i: nat | i < |form.sections|
      ensures InBoxes(form.sections[i].other, key) <==> Boxed(s, doc, key) && FirstToName(s.sections, key, i)
    {
      assert SectionHolds(s, doc, EVERY_KEY, i, form.sections[i]);
      BoxesHold(s, doc, Some(i), form.sections[i].other, key);
    }
  }

  lemma BoxesHold(s: Schema, doc: Value, owner: Option<nat>, entries: seq<OtherEntry>, key: Key)
    requires Boxes(s, doc, EVERY_KEY, owner, entries)
    ensures InBoxes(entries, key) <==> Boxed(s, doc, key) && Owner(s.sections, key) == owner
  {
    hide Masked, At, Classify, Owner;
    if InBoxes(entries, key) {
      var j :| 0 <= j < |entries| && entries[j].key == key;
      assert IsBox(s, doc, EVERY_KEY, owner, entries[j]);
    }
    if Boxed(s, doc, key) && Owner(s.sections, key) == owner {
      var e := OtherEntry(key, Masked(key[|key| - 1], At(doc, key).value));
      assert IsBox(s, doc, EVERY_KEY, owner, e);
      assert e in entries;
    }
  }

  // ------------------------------------------------------- the sorter's steps

  function FindManaged(managed: seq<FormManaged>, key: Key): (r: Option<nat>)
    ensures r.Some? ==> r.value < |managed| && managed[r.value].key == key
    ensures r.None? ==> forall j :: 0 <= j < |managed| ==> managed[j].key != key
  {
    if managed == [] then None
    else if managed[0].key == key then Some(0)
    else match FindManaged(managed[1..], key)
      case None => None
      case Some(n) => Some(n + 1)
  }

  function FindField(fields: seq<FormField>, key: Key): (r: Option<nat>)
    ensures r.Some? ==> r.value < |fields| && fields[r.value].field.key == key
    ensures r.None? ==> forall j :: 0 <= j < |fields| ==> fields[j].field.key != key
  {
    if fields == [] then None
    else if fields[0].field.key == key then Some(0)
    else match FindField(fields[1..], key)
      case None => None
      case Some(n) => Some(n + 1)
  }

  /** The first section with a field at `key`. */
  function FindSection(sections: seq<FormSection>, key: Key): (r: Option<nat>)
    ensures r.Some? ==> r.value < |sections| && FindField(sections[r.value].fields, key).Some?
    ensures r.None? ==> forall i :: 0 <= i < |sections| ==> FindField(sections[i].fields, key).None?
  {
    if sections == [] then None
    else if FindField(sections[0].fields, key).Some? then Some(0)
    else match FindSection(sections[1..], key)
      case None => None
      case Some(n) => Some(n + 1)
  }

  function Retain(fields: seq<FormField>, key: Key): seq<FormField> {
    if fields == [] then []
    else (if fields[0].field.key != key then [fields[0]] else []) + Retain(fields[1..], key)
  }

  predicate LeadsSomewhereNow(sections: seq<FormSection>, managed: seq<FormManaged>, key: Key) {
    || (exists j :: 0 <= j < |managed| && key < managed[j].key)
    || (exists i, j :: 0 <= i < |sections| && 0 <= j < |sections[i].fields| && key < sections[i].fields[j].field.key)
  }

  // --------------------------------------------------- how the fields change

  lemma {:induction false} ShownDependsOnFieldKeys(doc: Value, a: iset<Key>, b: iset<Key>, fields: seq<ConfigField>)
    requires forall i :: 0 <= i < |fields| && At(doc, fields[i].key).Some? ==>
              (fields[i].key in a <==> fields[i].key in b)
    ensures Shown(doc, a, fields) == Shown(doc, b, fields)
  {
    if fields != [] {
      ShownDependsOnFieldKeys(doc, a, b, fields[1..]);
    }
  }

  lemma {:induction false} ShownFind(doc: Value, done: iset<Key>, fields: seq<ConfigField>, key: Key)
    requires key !in done
    ensures FieldAt(fields, key).None? <==> FindField(Shown(doc, done, fields), key).None?
    ensures FieldAt(fields, key).Some? ==>
              Shown(doc, done, fields)[FindField(Shown(doc, done, fields), key).value].field ==
                  FieldAt(fields, key).value
  {
    if fields != [] {
      ShownFind(doc, done, fields[1..], key);
      var all, rest := Shown(doc, done, fields), Shown(doc, done, fields[1..]);
      if fields[0].key != key && all != rest {
        assert all[1..] == rest;
      }
    }
  }

  /** `fields` with the first one at `key` replaced. */
  function Replaced(fields: seq<FormField>, key: Key, filled: FormField): seq<FormField> {
    if fields == [] then []
    else if fields[0].field.key == key then [filled] + fields[1..]
    else [fields[0]] + Replaced(fields[1..], key, filled)
  }

  lemma {:induction false} ReplacedAtFound(fields: seq<FormField>, key: Key, filled: FormField)
    requires FindField(fields, key).Some?
    ensures Replaced(fields, key, filled) == fields[FindField(fields, key).value := filled]
  {
    if fields[0].field.key != key {
      ReplacedAtFound(fields[1..], key, filled);
    }
  }

  lemma {:induction false} ShownSet(doc: Value, done: iset<Key>, fields: seq<ConfigField>, key: Key, f: ConfigField)
    requires key !in done && At(doc, key).Some?
    requires forall i, j :: 0 <= i < j < |fields| ==> fields[i].key != fields[j].key
    requires FieldAt(fields, key) == Some(f) && Accepts(f.kind, At(doc, key).value)
    ensures Shown(doc, done + iset{key}, fields) ==
            Replaced(Shown(doc, done, fields), key, FormField(f, Some(ShownValue(f.kind, At(doc, key).value))))
  {
    hide At, Accepts, ShownValue;
    var rest := Shown(doc, done, fields[1..]);
    if fields[0].key == key {
      ShownDependsOnFieldKeys(doc, done, done + iset{key}, fields[1..]);
      assert Shown(doc, done, fields)[1..] == rest;
    } else {
      ShownSet(doc, done, fields[1..], key, f);
      if Shown(doc, done, fields) != rest {
        assert Shown(doc, done, fields)[1..] == rest;
      }
    }
  }

  lemma {:induction false} ShownRetain(doc: Value, done: iset<Key>, fields: seq<ConfigField>, key: Key)
    requires At(doc, key).Some?
    requires forall i :: 0 <= i < |fields| && fields[i].key == key ==> !Accepts(fields[i].kind, At(doc, key).value)
    ensures Shown(doc, done + iset{key}, fields) == Retain(Shown(doc, done, fields), key)
  {
    if fields != [] {
      ShownRetain(doc, done, fields[1..], key);
      var all, rest := Shown(doc, done, fields), Shown(doc, done, fields[1..]);
      if all != rest {
        assert all[1..] == rest;
      }
    }
  }

  lemma {:induction false} ShownMembers(doc: Value, done: iset<Key>, fields: seq<ConfigField>)
    ensures forall j :: 0 <= j < |Shown(doc, done, fields)| ==> Shown(doc, done, fields)[j].field in fields
    ensures forall i :: 0 <= i < |fields| && fields[i].key !in done ==>
              FormField(fields[i], None) in Shown(doc, done, fields)
  {
    if fields != [] {
      ShownMembers(doc, done, fields[1..]);
      var all, rest := Shown(doc, done, fields), Shown(doc, done, fields[1..]);
      if all != rest {
        assert all[1..] == rest;
      }
      forall i | 0 <= i < |fields| && fields[i].key !in done
        ensures FormField(fields[i], None) in all
      {
        if i > 0 {
          assert fields[i] == fields[1..][i - 1];
          assert FormField(fields[i], None) in rest;
        }
      }
    }
  }

  // ----------------------------------------------------- fields and sections

  function Offset(sections: seq<Section>, i: nat): nat
    requires i <= |sections|
  {
    if i == 0 then 0 else |sections[0].fields| + Offset(sections[1..], i - 1)
  }

  lemma {:induction false} FieldOfSection(sections: seq<Section>, i: nat, j: nat)
    requires i < |sections| && j < |sections[i].fields|
    ensures Offset(sections, i) + j < |AllFields(sections)|
    ensures AllFields(sections)[Offset(sections, i) + j] == sections[i].fields[j]
  {
    if i > 0 {
      FieldOfSection(sections[1..], i - 1, j);
    }
  }

  lemma {:induction false} OffsetsIncrease(sections: seq<Section>, i: nat, k: nat)
    requires i < k < |sections|
    ensures Offset(sections, i) + |sections[i].fields| <= Offset(sections, k)
  {
    if i > 0 {
      OffsetsIncrease(sections[1..], i - 1, k - 1);
    }
  }

  lemma {:induction false} FieldHasSection(sections: seq<Section>, n: nat) returns (i: nat, j: nat)
    requires n < |AllFields(sections)|
    ensures i < |sections| && j < |sections[i].fields| && sections[i].fields[j] == AllFields(sections)[n]
  {
    if n < |sections[0].fields| {
      i, j := 0, n;
    } else {
      i, j := FieldHasSection(sections[1..], n - |sections[0].fields|);
      i := i + 1;
    }
  }

  lemma SectionFieldsDistinct(s: Schema, i: nat)
    requires ValidSchema(s) && i < |s.sections|
    ensures forall a, b :: 0 <= a < b < |s.sections[i].fields| ==>
              s.sections[i].fields[a].key != s.sections[i].fields[b].key
  {
    forall a, b | 0 <= a < b < |s.sections[i].fields|
      ensures s.sections[i].fields[a].key != s.sections[i].fields[b].key
    {
      DistinctFieldKeys(s, i, a, i, b);
    }
  }

  lemma DistinctFieldKeys(s: Schema, i: nat, a: nat, k: nat, b: nat)
    requires ValidSchema(s) && i < |s.sections| && k < |s.sections| && (i, a) != (k, b)
    requires a < |s.sections[i].fields| && b < |s.sections[k].fields|
    ensures s.sections[i].fields[a].key != s.sections[k].fields[b].key
  {
    FieldOfSection(s.sections, i, a);
    FieldOfSection(s.sections, k, b);
    if i < k { OffsetsIncrease(s.sections, i, k); }
    if k < i { OffsetsIncrease(s.sections, k, i); }
    var ks := KnownKeys(s);
    var m, n := Offset(s.sections, i) + a, Offset(s.sections, k) + b;
    assert m != n && !(ks[m] <= ks[n]);
  }

  /** The field at `key` is in at most one section. */
  lemma FieldAtInSection(s: Schema, key: Key, i: nat)
    requires ValidSchema(s) && i < |s.sections| && FieldAt(s.sections[i].fields, key).Some?
    ensures FieldAt(AllFields(s.sections), key) == FieldAt(s.sections[i].fields, key)
    ensures forall k :: 0 <= k < |s.sections| && k != i ==> FieldAt(s.sections[k].fields, key).None?
  {
    var f := FieldAt(s.sections[i].fields, key).value;
    var a :| 0 <= a < |s.sections[i].fields| && s.sections[i].fields[a] == f;
    FieldOfSection(s.sections, i, a);
    FieldAtIs(s, Offset(s.sections, i) + a);
    forall k | 0 <= k < |s.sections| && k != i
      ensures FieldAt(s.sections[k].fields, key).None?
    {
      forall b | 0 <= b < |s.sections[k].fields|
        ensures s.sections[k].fields[b].key != key
      {
        DistinctFieldKeys(s, i, a, k, b);
      }
    }
  }

  lemma {:induction false} NoFieldInAnySection(sections: seq<Section>, key: Key)
    requires forall k :: 0 <= k < |sections| ==> FieldAt(sections[k].fields, key).None?
    ensures FieldAt(AllFields(sections), key).None?
  {
    if sections != [] {
      NoFieldInAnySection(sections[1..], key);
      var all, first := AllFields(sections), sections[0].fields;
      assert forall n :: 0 <= n < |all| ==>
          all[n] == if n < |first| then first[n] else AllFields(sections[1..])[n - |first|];
    }
  }
}
