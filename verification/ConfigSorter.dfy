/** The sorter itself: `ConfigForm` and its in-place steps, against `Shows`. */
module ConfigSorter {
  import opened Results
  import opened ConfigValues
  import opened ConfigFields
  import opened ConfigSchema
  import opened ConfigForms

  // -------------------------------------------------------- what is sorted

  /** The keys at and under `p` the sorter stops at. */
  ghost function ClaimsFrom(s: Schema, doc: Value, p: Key): iset<Key> {
    iset k: Key | p <= k && Claimed(s, doc, k)
  }

  /** The keys under `p` the sorter stops at, through one of `names`. */
  ghost function ClaimsThrough(s: Schema, doc: Value, p: Key, names: set<string>): iset<Key> {
    iset k: Key | p < k && k[|p|] in names && Claimed(s, doc, k)
  }

  lemma ClaimsAtClaimed(s: Schema, doc: Value, key: Key)
    requires Claimed(s, doc, key)
    ensures ClaimsFrom(s, doc, key) == iset{key}
  {
    forall k | key < k
      ensures !Claimed(s, doc, k)
    {
      assert k[..|key|] == key;
    }
    forall k | k in ClaimsFrom(s, doc, key)
      ensures k == key
    {
      assert key == k || key < k;
    }
  }

  lemma ClaimsAtPassed(s: Schema, doc: Value, p: Key, table: map<string, Value>)
    requires At(doc, p) == Some(Obj(table)) && (p != [] ==> Passed(s, doc, p))
    ensures ClaimsFrom(s, doc, p) == ClaimsThrough(s, doc, p, table.Keys)
  {
    forall k | p <= k && Claimed(s, doc, k)
      ensures p < k && k[|p|] in table
    {
      assert k != p;
      AtPrefix(doc, p, k);
    }
  }

  lemma ClaimsThroughOneMore(s: Schema, doc: Value, p: Key, names: set<string>, name: string)
    ensures ClaimsThrough(s, doc, p, names + {name}) ==
            ClaimsThrough(s, doc, p, names) + ClaimsFrom(s, doc, p + [name])
  {
    forall k: Key
      ensures p + [name] <= k <==> p < k && k[|p|] == name
    {
      if p < k && k[|p|] == name {
        assert k[..|p| + 1] == p + [name];
      }
    }
  }

  // ------------------------------------------------------------ single steps

  lemma BoxesUnchanged(s: Schema, doc: Value, done: iset<Key>, key: Key, owner: Option<nat>, entries: seq<OtherEntry>)
    requires Boxes(s, doc, done, owner, entries)
    requires !Boxed(s, doc, key) || Owner(s.sections, key) != owner
    ensures Boxes(s, doc, done + iset{key}, owner, entries)
  {
    assert forall e :: IsBox(s, doc, done, owner, e) <==> IsBox(s, doc, done + iset{key}, owner, e);
  }

  lemma BoxesPushed(s: Schema, doc: Value, done: iset<Key>, key: Key, owner: Option<nat>, entries: seq<OtherEntry>)
    requires Boxes(s, doc, done, owner, entries) && key !in done
    requires Boxed(s, doc, key) && Owner(s.sections, key) == owner
    ensures Boxes(s, doc, done + iset{key}, owner,
                  entries + [OtherEntry(key, Masked(key[|key| - 1], At(doc, key).value))])
  {
    var e := OtherEntry(key, Masked(key[|key| - 1], At(doc, key).value));
    var after := entries + [e];
    forall i | 0 <= i < |entries|
      ensures entries[i].key != key
    {
      assert entries[i] in entries;
      assert IsBox(s, doc, done, owner, entries[i]);
    }
    forall x
      ensures x in after <==> IsBox(s, doc, done + iset{key}, owner, x)
    {
      assert x in after <==> x in entries || x == e;
      assert x in entries <==> IsBox(s, doc, done, owner, x);
    }
  }

  lemma SectionUnchanged(s: Schema, doc: Value, done: iset<Key>, key: Key, i: nat, section: FormSection)
    requires i < |s.sections| && SectionHolds(s, doc, done, i, section)
    requires FieldAt(s.sections[i].fields, key).None? && !Boxed(s, doc, key)
    ensures SectionHolds(s, doc, done + iset{key}, i, section)
  {
    ShownDependsOnFieldKeys(doc, done, done + iset{key}, s.sections[i].fields);
    BoxesUnchanged(s, doc, done, key, Some(i), section.other);
  }

  lemma ManagedUnchanged(s: Schema, doc: Value, done: iset<Key>, key: Key, managed: seq<FormManaged>)
    requires |managed| == |s.managed| && !IsManaged(s, key)
    requires forall j :: 0 <= j < |s.managed| ==> ManagedHolds(doc, done, s.managed[j], managed[j])
    ensures forall j :: 0 <= j < |s.managed| ==> ManagedHolds(doc, done + iset{key}, s.managed[j], managed[j])
  {}

  lemma ManagedIsNoField(s: Schema, j: nat)
    requires ValidSchema(s) && j < |s.managed|
    ensures forall i :: 0 <= i < |s.sections| ==> FieldAt(s.sections[i].fields, s.managed[j]).None?
    ensures forall a :: 0 <= a < |s.managed| && a != j ==> s.managed[a] != s.managed[j]
  {
    forall i | 0 <= i < |s.sections|
      ensures FieldAt(s.sections[i].fields, s.managed[j]).None?
    {
      forall a | 0 <= a < |s.sections[i].fields|
        ensures s.sections[i].fields[a].key != s.managed[j]
      {
        FieldOfSection(s.sections, i, a);
        FieldAtIs(s, Offset(s.sections, i) + a);
      }
    }
    forall a | 0 <= a < |s.managed| && a != j
      ensures s.managed[a] != s.managed[j]
    {
      ManagedDistinct(s, a, j);
    }
  }

  lemma ManagedDistinct(s: Schema, a: nat, j: nat)
    requires ValidSchema(s) && a < |s.managed| && j < |s.managed| && a != j
    ensures s.managed[a] != s.managed[j]
  {
    var ks, n := KnownKeys(s), |AllFields(s.sections)|;
    hide KnownKeys, AllFields;
    assert ks[n + a] == s.managed[a] && ks[n + j] == s.managed[j];
    assert !(ks[n + a] <= ks[n + j]);
  }

  lemma StepManaged(s: Schema, doc: Value, done: iset<Key>, form: Form, key: Key, j: nat)
    requires ValidSchema(s) && Holds(s, doc, done, form)
    requires At(doc, key).Some? && j < |form.managed| && form.managed[j].key == key
    ensures Holds(s, doc, done + iset{key},
                  form.(managed := form.managed[j := FormManaged(key, Entries(At(doc, key)))]))
  {
    assert ManagedHolds(doc, done, s.managed[j], form.managed[j]);
    ManagedIsNoField(s, j);
    forall i | 0 <= i < |s.sections|
      ensures SectionHolds(s, doc, done + iset{key}, i, form.sections[i])
    {
      SectionUnchanged(s, doc, done, key, i, form.sections[i]);
    }
    BoxesUnchanged(s, doc, done, key, None, form.other);
    ManagedCounted(s, doc, done, key, form.managed, j);
  }

  lemma ManagedCounted(s: Schema, doc: Value, done: iset<Key>, key: Key, managed: seq<FormManaged>, j: nat)
    requires |managed| == |s.managed| && j < |managed| && s.managed[j] == key
    requires forall a :: 0 <= a < |s.managed| ==> ManagedHolds(doc, done, s.managed[a], managed[a])
    requires forall a :: 0 <= a < |s.managed| && a != j ==> s.managed[a] != key
    ensures var after := managed[j := FormManaged(key, Entries(At(doc, key)))];
            forall a :: 0 <= a < |s.managed| ==> ManagedHolds(doc, done + iset{key}, s.managed[a], after[a])
  {
    forall a | 0 <= a < |s.managed| && a != j
      ensures ManagedHolds(doc, done + iset{key}, s.managed[a], managed[a])
    {
      assert ManagedHolds(doc, done, s.managed[a], managed[a]);
    }
  }

  lemma SectionFilled(s: Schema, doc: Value, done: iset<Key>, key: Key, i: nat, section: FormSection, j: nat)
    requires ValidSchema(s) && i < |s.sections| && SectionHolds(s, doc, done, i, section) && key !in done
    requires At(doc, key).Some? && FindField(section.fields, key) == Some(j)
    requires Accepts(section.fields[j].field.kind, At(doc, key).value)
    ensures FieldAt(s.sections[i].fields, key) == Some(section.fields[j].field)
    ensures !Boxed(s, doc, key) && !IsManaged(s, key)
    ensures SectionHolds(s, doc, done + iset{key}, i, Filled(section, j, At(doc, key).value))
  {
    ShownFind(doc, done, s.sections[i].fields, key);
    var f := section.fields[j].field;
    FieldAtInSection(s, key, i);
    SectionFieldsDistinct(s, i);
    ShownSet(doc, done, s.sections[i].fields, key, f);
    ReplacedAtFound(section.fields, key, FormField(f, Some(ShownValue(f.kind, At(doc, key).value))));
    var n :| 0 <= n < |AllFields(s.sections)| && AllFields(s.sections)[n] == f;
    FieldAtIs(s, n);
    BoxesUnchanged(s, doc, done, key, Some(i), section.other);
  }

  /** `section` with its field `j` holding `value`. */
  function Filled(section: FormSection, j: nat, value: Value): FormSection
    requires j < |section.fields|
  {
    var f := section.fields[j].field;
    section.(fields := section.fields[j := FormField(f, Some(ShownValue(f.kind, value)))])
  }

  lemma StepField(s: Schema, doc: Value, done: iset<Key>, form: Form, key: Key, i: nat, j: nat)
    requires ValidSchema(s) && Holds(s, doc, done, form) && key !in done
    requires At(doc, key).Some? && i < |form.sections| && FindField(form.sections[i].fields, key) == Some(j)
    requires Accepts(form.sections[i].fields[j].field.kind, At(doc, key).value)
    ensures Holds(s, doc, done + iset{key},
                  form.(sections := form.sections[i := Filled(form.sections[i], j, At(doc, key).value)]))
  {
    hide SectionHolds, ManagedHolds, Boxes, Accepts, ValidSchema, At;
    assert SectionHolds(s, doc, done, i, form.sections[i]);
    SectionFilled(s, doc, done, key, i, form.sections[i], j);
    FieldAtInSection(s, key, i);
    forall k | 0 <= k < |s.sections| && k != i
      ensures SectionHolds(s, doc, done + iset{key}, k, form.sections[k])
    {
      SectionUnchanged(s, doc, done, key, k, form.sections[k]);
    }
    BoxesUnchanged(s, doc, done, key, None, form.other);
    ManagedUnchanged(s, doc, done, key, form.managed);
  }

  /** The form after a box for `key`: its field is dropped, its entry pushed. */
  function WithBox(s: Schema, form: Form, key: Key, entry: OtherEntry): (r: Form)
    ensures |r.sections| == |form.sections|
  {
    var owner := Owner(s.sections, key);
    Form(
      seq(|form.sections|, i requires 0 <= i < |form.sections| =>
        form.sections[i].(fields := Retain(form.sections[i].fields, key),
                          other := form.sections[i].other + if owner == Some(i) then [entry] else [])),
      form.managed,
      form.other + if owner == None then [entry] else [])
  }

  lemma SectionWithBox(s: Schema, doc: Value, done: iset<Key>, form: Form, key: Key, i: nat)
    requires ValidSchema(s) && Holds(s, doc, done, form) && key !in done && Boxed(s, doc, key) && i < |s.sections|
    ensures var e := OtherEntry(key, Masked(key[|key| - 1], At(doc, key).value));
            SectionHolds(s, doc, done + iset{key}, i, WithBox(s, form, key, e).sections[i])
  {
    var fields, section := s.sections[i].fields, form.sections[i];
    assert SectionHolds(s, doc, done, i, section);
    hide Holds, At, Accepts, Boxes;
    forall a | 0 <= a < |fields| && fields[a].key == key
      ensures !Accepts(fields[a].kind, At(doc, key).value)
    {
      FieldOfSection(s.sections, i, a);
      FieldAtIs(s, Offset(s.sections, i) + a);
    }
    ShownRetain(doc, done, fields, key);
    if Owner(s.sections, key) == Some(i) {
      BoxesPushed(s, doc, done, key, Some(i), section.other);
    } else {
      BoxesUnchanged(s, doc, done, key, Some(i), section.other);
      assert section.other + [] == section.other;
    }
  }

  lemma StepBox(s: Schema, doc: Value, done: iset<Key>, form: Form, key: Key)
    requires ValidSchema(s) && Holds(s, doc, done, form) && key !in done && Boxed(s, doc, key)
    ensures Holds(s, doc, done + iset{key},
                  WithBox(s, form, key, OtherEntry(key, Masked(key[|key| - 1], At(doc, key).value))))
  {
    var e := OtherEntry(key, Masked(key[|key| - 1], At(doc, key).value));
    var after := WithBox(s, form, key, e);
    forall i | 0 <= i < |s.sections|
      ensures SectionHolds(s, doc, done + iset{key}, i, after.sections[i])
    {
      SectionWithBox(s, doc, done, form, key, i);
    }
    if Owner(s.sections, key) == None {
      BoxesPushed(s, doc, done, key, None, form.other);
    } else {
      BoxesUnchanged(s, doc, done, key, None, form.other);
      assert after.other == form.other;
    }
    ManagedUnchanged(s, doc, done, key, form.managed);
  }

  /**
    The fields boxes have displaced so far never hide that a table leads
    somewhere: nothing under a key is sorted before the key is.
   */
  lemma LeadsSomewhereStill(s: Schema, doc: Value, done: iset<Key>, form: Form, key: Key)
    requires Holds(s, doc, done, form) && forall k :: k in done ==> !(key <= k)
    ensures LeadsSomewhereNow(form.sections, form.managed, key) <==> LeadsSomewhere(s, key)
  {
    if LeadsSomewhereNow(form.sections, form.managed, key) {
      StillLeadsWhereItLed(s, doc, done, form, key);
    }
    if LeadsSomewhere(s, key) {
      var m :| 0 <= m < |KnownKeys(s)| && key < KnownKeys(s)[m];
      LeadsToUnsorted(s, doc, done, form, key, m);
    }
  }

  lemma StillLeadsWhereItLed(s: Schema, doc: Value, done: iset<Key>, form: Form, key: Key)
    requires Holds(s, doc, done, form) && LeadsSomewhereNow(form.sections, form.managed, key)
    ensures LeadsSomewhere(s, key)
  {
    hide SectionHolds, Boxes, KnownKeys;
    if j :| 0 <= j < |form.managed| && key < form.managed[j].key {
      assert ManagedHolds(doc, done, s.managed[j], form.managed[j]);
      hide Holds;
      ManagedIsKnown(s, j);
    } else {
      var i, j :| 0 <= i < |form.sections| && 0 <= j < |form.sections[i].fields|
          && key < form.sections[i].fields[j].field.key;
      assert SectionHolds(s, doc, done, i, form.sections[i]);
      hide Holds;
      ShownFieldIsKnown(s, doc, done, i, form.sections[i], j);
    }
  }

  lemma ManagedIsKnown(s: Schema, j: nat)
    requires j < |s.managed|
    ensures exists m :: 0 <= m < |KnownKeys(s)| && KnownKeys(s)[m] == s.managed[j]
  {
    assert KnownKeys(s)[|AllFields(s.sections)| + j] == s.managed[j];
  }

  lemma LeadsToUnsorted(s: Schema, doc: Value, done: iset<Key>, form: Form, key: Key, m: nat)
    requires Holds(s, doc, done, form) && m < |KnownKeys(s)| && key < KnownKeys(s)[m]
    requires KnownKeys(s)[m] !in done
    ensures LeadsSomewhereNow(form.sections, form.managed, key)
  {
    var n := |AllFields(s.sections)|;
    if m >= n {
      assert ManagedHolds(doc, done, s.managed[m - n], form.managed[m - n]);
      assert key < form.managed[m - n].key;
    } else {
      var i, j := UnsortedFieldIsShown(s, doc, done, form, m);
      assert key < form.sections[i].fields[j].field.key;
    }
  }

  lemma ShownFieldIsKnown(s: Schema, doc: Value, done: iset<Key>, i: nat, section: FormSection, j: nat)
    requires i < |s.sections| && SectionHolds(s, doc, done, i, section) && j < |section.fields|
    ensures exists m :: 0 <= m < |KnownKeys(s)| && section.fields[j].field.key == KnownKeys(s)[m]
  {
    ShownMembers(doc, done, s.sections[i].fields);
    var f := section.fields[j].field;
    var a :| 0 <= a < |s.sections[i].fields| && s.sections[i].fields[a] == f;
    FieldOfSection(s.sections, i, a);
    assert f.key == KnownKeys(s)[Offset(s.sections, i) + a];
  }

  lemma UnsortedFieldIsShown(s: Schema, doc: Value, done: iset<Key>, form: Form, m: nat) returns (i: nat, j: nat)
    requires Holds(s, doc, done, form) && m < |AllFields(s.sections)| && AllFields(s.sections)[m].key !in done
    ensures i < |form.sections| && j < |form.sections[i].fields|
    ensures form.sections[i].fields[j].field == AllFields(s.sections)[m]
  {
    var a;
    i, a := FieldHasSection(s.sections, m);
    assert SectionHolds(s, doc, done, i, form.sections[i]);
    ShownMembers(doc, done, s.sections[i].fields);
    j :| 0 <= j < |form.sections[i].fields| && form.sections[i].fields[j] == FormField(s.sections[i].fields[a], None);
  }

  lemma EmptyForm(s: Schema, doc: Value)
    ensures Holds(s, doc, iset{},
              Form(seq(|s.sections|, i requires 0 <= i < |s.sections| =>
                     FormSection(s.sections[i], Unset(s.sections[i].fields), [])),
                   seq(|s.managed|, j requires 0 <= j < |s.managed| => FormManaged(s.managed[j], 0)),
                   []))
  {
    forall i | 0 <= i < |s.sections|
      ensures Unset(s.sections[i].fields) == Shown(doc, iset{}, s.sections[i].fields)
    {
      UnsetShown(doc, s.sections[i].fields);
    }
  }

  function Unset(fields: seq<ConfigField>): seq<FormField> {
    seq(|fields|, i requires 0 <= i < |fields| => FormField(fields[i], None))
  }

  lemma {:induction false} UnsetShown(doc: Value, fields: seq<ConfigField>)
    ensures Unset(fields) == Shown(doc, iset{}, fields)
  {
    if fields != [] {
      UnsetShown(doc, fields[1..]);
      assert Unset(fields) == [FormField(fields[0], None)] + Unset(fields[1..]);
    }
  }

  /** Once every claimed key is sorted, every known key with a value is. */
  lemma AllSorted(s: Schema, doc: Value, form: Form)
    requires ValidSchema(s) && Holds(s, doc, AllClaimed(s, doc), form)
    ensures Shows(s, doc, form)
  {
    var done := AllClaimed(s, doc);
    forall i | 0 <= i < |s.sections|
      ensures SectionHolds(s, doc, EVERY_KEY, i, form.sections[i])
    {
      assert SectionHolds(s, doc, done, i, form.sections[i]);
      SectionSorted(s, doc, i);
      BoxesSorted(s, doc, Some(i), form.sections[i].other);
    }
    forall j | 0 <= j < |s.managed|
      ensures ManagedHolds(doc, EVERY_KEY, s.managed[j], form.managed[j])
    {
      assert ManagedHolds(doc, done, s.managed[j], form.managed[j]);
      if At(doc, s.managed[j]).Some? { ManagedSorted(s, doc, j); }
    }
    BoxesSorted(s, doc, None, form.other);
  }

  lemma SectionSorted(s: Schema, doc: Value, i: nat)
    requires ValidSchema(s) && i < |s.sections|
    ensures Shown(doc, EVERY_KEY, s.sections[i].fields) == Shown(doc, AllClaimed(s, doc), s.sections[i].fields)
  {
    var fields := s.sections[i].fields;
    forall a | 0 <= a < |fields| && At(doc, fields[a].key).Some?
      ensures fields[a].key in AllClaimed(s, doc)
    {
      FieldOfSection(s.sections, i, a);
      KnownKeyClaimed(s, doc, Offset(s.sections, i) + a);
    }
    ShownDependsOnFieldKeys(doc, EVERY_KEY, AllClaimed(s, doc), fields);
  }

  lemma ManagedSorted(s: Schema, doc: Value, j: nat)
    requires ValidSchema(s) && j < |s.managed| && At(doc, s.managed[j]).Some?
    ensures s.managed[j] in AllClaimed(s, doc)
  {
    var n := |AllFields(s.sections)| + j;
    assert KnownKeys(s)[n] == s.managed[j];
    KnownKeyClaimed(s, doc, n);
  }

  lemma BoxesSorted(s: Schema, doc: Value, owner: Option<nat>, entries: seq<OtherEntry>)
    requires Boxes(s, doc, AllClaimed(s, doc), owner, entries)
    ensures Boxes(s, doc, EVERY_KEY, owner, entries)
  {
    assert forall e :: IsBox(s, doc, AllClaimed(s, doc), owner, e) <==> IsBox(s, doc, EVERY_KEY, owner, e);
  }

  // --------------------------------------------------------------- the class

  class ConfigForm {
    const schema: Schema
    var sections: seq<FormSection>
    var managed: seq<FormManaged>
    var other: seq<OtherEntry>

    function Contents(): Form
      reads this
    {
      Form(sections, managed, other)
    }

    /** `ConfigForm::build`. */
    constructor Build(schema: Schema, document: map<string, Value>)
      requires ValidSchema(schema)
      ensures this.schema == schema
      ensures Shows(schema, Obj(document), Contents())
    {
      this.schema := schema;
      sections := seq(|schema.sections|, i requires 0 <= i < |schema.sections| =>
                        FormSection(schema.sections[i], Unset(schema.sections[i].fields), []));
      managed := seq(|schema.managed|, j requires 0 <= j < |schema.managed| => FormManaged(schema.managed[j], 0));
      other := [];
      new;
      ghost var doc := Obj(document);
      EmptyForm(schema, doc);
      SortTable([], document, doc, iset{});
      ClaimsAtPassed(schema, doc, [], document);
      assert iset{} + ClaimsFrom(schema, doc, []) == AllClaimed(schema, doc);
      AllSorted(schema, doc, Contents());
    }

    /** The field that section `i` finds at `key`. */
    function FoundField(i: nat, key: Key): FormField
      requires i < |sections| && FindField(sections[i].fields, key).Some?
      reads this
    {
      sections[i].fields[FindField(sections[i].fields, key).value]
    }

    /** Sorts each entry of the table at `prefix`, in whatever order. */
    method SortTable(prefix: Key, table: map<string, Value>, ghost doc: Value, ghost done: iset<Key>)
      requires ValidSchema(schema)
      requires At(doc, prefix) == Some(Obj(table))
      requires forall n :: 0 < n <= |prefix| ==> Passed(schema, doc, prefix[..n])
      requires forall k :: k in done ==> !(prefix <= k)
      requires Holds(schema, doc, done, Contents())
      modifies this
      ensures Holds(schema, doc, done + ClaimsThrough(schema, doc, prefix, table.Keys), Contents())
      decreases Obj(table), 0
    {
      var remaining := table.Keys;
      assert table.Keys - remaining == {};
      assert done + ClaimsThrough(schema, doc, prefix, {}) == done;
      while remaining != {}
        invariant remaining <= table.Keys
        invariant Holds(schema, doc, done + ClaimsThrough(schema, doc, prefix, table.Keys - remaining), Contents())
        decreases remaining
      {
        var name :| name in remaining;
        ghost var names := table.Keys - remaining;
        ghost var sorted := done + ClaimsThrough(schema, doc, prefix, names);
        var key := prefix + [name];
        AtChild(doc, prefix, name);
        assert forall n :: 0 < n < |key| ==> key[..n] == prefix[..n];
        assert forall k :: prefix + [name] <= k ==> prefix <= k && k[|prefix|] == name;
        SortValue(key, table[name], doc, sorted);
        ClaimsThroughOneMore(schema, doc, prefix, names, name);
        remaining := remaining - {name};
        assert table.Keys - remaining == names + {name};
        assert sorted + ClaimsFrom(schema, doc, key) == done + ClaimsThrough(schema, doc, prefix, names + {name});
      }
      assert table.Keys - {} == table.Keys;
    }

    /** Sorts the value at `key`: counts it, fills its field, goes into it, or boxes it. */
    method SortValue(key: Key, value: Value, ghost doc: Value, ghost done: iset<Key>)
      requires ValidSchema(schema)
      requires Visited(schema, doc, key) && At(doc, key) == Some(value)
      requires forall k :: k in done ==> !(key <= k)
      requires Holds(schema, doc, done, Contents())
      modifies this
      ensures Holds(schema, doc, done + ClaimsFrom(schema, doc, key), Contents())
      decreases value, 1
    {
      assert key <= key;
      DecidesTheClass(doc, done, key, value);
      hide Holds, ClaimsFrom, ValidSchema, Accepts, LeadsSomewhereNow, At;
      var m := FindManaged(managed, key);
      if m.Some? {
        CountManaged(m.value, key, value, doc, done);
        return;
      }
      var i := FindSection(sections, key);
      if i.Some? && Accepts(FoundField(i.value, key).field.kind, value) {
        FillField(i.value, FindField(sections[i.value].fields, key).value, key, value, doc, done);
        return;
      }
      if value.Obj? && LeadsSomewhereNow(sections, managed, key) {
        assert key[..|key|] == key;
        ClaimsAtPassed(schema, doc, key, value.table);
        SortTable(key, value.table, doc, done);
        return;
      }
      PutInBox(key, value, doc, done);
    }

    /** What the sorter finds in the form so far decides as the schema does. */
    lemma DecidesTheClass(doc: Value, done: iset<Key>, key: Key, value: Value)
      requires ValidSchema(schema) && Holds(schema, doc, done, Contents())
      requires forall k :: k in done ==> !(key <= k)
      ensures var i := FindSection(sections, key);
              Classify(schema, key, value) ==
              if FindManaged(managed, key).Some? then ManagedTable
              else if i.Some? && Accepts(FoundField(i.value, key).field.kind, value) then Field
              else if value.Obj? && LeadsSomewhereNow(sections, managed, key) then Descend
              else Box
    {
      assert key <= key;
      ManagedFound(doc, done, key);
      NotSorted(doc, done, key);
      LeadsSomewhereStill(schema, doc, done, Contents(), key);
    }

    method CountManaged(j: nat, key: Key, value: Value, ghost doc: Value, ghost done: iset<Key>)
      requires ValidSchema(schema)
      requires Visited(schema, doc, key) && At(doc, key) == Some(value)
      requires Holds(schema, doc, done, Contents())
      requires j < |managed| && managed[j].key == key && IsManaged(schema, key)
      modifies this
      ensures Holds(schema, doc, done + ClaimsFrom(schema, doc, key), Contents())
    {
      StepManaged(schema, doc, done, Contents(), key, j);
      ClaimsAtClaimed(schema, doc, key);
      hide Holds, Visited, ClaimsFrom, ValidSchema, IsManaged;
      managed := managed[j := FormManaged(key, if value.Obj? then |value.table| else 1)];
    }

    method FillField(i: nat, j: nat, key: Key, value: Value, ghost doc: Value, ghost done: iset<Key>)
      requires ValidSchema(schema)
      requires Visited(schema, doc, key) && At(doc, key) == Some(value) && key !in done
      requires Holds(schema, doc, done, Contents())
      requires i < |sections| && FindField(sections[i].fields, key) == Some(j)
      requires Classify(schema, key, value) == Field && Accepts(sections[i].fields[j].field.kind, value)
      modifies this
      ensures Holds(schema, doc, done + ClaimsFrom(schema, doc, key), Contents())
    {
      StepField(schema, doc, done, Contents(), key, i, j);
      ClaimsAtClaimed(schema, doc, key);
      sections := sections[i := Filled(sections[i], j, value)];
    }

    method PutInBox(key: Key, value: Value, ghost doc: Value, ghost done: iset<Key>)
      requires ValidSchema(schema)
      requires Boxed(schema, doc, key) && At(doc, key) == Some(value) && key !in done
      requires Holds(schema, doc, done, Contents())
      modifies this
      ensures Holds(schema, doc, done + ClaimsFrom(schema, doc, key), Contents())
    {
      StepBox(schema, doc, done, Contents(), key);
      ClaimsAtClaimed(schema, doc, key);
      var after := WithBox(schema, Contents(), key, OtherEntry(key, Masked(key[|key| - 1], value)));
      sections, other := after.sections, after.other;
    }

    lemma ManagedFound(doc: Value, done: iset<Key>, key: Key)
      requires Holds(schema, doc, done, Contents())
      ensures IsManaged(schema, key) <==> FindManaged(managed, key).Some?
    {
      forall j | 0 <= j < |schema.managed|
        ensures schema.managed[j] == managed[j].key
      {
        assert ManagedHolds(doc, done, schema.managed[j], managed[j]);
      }
      if IsManaged(schema, key) {
        var j :| 0 <= j < |schema.managed| && schema.managed[j] == key;
        assert managed[j].key == key;
      }
    }

    /** The field the sorter finds at an unsorted key is the schema's. */
    lemma NotSorted(doc: Value, done: iset<Key>, key: Key)
      requires ValidSchema(schema) && Holds(schema, doc, done, Contents()) && key !in done
      ensures FindSection(sections, key).None? ==> FieldAt(AllFields(schema.sections), key).None?
      ensures FindSection(sections, key).Some? ==>
                var i := FindSection(sections, key).value;
                FieldAt(AllFields(schema.sections), key) ==
                Some(sections[i].fields[FindField(sections[i].fields, key).value].field)
    {
      var i := FindSection(sections, key);
      if i.Some? {
        assert SectionHolds(schema, doc, done, i.value, sections[i.value]);
        ShownFind(doc, done, schema.sections[i.value].fields, key);
        FieldAtInSection(schema, key, i.value);
      } else {
        forall k | 0 <= k < |schema.sections|
          ensures FieldAt(schema.sections[k].fields, key).None?
        {
          assert SectionHolds(schema, doc, done, k, sections[k]);
          ShownFind(doc, done, schema.sections[k].fields, key);
        }
        NoFieldInAnySection(schema.sections, key);
      }
    }
  }
}
