/**
  Two documents that differ only in what the form must not show build the same
  form, up to the order of the boxes.
 */
module ConfigSecrecy {
  import opened Results
  import opened ConfigValues
  import opened ConfigFields
  import opened ConfigSchema
  import opened ConfigForms

  // ------------------------------------------------- forms up to box order

  ghost predicate SameForm(a: Form, b: Form) {
    && |a.sections| == |b.sections|
    && (forall i :: 0 <= i < |a.sections| ==>
          && a.sections[i].section == b.sections[i].section
          && a.sections[i].fields == b.sections[i].fields
          && multiset(a.sections[i].other) == multiset(b.sections[i].other))
    && a.managed == b.managed
    && multiset(a.other) == multiset(b.other)
  }

  /** The field shows the same of both documents. */
  ghost predicate AgreeOnField(a: Value, b: Value, f: ConfigField) {
    var x, y := At(a, f.key), At(b, f.key);
    && (x.Some? <==> y.Some?)
    && (x.Some? ==> (Accepts(f.kind, x.value) <==> Accepts(f.kind, y.value)))
    && (x.Some? && Accepts(f.kind, x.value) ==> ShownValue(f.kind, x.value) == ShownValue(f.kind, y.value))
  }

  /** The same keys are in boxes, with the same masked values. */
  ghost predicate AgreeOnBoxes(s: Schema, a: Value, b: Value) {
    forall e, owner :: IsBox(s, a, EVERY_KEY, owner, e) <==> IsBox(s, b, EVERY_KEY, owner, e)
  }

  lemma {:induction false} AgreeingFields(a: Value, b: Value, fields: seq<ConfigField>)
    requires forall i :: 0 <= i < |fields| ==> AgreeOnField(a, b, fields[i])
    ensures Shown(a, EVERY_KEY, fields) == Shown(b, EVERY_KEY, fields)
  {
    if fields != [] {
      assert AgreeOnField(a, b, fields[0]);
      AgreeingFields(a, b, fields[1..]);
    }
  }

  lemma {:induction false} CountsAtMostOne(entries: seq<OtherEntry>, e: OtherEntry)
    requires DistinctKeys(entries)
    ensures multiset(entries)[e] == if e in entries then 1 else 0
  {
    if entries != [] {
      assert entries == [entries[0]] + entries[1..];
      CountsAtMostOne(entries[1..], e);
    }
  }

  lemma SameEntries(a: seq<OtherEntry>, b: seq<OtherEntry>)
    requires DistinctKeys(a) && DistinctKeys(b) && forall e :: e in a <==> e in b
    ensures multiset(a) == multiset(b)
  {
    forall e
      ensures multiset(a)[e] == multiset(b)[e]
    {
      CountsAtMostOne(a, e);
      CountsAtMostOne(b, e);
    }
  }

  lemma AgreeingBoxes(s: Schema, a: Value, b: Value, owner: Option<nat>, x: seq<OtherEntry>, y: seq<OtherEntry>)
    requires AgreeOnBoxes(s, a, b)
    requires Boxes(s, a, EVERY_KEY, owner, x) && Boxes(s, b, EVERY_KEY, owner, y)
    ensures multiset(x) == multiset(y)
  {
    forall e
      ensures e in x <==> e in y
    {
      assert e in x <==> IsBox(s, a, EVERY_KEY, owner, e);
      assert e in y <==> IsBox(s, b, EVERY_KEY, owner, e);
    }
    SameEntries(x, y);
  }

  lemma AgreeingDocuments(s: Schema, a: Value, b: Value, x: Form, y: Form)
    requires Shows(s, a, x) && Shows(s, b, y)
    requires forall i :: 0 <= i < |AllFields(s.sections)| ==> AgreeOnField(a, b, AllFields(s.sections)[i])
    requires forall j :: 0 <= j < |s.managed| ==> Entries(At(a, s.managed[j])) == Entries(At(b, s.managed[j]))
    requires AgreeOnBoxes(s, a, b)
    ensures SameForm(x, y)
  {
    forall i | 0 <= i < |s.sections|
      ensures x.sections[i].section == y.sections[i].section
      ensures x.sections[i].fields == y.sections[i].fields
      ensures multiset(x.sections[i].other) == multiset(y.sections[i].other)
    {
      assert SectionHolds(s, a, EVERY_KEY, i, x.sections[i]);
      assert SectionHolds(s, b, EVERY_KEY, i, y.sections[i]);
      forall j | 0 <= j < |s.sections[i].fields|
        ensures AgreeOnField(a, b, s.sections[i].fields[j])
      {
        FieldOfSection(s.sections, i, j);
      }
      AgreeingFields(a, b, s.sections[i].fields);
      AgreeingBoxes(s, a, b, Some(i), x.sections[i].other, y.sections[i].other);
    }
    forall j | 0 <= j < |s.managed|
      ensures x.managed[j] == y.managed[j]
    {
      assert ManagedHolds(a, EVERY_KEY, s.managed[j], x.managed[j]);
      assert ManagedHolds(b, EVERY_KEY, s.managed[j], y.managed[j]);
    }
    AgreeingBoxes(s, a, b, None, x.other, y.other);
  }

  /** Whatever order the tables are visited in, only the boxes' order depends on it. */
  lemma OrderOnlyMovesBoxes(s: Schema, doc: Value, x: Form, y: Form)
    requires Shows(s, doc, x) && Shows(s, doc, y)
    ensures SameForm(x, y)
  {
    AgreeingDocuments(s, doc, doc, x, y);
  }

  // -------------------------------------------------------- non-interference

  /**
    The values of the key `key` in two documents differ only in what the form
    hides: the string of a `Secret` field, what is inside a managed table of as
    many entries, and the credentials in what no field accepts.
   */
  ghost predicate SecretsAside(s: Schema, key: Key, a: Value, b: Value)
    decreases a
  {
    var f := FieldAt(AllFields(s.sections), key);
    if IsManaged(s, key) then Entries(Some(a)) == Entries(Some(b))
    else if f.Some? && f.value.kind.SecretKind? && a.Str? && b.Str? then true
    else if f.Some? && (Accepts(f.value.kind, a) || Accepts(f.value.kind, b)) then a == b
    else if LeadsSomewhere(s, key) && (a.Obj? || b.Obj?) then
      a.Obj? && b.Obj? && SecretsAsideIn(s, key, a, b)
    else key != [] && DifferInCredentials(key[|key| - 1], a, b)
  }

  /** The same for every entry of the tables at `key`, and for two documents when `key` is empty. */
  ghost predicate SecretsAsideIn(s: Schema, key: Key, a: Value, b: Value)
    requires a.Obj? && b.Obj?
    decreases a, 0
  {
    && a.table.Keys == b.table.Keys
    && forall n :: n in a.table ==> SecretsAside(s, key + [n], a.table[n], b.table[n])
  }

  lemma {:induction false} SecretsAsideSymmetric(s: Schema, key: Key, a: Value, b: Value)
    requires SecretsAside(s, key, a, b)
    ensures SecretsAside(s, key, b, a)
    decreases a
  {
    var f := FieldAt(AllFields(s.sections), key);
    if IsManaged(s, key) {
    } else if f.Some? && f.value.kind.SecretKind? && a.Str? && b.Str? {
    } else if f.Some? && (Accepts(f.value.kind, a) || Accepts(f.value.kind, b)) {
    } else if LeadsSomewhere(s, key) && (a.Obj? || b.Obj?) {
      forall n | n in a.table
        ensures SecretsAside(s, key + [n], b.table[n], a.table[n])
      {
        SecretsAsideSymmetric(s, key + [n], a.table[n], b.table[n]);
      }
    } else {
      MaskingHidesCredentials(key[|key| - 1], a, b);
      MaskingHidesCredentials(key[|key| - 1], b, a);
    }
  }

  lemma SecretsAsideClass(s: Schema, key: Key, a: Value, b: Value)
    requires SecretsAside(s, key, a, b)
    ensures Classify(s, key, a) == Classify(s, key, b)
    ensures Classify(s, key, a) == Box ==> key != [] && DifferInCredentials(key[|key| - 1], a, b)
    ensures Classify(s, key, a) == Descend ==> a.Obj? && b.Obj? && SecretsAsideIn(s, key, a, b)
  {}

  /** The sorter visits `key` in both documents, and finds the same but for secrets. */
  ghost predicate VisitedAlike(s: Schema, a: Value, b: Value, key: Key) {
    Visited(s, a, key) && Visited(s, b, key) && SecretsAside(s, key, At(a, key).value, At(b, key).value)
  }

  lemma LastStep(key: Key)
    requires key != []
    ensures var p, name := key[..|key| - 1], key[|key| - 1];
            key == p + [name] && (|key| == 1 ==> key == [name]) && (|key| > 1 ==> p != [])
  {
  }

  /** The sorter visits the same keys of both documents. */
  lemma {:induction false} VisitsAgree(s: Schema, a: Value, b: Value, key: Key)
    requires a.Obj? && b.Obj? && SecretsAsideIn(s, [], a, b) && Visited(s, a, key)
    ensures VisitedAlike(s, a, b, key)
    decreases |key|
  {
    var p, name := key[..|key| - 1], key[|key| - 1];
    LastStep(key);
    hide SecretsAsideIn, Visited, VisitedAlike, At;
    if |key| == 1 {
      FirstVisitAgrees(s, a, b, name);
    } else {
      VisitedPrefix(s, a, p, key);
      VisitsAgree(s, a, b, p);
      NextVisitAgrees(s, a, b, p, name);
    }
  }

  lemma FirstVisitAgrees(s: Schema, a: Value, b: Value, name: string)
    requires a.Obj? && b.Obj? && SecretsAsideIn(s, [], a, b) && Visited(s, a, [name])
    ensures VisitedAlike(s, a, b, [name])
  {
    assert [] + [name] == [name];
    EntryAgrees(s, a, b, [], name);
  }

  lemma NextVisitAgrees(s: Schema, a: Value, b: Value, p: Key, name: string)
    requires p != [] && VisitedAlike(s, a, b, p) && Visited(s, a, p + [name])
    ensures VisitedAlike(s, a, b, p + [name])
  {
    assert (p + [name])[..|p|] == p;
    assert Passed(s, a, p);
    SecretsAsideClass(s, p, At(a, p).value, At(b, p).value);
    EntryAgrees(s, a, b, p, name);
    VisitedBelow(s, b, p, name);
  }

  lemma EntryAgrees(s: Schema, a: Value, b: Value, p: Key, name: string)
    requires At(a, p).Some? && At(a, p).value.Obj? && At(b, p).Some? && At(b, p).value.Obj?
    requires SecretsAsideIn(s, p, At(a, p).value, At(b, p).value) && At(a, p + [name]).Some?
    ensures At(b, p + [name]).Some? && SecretsAside(s, p + [name], At(a, p + [name]).value, At(b, p + [name]).value)
  {
    AtChild(a, p, name);
    AtChild(b, p, name);
  }

  lemma VisitedBelow(s: Schema, doc: Value, p: Key, name: string)
    requires Visited(s, doc, p) && Passed(s, doc, p) && At(doc, p + [name]).Some?
    ensures Visited(s, doc, p + [name])
  {
    forall n | 0 < n <= |p|
      ensures Passed(s, doc, (p + [name])[..n])
    {
      assert (p + [name])[..n] == p[..n];
      assert p[..|p|] == p;
    }
  }

  lemma SymmetricIn(s: Schema, a: Value, b: Value)
    requires a.Obj? && b.Obj? && SecretsAsideIn(s, [], a, b)
    ensures SecretsAsideIn(s, [], b, a)
  {
    forall n | n in a.table
      ensures SecretsAside(s, [] + [n], b.table[n], a.table[n])
    {
      SecretsAsideSymmetric(s, [] + [n], a.table[n], b.table[n]);
    }
  }

  lemma BoxAgrees(s: Schema, a: Value, b: Value, owner: Option<nat>, e: OtherEntry)
    requires a.Obj? && b.Obj? && SecretsAsideIn(s, [], a, b)
    requires IsBox(s, a, EVERY_KEY, owner, e)
    ensures IsBox(s, b, EVERY_KEY, owner, e)
  {
    VisitsAgree(s, a, b, e.key);
    var x, y := At(a, e.key).value, At(b, e.key).value;
    SecretsAsideClass(s, e.key, x, y);
    MaskingHidesCredentials(e.key[|e.key| - 1], x, y);
  }

  lemma KnownKeyAgrees(s: Schema, a: Value, b: Value, i: nat)
    requires ValidSchema(s) && a.Obj? && b.Obj? && SecretsAsideIn(s, [], a, b) && i < |KnownKeys(s)|
    ensures At(a, KnownKeys(s)[i]).Some? <==> At(b, KnownKeys(s)[i]).Some?
    ensures At(a, KnownKeys(s)[i]).Some? ==>
              SecretsAside(s, KnownKeys(s)[i], At(a, KnownKeys(s)[i]).value, At(b, KnownKeys(s)[i]).value)
  {
    SymmetricIn(s, a, b);
    if At(a, KnownKeys(s)[i]).Some? {
      KnownKeyClaimed(s, a, i);
      VisitsAgree(s, a, b, KnownKeys(s)[i]);
    }
    if At(b, KnownKeys(s)[i]).Some? {
      KnownKeyClaimed(s, b, i);
      VisitsAgree(s, b, a, KnownKeys(s)[i]);
    }
  }

  lemma FieldAgrees(s: Schema, a: Value, b: Value, i: nat)
    requires ValidSchema(s) && a.Obj? && b.Obj? && SecretsAsideIn(s, [], a, b) && i < |AllFields(s.sections)|
    ensures AgreeOnField(a, b, AllFields(s.sections)[i])
  {
    KnownKeyAgrees(s, a, b, i);
    FieldAtIs(s, i);
  }

  lemma ManagedAgrees(s: Schema, a: Value, b: Value, j: nat)
    requires ValidSchema(s) && a.Obj? && b.Obj? && SecretsAsideIn(s, [], a, b) && j < |s.managed|
    ensures Entries(At(a, s.managed[j])) == Entries(At(b, s.managed[j]))
  {
    var n := |AllFields(s.sections)| + j;
    assert KnownKeys(s)[n] == s.managed[j];
    KnownKeyAgrees(s, a, b, n);
  }

  /** No credential, and nothing inside a managed table, reaches the form. */
  lemma CredentialsDoNotInterfere(s: Schema, a: Value, b: Value, x: Form, y: Form)
    requires ValidSchema(s) && a.Obj? && b.Obj? && SecretsAsideIn(s, [], a, b)
    requires Shows(s, a, x) && Shows(s, b, y)
    ensures SameForm(x, y)
  {
    SymmetricIn(s, a, b);
    forall e, owner
      ensures IsBox(s, a, EVERY_KEY, owner, e) <==> IsBox(s, b, EVERY_KEY, owner, e)
    {
      if IsBox(s, a, EVERY_KEY, owner, e) { BoxAgrees(s, a, b, owner, e); }
      if IsBox(s, b, EVERY_KEY, owner, e) { BoxAgrees(s, b, a, owner, e); }
    }
    forall i | 0 <= i < |AllFields(s.sections)|
      ensures AgreeOnField(a, b, AllFields(s.sections)[i])
    {
      FieldAgrees(s, a, b, i);
    }
    forall j | 0 <= j < |s.managed|
      ensures Entries(At(a, s.managed[j])) == Entries(At(b, s.managed[j]))
    {
      ManagedAgrees(s, a, b, j);
    }
    AgreeingDocuments(s, a, b, x, y);
  }

  // ------------------------------------------------------ what a form reveals

  /** Both documents have `k` in a box or neither has, and what it holds differs only in credentials. */
  ghost predicate BoxAlike(s: Schema, a: Value, b: Value, k: Key) {
    && (Boxed(s, a, k) <==> Boxed(s, b, k))
    && (Boxed(s, a, k) ==> DifferInCredentials(k[|k| - 1], At(a, k).value, At(b, k).value))
  }

  ghost predicate BoxesAlike(s: Schema, a: Value, b: Value) {
    forall k: Key :: BoxAlike(s, a, b, k)
  }

  ghost predicate FieldsAlike(s: Schema, a: Value, b: Value) {
    forall i :: 0 <= i < |AllFields(s.sections)| ==> AgreeOnField(a, b, AllFields(s.sections)[i])
  }

  ghost predicate ManagedAlike(s: Schema, a: Value, b: Value) {
    forall j :: 0 <= j < |s.managed| ==> Entries(At(a, s.managed[j])) == Entries(At(b, s.managed[j]))
  }

  lemma AlikeBoxesAgree(s: Schema, a: Value, b: Value, e: OtherEntry, owner: Option<nat>)
    requires BoxAlike(s, a, b, e.key)
    ensures IsBox(s, a, EVERY_KEY, owner, e) <==> IsBox(s, b, EVERY_KEY, owner, e)
  {
    var k := e.key;
    if Boxed(s, a, k) {
      MaskingHidesCredentials(k[|k| - 1], At(a, k).value, At(b, k).value);
    }
  }

  /** The box of `k`, as the form of `doc` shows it. */
  ghost function BoxAt(doc: Value, k: Key): OtherEntry
    requires k != [] && At(doc, k).Some?
  {
    OtherEntry(k, Masked(k[|k| - 1], At(doc, k).value))
  }

  lemma BoxIsRevealed(s: Schema, a: Value, b: Value, k: Key)
    requires AgreeOnBoxes(s, a, b)
    ensures BoxAlike(s, a, b, k)
  {
    var owner := Owner(s.sections, k);
    if Boxed(s, a, k) {
      assert IsBox(s, a, EVERY_KEY, owner, BoxAt(a, k));
      assert IsBox(s, b, EVERY_KEY, owner, BoxAt(a, k));
      MaskingHidesCredentials(k[|k| - 1], At(a, k).value, At(b, k).value);
    }
    if Boxed(s, b, k) {
      assert IsBox(s, b, EVERY_KEY, owner, BoxAt(b, k));
      assert IsBox(s, a, EVERY_KEY, owner, BoxAt(b, k));
    }
  }

  lemma BoxesAlikeIff(s: Schema, a: Value, b: Value)
    ensures BoxesAlike(s, a, b) <==> AgreeOnBoxes(s, a, b)
  {
    hide BoxAlike, IsBox;
    if BoxesAlike(s, a, b) {
      forall e, owner: Option<nat>
        ensures IsBox(s, a, EVERY_KEY, owner, e) <==> IsBox(s, b, EVERY_KEY, owner, e)
      {
        AlikeBoxesAgree(s, a, b, e, owner);
      }
    }
    if AgreeOnBoxes(s, a, b) {
      forall k: Key
        ensures BoxAlike(s, a, b, k)
      {
        BoxIsRevealed(s, a, b, k);
      }
    }
  }

  lemma {:induction false} RevealedFields(a: Value, b: Value, fields: seq<ConfigField>)
    requires forall i, j :: 0 <= i < j < |fields| ==> fields[i].key != fields[j].key
    requires Shown(a, EVERY_KEY, fields) == Shown(b, EVERY_KEY, fields)
    ensures forall i :: 0 <= i < |fields| ==> AgreeOnField(a, b, fields[i])
  {
    if fields != [] {
      var rest := fields[1..];
      NotShown(a, rest, fields[0]);
      NotShown(b, rest, fields[0]);
      FirstShown(a, fields);
      FirstShown(b, fields);
      hide Shown, At, Accepts, ShownValue, AgreeOnField;
      FirstRevealed(a, b, fields);
      RevealedFields(a, b, rest);
      assert forall i :: 0 < i < |fields| ==> fields[i] == rest[i - 1];
    }
  }

  /** The field of `f` in the form of `doc`, if it is there. */
  ghost function OneShown(doc: Value, f: ConfigField): seq<FormField> {
    var v := At(doc, f.key);
    if v.None? then [FormField(f, None)]
    else if Accepts(f.kind, v.value) then [FormField(f, Some(ShownValue(f.kind, v.value)))]
    else []
  }

  lemma FirstShown(doc: Value, fields: seq<ConfigField>)
    requires fields != []
    ensures Shown(doc, EVERY_KEY, fields) == OneShown(doc, fields[0]) + Shown(doc, EVERY_KEY, fields[1..])
  {
    hide At, Accepts, ShownValue;
    var rest := Shown(doc, EVERY_KEY, fields[1..]);
    assert [] + rest == rest;
  }

  lemma FirstRevealed(a: Value, b: Value, fields: seq<ConfigField>)
    requires fields != []
    requires var f, u, v := fields[0], Shown(a, EVERY_KEY, fields[1..]), Shown(b, EVERY_KEY, fields[1..]);
             && OneShown(a, f) + u == OneShown(b, f) + v
             && (forall j :: 0 <= j < |u| ==> u[j].field != f) && (forall j :: 0 <= j < |v| ==> v[j].field != f)
    ensures AgreeOnField(a, b, fields[0])
    ensures Shown(a, EVERY_KEY, fields[1..]) == Shown(b, EVERY_KEY, fields[1..])
  {
    hide Shown, At, Accepts, ShownValue;
    var f, u, v := fields[0], Shown(a, EVERY_KEY, fields[1..]), Shown(b, EVERY_KEY, fields[1..]);
    var all := OneShown(a, f) + u;
    assert |OneShown(a, f)| == 1 ==> all[0].field == f && all[1..] == u;
    assert |OneShown(b, f)| == 1 ==> all[0].field == f && all[1..] == v;
    assert |OneShown(a, f)| == 0 ==> all == u;
    assert |OneShown(b, f)| == 0 ==> all == v;
    assert all != [] ==> all[0] in all;
  }

  lemma NotShown(doc: Value, fields: seq<ConfigField>, f: ConfigField)
    requires forall i :: 0 <= i < |fields| ==> fields[i].key != f.key
    ensures forall j :: 0 <= j < |Shown(doc, EVERY_KEY, fields)| ==> Shown(doc, EVERY_KEY, fields)[j].field != f
  {
    ShownMembers(doc, EVERY_KEY, fields);
  }

  lemma InTheSameOther(a: seq<OtherEntry>, b: seq<OtherEntry>, e: OtherEntry)
    requires multiset(a) == multiset(b)
    ensures e in a <==> e in b
  {
    assert e in multiset(a) <==> e in multiset(b);
  }

  lemma BoxIsShown(s: Schema, doc: Value, form: Form, owner: Option<nat>, e: OtherEntry)
    requires Shows(s, doc, form) && (owner.Some? ==> owner.value < |s.sections|)
    ensures IsBox(s, doc, EVERY_KEY, owner, e) <==>
              e in if owner.Some? then form.sections[owner.value].other else form.other
  {
    if owner.Some? {
      assert SectionHolds(s, doc, EVERY_KEY, owner.value, form.sections[owner.value]);
    }
    hide IsBox;
  }

  lemma RevealedBoxes(s: Schema, a: Value, b: Value, x: Form, y: Form)
    requires Shows(s, a, x) && Shows(s, b, y) && SameForm(x, y)
    ensures AgreeOnBoxes(s, a, b)
  {
    forall e, owner: Option<nat>
      ensures IsBox(s, a, EVERY_KEY, owner, e) <==> IsBox(s, b, EVERY_KEY, owner, e)
    {
      if owner.None? {
        BoxIsShown(s, a, x, owner, e);
        BoxIsShown(s, b, y, owner, e);
        InTheSameOther(x.other, y.other, e);
      } else if owner.value < |s.sections| {
        BoxIsShown(s, a, x, owner, e);
        BoxIsShown(s, b, y, owner, e);
        InTheSameOther(x.sections[owner.value].other, y.sections[owner.value].other, e);
      }
    }
  }

  lemma RevealedSections(s: Schema, a: Value, b: Value, x: Form, y: Form)
    requires ValidSchema(s) && Shows(s, a, x) && Shows(s, b, y) && SameForm(x, y)
    ensures FieldsAlike(s, a, b) && ManagedAlike(s, a, b)
  {
    forall n | 0 <= n < |AllFields(s.sections)|
      ensures AgreeOnField(a, b, AllFields(s.sections)[n])
    {
      var i, j := FieldHasSection(s.sections, n);
      assert SectionHolds(s, a, EVERY_KEY, i, x.sections[i]);
      assert SectionHolds(s, b, EVERY_KEY, i, y.sections[i]);
      SectionFieldsDistinct(s, i);
      RevealedFields(a, b, s.sections[i].fields);
    }
    forall j | 0 <= j < |s.managed|
      ensures Entries(At(a, s.managed[j])) == Entries(At(b, s.managed[j]))
    {
      assert ManagedHolds(a, EVERY_KEY, s.managed[j], x.managed[j]);
      assert ManagedHolds(b, EVERY_KEY, s.managed[j], y.managed[j]);
    }
  }

  /**
    What a form reveals of its document, exactly: which keys are boxed and what they
    hold but for credentials, what each field holds if it can show it (only whether
    there is one, for a credential), and how many entries each managed table has.
    Tables that hold nothing of this leave no trace.
   */
  lemma FormRevealsExactly(s: Schema, a: Value, b: Value, x: Form, y: Form)
    requires ValidSchema(s) && Shows(s, a, x) && Shows(s, b, y)
    ensures SameForm(x, y) <==> FieldsAlike(s, a, b) && ManagedAlike(s, a, b) && BoxesAlike(s, a, b)
  {
    BoxesAlikeIff(s, a, b);
    hide BoxesAlike, AgreeOnBoxes, SameForm, Shows, ValidSchema;
    if SameForm(x, y) {
      RevealedBoxes(s, a, b, x, y);
      RevealedSections(s, a, b, x, y);
    }
    if FieldsAlike(s, a, b) && ManagedAlike(s, a, b) && BoxesAlike(s, a, b) {
      AgreeingDocuments(s, a, b, x, y);
    }
  }
}
