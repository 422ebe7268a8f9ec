/**
  The keys the Configuration form knows, and where each key of a document goes:
  to a managed table, a field, a box, or further down (`sort_value` and
  `leads_somewhere` in config_form.rs, read as a classification of paths).
 */
module ConfigSchema {
  import opened Results
  import opened ConfigValues
  import opened ConfigFields

  datatype Section = Section(tables: seq<string>, fields: seq<ConfigField>)

  /** `SECTIONS` and `MANAGED`. */
  datatype Schema = Schema(sections: seq<Section>, managed: seq<Key>)

  function AllFields(sections: seq<Section>): seq<ConfigField> {
    if sections == [] then [] else sections[0].fields + AllFields(sections[1..])
  }

  /** The keys of the fields, then those of the managed tables. */
  function KnownKeys(s: Schema): (ks: seq<Key>)
    ensures |ks| == |AllFields(s.sections)| + |s.managed|
    ensures forall i :: 0 <= i < |AllFields(s.sections)| ==> ks[i] == AllFields(s.sections)[i].key
    ensures forall i :: 0 <= i < |s.managed| ==> ks[|AllFields(s.sections)| + i] == s.managed[i]
  {
    var fields := AllFields(s.sections);
    seq(|fields|, i requires 0 <= i < |fields| => fields[i].key) + s.managed
  }

  /** What the code's tables satisfy: no known key is empty or leads to another. */
  ghost predicate ValidSchema(s: Schema) {
    var ks := KnownKeys(s);
    && (forall i :: 0 <= i < |ks| ==> ks[i] != [])
    && forall i, j :: 0 <= i < |ks| && 0 <= j < |ks| && i != j ==> !(ks[i] <= ks[j])
  }

  predicate IsManaged(s: Schema, key: Key) { key in s.managed }

  /** The field at `key`. */
  function FieldAt(fields: seq<ConfigField>, key: Key): (r: Option<ConfigField>)
    ensures r.Some? ==> r.value in fields && r.value.key == key
    ensures r.None? ==> forall i :: 0 <= i < |fields| ==> fields[i].key != key
  {
    if fields == [] then None
    else if fields[0].key == key then Some(fields[0])
    else FieldAt(fields[1..], key)
  }

  /** Some known key lies below `key`. */
  ghost predicate LeadsSomewhere(s: Schema, key: Key) {
    exists i :: 0 <= i < |KnownKeys(s)| && key < KnownKeys(s)[i]
  }

  datatype Class = ManagedTable | Field | Box | Descend

  ghost function Classify(s: Schema, key: Key, value: Value): Class {
    if IsManaged(s, key) then ManagedTable
    else if var f := FieldAt(AllFields(s.sections), key); f.Some? && Accepts(f.value.kind, value) then Field
    else if value.Obj? && LeadsSomewhere(s, key) then Descend
    else Box
  }

  // ------------------------------------------------------------ the document

  /** The sorter goes through the table at `key`. */
  ghost predicate Passed(s: Schema, doc: Value, key: Key) {
    At(doc, key).Some? && Classify(s, key, At(doc, key).value) == Descend
  }

  /** The sorter looks at `key`. */
  ghost predicate Visited(s: Schema, doc: Value, key: Key) {
    && key != []
    && At(doc, key).Some?
    && forall n :: 0 < n < |key| ==> Passed(s, doc, key[..n])
  }

  /** The sorter stops at `key` and shows what is there. */
  ghost predicate Claimed(s: Schema, doc: Value, key: Key) {
    Visited(s, doc, key) && Classify(s, key, At(doc, key).value) != Descend
  }

  /** The sorter shows what is at `key` in a box. */
  ghost predicate Boxed(s: Schema, doc: Value, key: Key) {
    Visited(s, doc, key) && Classify(s, key, At(doc, key).value) == Box
  }

  /** Every key the sorter stops at. */
  ghost function AllClaimed(s: Schema, doc: Value): iset<Key> {
    iset k: Key | Claimed(s, doc, k)
  }

  lemma VisitedPrefix(s: Schema, doc: Value, p: Key, k: Key)
    requires Visited(s, doc, k) && [] < p <= k
    ensures Visited(s, doc, p)
  {
    AtPrefix(doc, p, k);
    forall n | 0 < n < |p|
      ensures Passed(s, doc, p[..n])
    {
      assert p[..n] == k[..n];
    }
  }

  /**
    Conservation: each value that is not a table is shown in exactly one place,
    by exactly one of the keys on its path.
   */
  lemma ShownExactlyOnce(s: Schema, doc: Value, path: Key)
    requires path != [] && At(doc, path).Some? && !At(doc, path).value.Obj?
    ensures exists n :: 0 < n <= |path| && Claimed(s, doc, path[..n])
    ensures forall m, n :: 0 < m < n <= |path| ==> !(Claimed(s, doc, path[..m]) && Claimed(s, doc, path[..n]))
  {
    var n := FirstClaim(s, doc, path, 1);
    forall m, n | 0 < m < n <= |path| && Claimed(s, doc, path[..n])
      ensures !Claimed(s, doc, path[..m])
    {
      assert path[..n][..m] == path[..m];
      assert Passed(s, doc, path[..n][..m]);
    }
  }

  lemma VisitedFrom(s: Schema, doc: Value, path: Key, from: nat)
    requires 0 < from <= |path| && At(doc, path).Some?
    requires forall m :: 0 < m < from ==> Passed(s, doc, path[..m])
    ensures Visited(s, doc, path[..from]) && At(At(doc, path[..from]).value, path[from..]) == At(doc, path)
  {
    AtPrefix(doc, path[..from], path);
    hide Passed, At;
    forall m | 0 < m < from
      ensures Passed(s, doc, path[..from][..m])
    {
      assert path[..from][..m] == path[..m];
    }
  }

  lemma ClaimedOrPassed(s: Schema, doc: Value, path: Key, from: nat)
    requires 0 < from <= |path| && At(doc, path).Some? && !At(doc, path).value.Obj?
    requires forall m :: 0 < m < from ==> Passed(s, doc, path[..m])
    ensures Claimed(s, doc, path[..from]) || (Passed(s, doc, path[..from]) && from < |path|)
  {
    VisitedFrom(s, doc, path, from);
    hide LeadsSomewhere, IsManaged, FieldAt, Visited, At;
    assert from == |path| ==> path[..from] == path;
  }

  lemma {:induction false} FirstClaim(s: Schema, doc: Value, path: Key, from: nat) returns (n: nat)
    requires 0 < from <= |path| && At(doc, path).Some? && !At(doc, path).value.Obj?
    requires forall m :: 0 < m < from ==> Passed(s, doc, path[..m])
    ensures 0 < n <= |path| && Claimed(s, doc, path[..n])
    decreases |path| - from
  {
    hide Claimed, Passed, At;
    ClaimedOrPassed(s, doc, path, from);
    if Claimed(s, doc, path[..from]) {
      n := from;
    } else {
      n := FirstClaim(s, doc, path, from + 1);
    }
  }

  // -------------------------------------------------------------- known keys

  /** A key under which a known key lies is itself no known key. */
  lemma AboveKnownKey(s: Schema, i: nat, n: nat)
    requires ValidSchema(s) && i < |KnownKeys(s)| && n < |KnownKeys(s)[i]|
    ensures var p := KnownKeys(s)[i][..n];
            LeadsSomewhere(s, p) && !IsManaged(s, p) && FieldAt(AllFields(s.sections), p).None?
  {
    var ks := KnownKeys(s);
    var p := ks[i][..n];
    assert p < ks[i];
    assert forall j :: 0 <= j < |ks| && j != i ==> !(ks[j] <= ks[i]) && p <= ks[i];
    NotKnown(s, p);
  }

  lemma NotKnown(s: Schema, p: Key)
    requires forall j :: 0 <= j < |KnownKeys(s)| ==> KnownKeys(s)[j] != p
    ensures !IsManaged(s, p) && FieldAt(AllFields(s.sections), p).None?
  {
    var fields, ks := AllFields(s.sections), KnownKeys(s);
    assert forall j :: 0 <= j < |s.managed| ==> ks[|fields| + j] == s.managed[j];
    assert forall j :: 0 <= j < |fields| ==> ks[j] == fields[j].key;
  }

  /** A known key with a value is visited, and the sorter stops there. */
  lemma KnownKeyClaimed(s: Schema, doc: Value, i: nat)
    requires ValidSchema(s) && i < |KnownKeys(s)| && At(doc, KnownKeys(s)[i]).Some?
    ensures Claimed(s, doc, KnownKeys(s)[i])
  {
    KnownKeyVisited(s, doc, i);
    NothingBelow(s, i);
    hide KnownKeys, ValidSchema, LeadsSomewhere, Visited, At, IsManaged, FieldAt;
  }

  lemma KnownKeyVisited(s: Schema, doc: Value, i: nat)
    requires ValidSchema(s) && i < |KnownKeys(s)| && At(doc, KnownKeys(s)[i]).Some?
    ensures Visited(s, doc, KnownKeys(s)[i])
  {
    var k := KnownKeys(s)[i];
    assert k != [];
    hide KnownKeys, ValidSchema, Passed, At;
    forall n | 0 < n < |k|
      ensures Passed(s, doc, k[..n])
    {
      PassedAboveKnownKey(s, doc, i, n);
    }
  }

  lemma PassedAboveKnownKey(s: Schema, doc: Value, i: nat, n: nat)
    requires ValidSchema(s) && i < |KnownKeys(s)| && n < |KnownKeys(s)[i]|
    requires At(doc, KnownKeys(s)[i]).Some?
    ensures Passed(s, doc, KnownKeys(s)[i][..n])
  {
    hide KnownKeys, ValidSchema, LeadsSomewhere, IsManaged, FieldAt, At;
    AboveKnownKey(s, i, n);
    AtPrefix(doc, KnownKeys(s)[i][..n], KnownKeys(s)[i]);
  }

  lemma NothingBelow(s: Schema, i: nat)
    requires ValidSchema(s) && i < |KnownKeys(s)|
    ensures !LeadsSomewhere(s, KnownKeys(s)[i])
  {
    var ks := KnownKeys(s);
    forall j | 0 <= j < |ks|
      ensures !(ks[i] < ks[j])
    {
      assert j != i ==> !(ks[i] <= ks[j]);
    }
  }

  /** The field at a field's key is that field. */
  lemma FieldAtIs(s: Schema, i: nat)
    requires ValidSchema(s) && i < |AllFields(s.sections)|
    ensures FieldAt(AllFields(s.sections), AllFields(s.sections)[i].key) == Some(AllFields(s.sections)[i])
    ensures !IsManaged(s, AllFields(s.sections)[i].key)
  {
    var fields, ks := AllFields(s.sections), KnownKeys(s);
    var f := FieldAt(fields, fields[i].key);
    assert f.Some?;
    var j :| 0 <= j < |fields| && fields[j] == f.value;
    assert ks[j] == ks[i];
    assert forall m :: 0 <= m < |s.managed| ==> ks[|fields| + m] == s.managed[m] && ks[|fields| + m] != ks[i];
  }
}
