/**
  Which names are credentials, spelled out, and that no form shows what is under one
  (`is_secret_name` and `masked` in config_form.rs).
 */
module ConfigCredentials {
  import opened Results
  import opened Text
  import opened ConfigValues
  import opened ConfigFields
  import opened ConfigSchema
  import opened ConfigForms

  // -------------------------------------------------------------------- names

  /** `c` is `w` in either case, or a dash for an underscore. */
  predicate ReadsAs(c: char, w: char) {
    c == w || (w == '_' && c == '-') || ('a' <= w <= 'z' && c as int == w as int - 32)
  }

  predicate MentionsAt(name: string, word: string, at: nat) {
    at + |word| <= |name| && forall i :: 0 <= i < |word| ==> ReadsAs(name[at + i], word[i])
  }

  predicate Mentions(name: string, word: string) {
    exists at :: 0 <= at <= |name| && MentionsAt(name, word, at)
  }

  /** The name of a credential mentions one of nine words. */
  predicate NamesCredential(name: string) {
    || Mentions(name, "token") || Mentions(name, "secret") || Mentions(name, "password") || Mentions(name, "passwd")
    || Mentions(name, "api_key") || Mentions(name, "apikey") || Mentions(name, "authorization")
    || Mentions(name, "credential") || Mentions(name, "private_key")
  }

  predicate SmallWord(word: string) {
    forall i :: 0 <= i < |word| ==> 'a' <= word[i] <= 'z' || word[i] == '_'
  }

  lemma MentionedIsContained(name: string, word: string)
    requires SmallWord(word)
    ensures Mentions(name, word) <==> Contains(Normalized(name), word)
  {
    var normal := Normalized(name);
    Found(normal, word);
    forall at | 0 <= at <= |name|
      ensures MentionsAt(name, word, at) <==> word <= normal[at..]
    {
      MentionedHere(name, word, at);
    }
    hide MentionsAt, Normalized;
  }

  lemma MentionedHere(name: string, word: string, at: nat)
    requires SmallWord(word) && at <= |name|
    ensures |Normalized(name)| == |name|
    ensures MentionsAt(name, word, at) <==> word <= Normalized(name)[at..]
  {
    var rest := Normalized(name)[at..];
    if |word| <= |rest| {
      forall i | 0 <= i < |word|
        ensures ReadsAs(name[at + i], word[i]) <==> word[i] == rest[i]
      {
      }
    }
  }

  /** The credential names are those that mention one of the words. */
  lemma SecretNamesAre(name: string)
    ensures IsSecretName(name) <==> NamesCredential(name)
  {
    hide Mentions, Contains, Normalized;
    assert SmallWord("token") && SmallWord("secret") && SmallWord("password") && SmallWord("passwd")
           && SmallWord("api_key") && SmallWord("apikey") && SmallWord("authorization") && SmallWord("credential")
           && SmallWord("private_key");
    hide SmallWord;
    var words := SECRET_WORDS;
    assert words[0] == "token" && words[1] == "secret" && words[2] == "password" && words[3] == "passwd"
           && words[4] == "api_key" && words[5] == "apikey" && words[6] == "authorization"
           && words[7] == "credential" && words[8] == "private_key" && |words| == 9;
    forall i | 0 <= i < 9
      ensures Mentions(name, words[i]) <==> Contains(Normalized(name), words[i])
    {
      MentionedIsContained(name, words[i]);
    }
  }

  // ------------------------------------------------------------------ masking

  /** What a name's own value becomes: the mask under a credential's name, itself under any other. */
  lemma MaskedUnderName(name: string, v: Value)
    ensures NamesCredential(name) && !v.Obj? ==> Masked(name, v) == Str(MASK)
    ensures !NamesCredential(name) && !v.Obj? && !v.Arr? ==> Masked(name, v) == v
  {
    SecretNamesAre(name);
    hide IsSecretName, NamesCredential;
  }

  /** `leaf` is a value under the name `n`, neither a table nor an array, at any depth of `v` under `name`. */
  ghost predicate LeafUnder(name: string, v: Value, n: string, leaf: Value)
    decreases v
  {
    match v
    case Obj(table) => exists k :: k in table && LeafUnder(k, table[k], n, leaf)
    case Arr(items) => exists i :: 0 <= i < |items| && LeafUnder(name, items[i], n, leaf)
    case _ => name == n && leaf == v
  }

  /** A masked value has nothing but the mask under credentials' names, */
  lemma {:induction false} OnlyMaskUnderCredentials(name: string, v: Value, n: string, leaf: Value)
    requires LeafUnder(name, Masked(name, v), n, leaf) && NamesCredential(n)
    ensures leaf == Str(MASK)
    decreases v
  {
    SecretNamesAre(name);
    SecretNamesAre(n);
    hide IsSecretName, NamesCredential;
    var m := Masked(name, v);
    if IsSecretName(name) && !v.Obj? {
      assert m == Str(MASK);
    } else if v.Obj? {
      var k :| k in m.table && LeafUnder(k, m.table[k], n, leaf);
      OnlyMaskUnderCredentials(k, v.table[k], n, leaf);
    } else if v.Arr? {
      var i :| 0 <= i < |m.items| && LeafUnder(name, m.items[i], n, leaf);
      OnlyMaskUnderCredentials(name, v.items[i], n, leaf);
    }
  }

  /** and every table it had, with each entry masked under its own name. */
  lemma {:induction false} MaskedAlongPath(name: string, v: Value, path: Key)
    ensures At(Masked(name, v), path) ==
            if At(v, path).None? then None
            else Some(Masked(if path == [] then name else path[|path| - 1], At(v, path).value))
    decreases |path|
  {
    if path != [] && v.Obj? && path[0] in v.table {
      MaskedAlongPath(path[0], v.table[path[0]], path[1..]);
      assert |path| > 1 ==> path[1..][|path| - 2] == path[|path| - 1];
    }
  }

  // ----------------------------------------------------------------- the form

  /** `e` is one of the form's boxes. */
  ghost predicate BoxOf(form: Form, e: OtherEntry) {
    e in form.other || exists i :: 0 <= i < |form.sections| && e in form.sections[i].other
  }

  lemma BoxIsMasked(s: Schema, doc: Value, form: Form, e: OtherEntry)
    requires Shows(s, doc, form) && BoxOf(form, e)
    ensures e.key != [] && At(doc, e.key).Some?
    ensures e.value == Masked(e.key[|e.key| - 1], At(doc, e.key).value)
  {
    hide Boxed, Masked;
    if e in form.other {
      assert IsBox(s, doc, EVERY_KEY, None, e);
    } else {
      var i :| 0 <= i < |form.sections| && e in form.sections[i].other;
      assert SectionHolds(s, doc, EVERY_KEY, i, form.sections[i]);
      assert IsBox(s, doc, EVERY_KEY, Some(i), e);
    }
    BoxedHasName(s, doc, e.key);
  }

  lemma BoxedHasName(s: Schema, doc: Value, key: Key)
    ensures Boxed(s, doc, key) ==> key != [] && At(doc, key).Some?
  {
  }

  /** No box of a form shows anything but the mask under a credential's name, at any depth, */
  lemma NoBoxShowsCredentials(s: Schema, doc: Value, form: Form, e: OtherEntry, n: string, leaf: Value)
    requires Shows(s, doc, form) && BoxOf(form, e)
    ensures e.key != []
    ensures LeafUnder(e.key[|e.key| - 1], e.value, n, leaf) && NamesCredential(n) ==> leaf == Str(MASK)
  {
    BoxIsMasked(s, doc, form, e);
    hide Shows, BoxOf, NamesCredential, Masked, LeafUnder;
    if LeafUnder(e.key[|e.key| - 1], e.value, n, leaf) && NamesCredential(n) {
      OnlyMaskUnderCredentials(e.key[|e.key| - 1], At(doc, e.key).value, n, leaf);
    }
  }

  /** every box shows what the document holds under other names, */
  lemma BoxesShowTheRest(s: Schema, doc: Value, form: Form, e: OtherEntry, path: Key)
    requires Shows(s, doc, form) && BoxOf(form, e)
    requires At(doc, e.key + path).Some? && !At(doc, e.key + path).value.Obj? && !At(doc, e.key + path).value.Arr?
    ensures e.key != []
    ensures !NamesCredential((e.key + path)[|e.key + path| - 1]) ==> At(e.value, path) == At(doc, e.key + path)
  {
    BoxIsMasked(s, doc, form, e);
    var name := (e.key + path)[|e.key + path| - 1];
    AtAppend(doc, e.key, path);
    MaskedAlongPath(e.key[|e.key| - 1], At(doc, e.key).value, path);
    MaskedUnderName(name, At(doc, e.key + path).value);
    hide Shows, BoxOf, NamesCredential, Masked, At;
    assert path == [] ==> e.key + path == e.key;
  }

  /** and each field shows what the document holds, but for a credential, which shows as the mask. */
  lemma FieldsShowTheDocument(s: Schema, doc: Value, form: Form, i: nat, j: nat)
    requires Shows(s, doc, form) && i < |form.sections| && j < |form.sections[i].fields|
    ensures var f := form.sections[i].fields[j];
            var held := At(doc, f.field.key);
            f.value == if f.field.kind.SecretKind? && held.Some? then Some(Str(MASK)) else held
  {
    assert SectionHolds(s, doc, EVERY_KEY, i, form.sections[i]);
    ShownValues(doc, s.sections[i].fields, j);
  }

  lemma {:induction false} ShownValues(doc: Value, fields: seq<ConfigField>, j: nat)
    requires j < |Shown(doc, EVERY_KEY, fields)|
    ensures var f := Shown(doc, EVERY_KEY, fields)[j];
            var held := At(doc, f.field.key);
            f.value == if f.field.kind.SecretKind? && held.Some? then Some(Str(MASK)) else held
  {
    hide At, Accepts;
    var all, rest := Shown(doc, EVERY_KEY, fields), Shown(doc, EVERY_KEY, fields[1..]);
    if all == rest {
      ShownValues(doc, fields[1..], j);
    } else if j > 0 {
      assert all[j] == rest[j - 1];
      ShownValues(doc, fields[1..], j - 1);
    }
  }
}
