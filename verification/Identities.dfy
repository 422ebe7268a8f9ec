/** The identifier grammars of crates/identity: model keys, variants, agents. */
module Identities {
  import opened Text

  predicate IsLower(c: char) { 'a' <= c <= 'z' }

  predicate IsAlphanumeric(c: char) { IsLower(c) || 'A' <= c <= 'Z' || IsDigit(c) }

  predicate IsControl(c: char) { c as int < 0x20 || 0x7F <= c as int <= 0x9F }

  /** The characters of provider and variant ids. */
  predicate IsIdChar(c: char) { IsLower(c) || IsDigit(c) || c == '.' || c == '_' || c == '-' }

  predicate ValidProviderId(s: string) {
    1 <= ByteLen(s) <= 128 && IsAlphanumeric(s[0]) && forall i :: 0 <= i < |s| ==> IsIdChar(s[i])
  }

  predicate ValidProviderModelId(s: string) {
    && 1 <= ByteLen(s) <= 384
    && Lacks(s, '[') && Lacks(s, ']')
    && (var segments := Split(s, '/'); forall i :: 0 <= i < |segments| ==> segments[i] != [])
    && forall i :: 0 <= i < |s| ==> !IsControl(s[i]) && !IsSpace(s[i])
  }

  /** `ModelKey::from_str` accepts `s`; the key prints as `s` again. */
  predicate ValidModelKey(s: string) {
    var slash := IndexOf(s, '/');
    ByteLen(s) <= 512 && slash < |s| && ValidProviderId(s[..slash]) && ValidProviderModelId(s[slash + 1..])
  }

  predicate ValidVariantId(s: string) {
    && s != "base"
    && 1 <= ByteLen(s) <= 64
    && IsAlphanumeric(s[0])
    && forall i :: 0 <= i < |s| ==> IsIdChar(s[i])
  }

  predicate ValidAgentId(s: string) {
    && 1 <= ByteLen(s) <= 64
    && (forall i :: 0 <= i < |s| ==> IsLower(s[i]) || IsDigit(s[i]) || s[i] == '-')
    && IsAlphanumeric(s[0])
    && s[|s| - 1] != '-'
    && forall i :: 0 <= i < |s| - 1 ==> !(s[i] == '-' && s[i + 1] == '-')
  }

  /** What printing and reading back a key relies on. */
  lemma ModelKeyShape(s: string)
    requires ValidModelKey(s)
    ensures IsWord(s) && Trimmed(s) && Lacks(s, '[') && Lacks(s, ']') && s[0] != '$'
  {
    var slash := IndexOf(s, '/');
    var provider, model := s[..slash], s[slash + 1..];
    assert s == provider + [s[slash]] + model;
    assert s[0] == provider[0];
    forall i | 0 <= i < |s|
      ensures !IsSpace(s[i]) && s[i] != '[' && s[i] != ']'
    {
      if i < slash {
        assert s[i] == provider[i];
      } else if i > slash {
        assert s[i] == model[i - slash - 1];
      }
    }
  }

  // -------------------------------------------------- the grammars, once more

  lemma {:induction false} AsciiBytes(s: string)
    requires forall i :: 0 <= i < |s| ==> s[i] as int < 0x80
    ensures ByteLen(s) == |s|
  {
    if s != [] {
      AsciiBytes(s[1..]);
    }
  }

  /** A small letter or a digit. */
  predicate IsSmall(c: char) { 'a' <= c <= 'z' || '0' <= c <= '9' }

  predicate AllSmall(s: string) {
    s != "" && forall i :: 0 <= i < |s| ==> IsSmall(s[i])
  }

  /** No dash at either end, and no two in a row. */
  predicate DashesApart(s: string) {
    s != "" && s[0] != '-' && s[|s| - 1] != '-' && forall i :: 0 <= i < |s| - 1 ==> !(s[i] == '-' && s[i + 1] == '-')
  }

  predicate NoneEmpty(parts: seq<string>) {
    forall i :: 0 <= i < |parts| ==> parts[i] != ""
  }

  lemma {:induction false} DashedParts(s: string)
    ensures DashesApart(s) <==> NoneEmpty(Split(s, '-'))
    decreases |s|
  {
    var n := IndexOf(s, '-');
    var parts := Split(s, '-');
    if n == |s| {
      assert parts == [s] && parts[0] == s && forall i :: 0 <= i < |s| ==> s[i] != '-';
    } else {
      var rest := s[n + 1..];
      DashedParts(rest);
      var more := Split(rest, '-');
      assert parts == [s[..n]] + more;
      RestOfDashes(s, n);
      hide DashesApart, IndexOf, NoneEmpty;
      SomePrepended(s[..n], more);
      assert s[..n] == "" <==> n == 0;
    }
  }

  lemma SomePrepended(first: string, more: seq<string>)
    ensures NoneEmpty([first] + more) <==> first != "" && NoneEmpty(more)
  {
    var parts := [first] + more;
    assert parts[0] == first && (forall i :: 0 <= i < |more| ==> parts[i + 1] == more[i]);
    assert forall i :: 0 < i < |parts| ==> parts[i] == more[i - 1];
  }

  lemma RestOfDashes(s: string, n: nat)
    requires n < |s| && s[n] == '-' && Lacks(s[..n], '-')
    ensures DashesApart(s) <==> n > 0 && DashesApart(s[n + 1..])
  {
    var rest := s[n + 1..];
    assert forall i :: 0 <= i < n ==> s[i] == s[..n][i];
    assert forall i :: 0 <= i < |rest| ==> rest[i] == s[n + 1 + i];
    if n > 0 && DashesApart(rest) {
      forall i | 0 <= i < |s| - 1
        ensures !(s[i] == '-' && s[i + 1] == '-')
      {
        if i > n { assert s[i] == rest[i - n - 1] && s[i + 1] == rest[i - n]; }
      }
      assert s[|s| - 1] == rest[|rest| - 1];
    }
  }

  /** An agent's id: at most 64 characters, words of small letters and digits with single dashes between them. */
  lemma AgentIdIs(s: string)
    ensures ValidAgentId(s) <==>
            |s| <= 64 && exists words :: words != [] && s == Join(words, "-")
                                         && forall i :: 0 <= i < |words| ==> AllSmall(words[i])
  {
    if ValidAgentId(s) {
      AgentIdSplits(s);
      hide ValidAgentId, AllSmall, Join;
    }
    if |s| <= 64 {
      if words :| words != [] && s == Join(words, "-") && forall i :: 0 <= i < |words| ==> AllSmall(words[i]) {
        JoinedIsAgentId(words);
      }
    }
  }

  lemma AgentIdSplits(s: string)
    requires ValidAgentId(s)
    ensures |s| <= 64 && Split(s, '-') != [] && s == Join(Split(s, '-'), "-")
    ensures forall i :: 0 <= i < |Split(s, '-')| ==> AllSmall(Split(s, '-')[i])
  {
    SplitIs(s, '-', Split(s, '-'));
    AsciiBytes(s);
    DashedParts(s);
    SmallParts(s);
    hide Split, Join;
  }

  lemma JoinedIsAgentId(words: seq<string>)
    requires words != [] && |Join(words, "-")| <= 64 && forall i :: 0 <= i < |words| ==> AllSmall(words[i])
    ensures ValidAgentId(Join(words, "-"))
  {
    var s := Join(words, "-");
    SplitIs(s, '-', words);
    DashedParts(s);
    SmallJoined(words);
    hide Split, Join;
    AsciiBytes(s);
  }

  lemma {:induction false} SmallParts(s: string)
    requires forall i :: 0 <= i < |s| ==> IsSmall(s[i]) || s[i] == '-'
    ensures forall i, j :: 0 <= i < |Split(s, '-')| && 0 <= j < |Split(s, '-')[i]| ==> IsSmall(Split(s, '-')[i][j])
    decreases |s|
  {
    var n := IndexOf(s, '-');
    if n < |s| {
      var rest := s[n + 1..];
      SmallParts(rest);
      assert Split(s, '-') == [s[..n]] + Split(rest, '-');
    }
  }

  lemma {:induction false} SmallJoined(words: seq<string>)
    requires words != [] && forall i :: 0 <= i < |words| ==> AllSmall(words[i])
    ensures forall i :: 0 <= i < |Join(words, "-")| ==> IsSmall(Join(words, "-")[i]) || Join(words, "-")[i] == '-'
  {
    if |words| > 1 { SmallJoined(words[1..]); }
  }

  /** A variant's id: at most 64 small letters, digits, dots, underscores and dashes, and not "base". */
  lemma VariantIdIs(s: string)
    ensures ValidVariantId(s) <==>
            && s != "base" && 1 <= |s| <= 64 && IsSmall(s[0])
            && forall i :: 0 <= i < |s| ==> IsSmall(s[i]) || s[i] in "._-"
  {
    IdChars();
    hide IsIdChar;
    if forall i :: 0 <= i < |s| ==> IsSmall(s[i]) || s[i] in "._-" { AsciiBytes(s); }
  }

  lemma IdChars()
    ensures forall c :: IsIdChar(c) <==> IsSmall(c) || c in "._-"
    ensures forall c :: c in "._-" ==> !IsSmall(c) && !IsAlphanumeric(c) && c as int < 0x80
  {
    assert "._-"[0] == '.' && "._-"[1] == '_' && "._-"[2] == '-';
  }

  /** A provider's id: at most 128 such characters. */
  predicate SpellsProvider(s: string) {
    1 <= |s| <= 128 && IsSmall(s[0]) && forall i :: 0 <= i < |s| ==> IsSmall(s[i]) || s[i] in "._-"
  }

  lemma ProviderIdIs(s: string)
    ensures ValidProviderId(s) <==> SpellsProvider(s)
  {
    IdChars();
    hide IsIdChar;
    if forall i :: 0 <= i < |s| ==> IsSmall(s[i]) || s[i] in "._-" { AsciiBytes(s); }
  }

  /** Not empty, and without brackets, slashes, blanks and control characters. */
  predicate SpellsSegment(s: string) {
    && s != "" && Lacks(s, '[') && Lacks(s, ']') && Lacks(s, '/')
    && forall i :: 0 <= i < |s| ==> !IsSpace(s[i]) && !IsControl(s[i])
  }

  /** What a provider calls a model: such segments with slashes between them, in at most 384 bytes. */
  lemma ProviderModelIdIs(s: string)
    ensures ValidProviderModelId(s) <==>
            ByteLen(s) <= 384 && exists segments :: segments != [] && s == Join(segments, "/")
                                                   && forall i :: 0 <= i < |segments| ==> SpellsSegment(segments[i])
  {
    hide ValidProviderModelId, SpellsSegment;
    if ValidProviderModelId(s) {
      ModelIdSplits(s);
      hide Split, Join;
    }
    if ByteLen(s) <= 384 {
      if segments :| segments != [] && s == Join(segments, "/")
                     && forall i :: 0 <= i < |segments| ==> SpellsSegment(segments[i]) {
        JoinedIsModelId(segments);
      }
    }
  }

  lemma ModelIdSplits(s: string)
    requires ValidProviderModelId(s)
    ensures ByteLen(s) <= 384 && Split(s, '/') != [] && s == Join(Split(s, '/'), "/")
    ensures forall i :: 0 <= i < |Split(s, '/')| ==> SpellsSegment(Split(s, '/')[i])
  {
    var parts := Split(s, '/');
    SplitIs(s, '/', parts);
    PartsOf(s, '/');
    hide Split, Join, IsSpace, IsControl, ByteLen;
    forall i | 0 <= i < |parts|
      ensures SpellsSegment(parts[i])
    {
      forall j | 0 <= j < |parts[i]|
        ensures parts[i][j] != '[' && parts[i][j] != ']' && !IsSpace(parts[i][j]) && !IsControl(parts[i][j])
      {
        assert parts[i][j] in s;
      }
    }
  }

  lemma JoinedIsModelId(segments: seq<string>)
    requires segments != [] && ByteLen(Join(segments, "/")) <= 384
    requires forall i :: 0 <= i < |segments| ==> SpellsSegment(segments[i])
    ensures ValidProviderModelId(Join(segments, "/"))
  {
    var s := Join(segments, "/");
    SegmentsJoined(segments);
    assert forall i :: 0 <= i < |segments| ==> Lacks(segments[i], '/') && segments[i] != [];
    hide IsSpace, IsControl, SpellsSegment, Lacks, Join;
    SplitIs(s, '/', segments);
    hide Split;
    BytesOfSome(s);
    hide ByteLen;
  }

  lemma BytesOfSome(s: string)
    ensures s != "" ==> ByteLen(s) >= 1
  {
  }

  /** The characters of the parts are those of the text. */
  lemma {:induction false} PartsOf(s: string, c: char)
    ensures forall i, j :: 0 <= i < |Split(s, c)| && 0 <= j < |Split(s, c)[i]| ==> Split(s, c)[i][j] in s
    decreases |s|
  {
    var n := IndexOf(s, c);
    if n < |s| {
      var rest := s[n + 1..];
      PartsOf(rest, c);
      assert Split(s, c) == [s[..n]] + Split(rest, c);
    }
  }

  lemma {:induction false} SegmentsJoined(segments: seq<string>)
    requires segments != [] && forall i :: 0 <= i < |segments| ==> SpellsSegment(segments[i])
    ensures var s := Join(segments, "/");
            && s != "" && Lacks(s, '[') && Lacks(s, ']')
            && forall i :: 0 <= i < |s| ==> !IsSpace(s[i]) && !IsControl(s[i])
  {
    if |segments| > 1 {
      SegmentsJoined(segments[1..]);
      assert !IsSpace('/') && !IsControl('/');
      hide IsSpace, IsControl;
    }
  }

  /** A provider's id, a slash, and what the provider calls the model, in at most 512 bytes. */
  lemma ModelKeyIs(s: string)
    ensures ValidModelKey(s) <==>
            ByteLen(s) <= 512 && exists provider, model ::
              s == provider + "/" + model && SpellsProvider(provider) && ValidProviderModelId(model)
  {
    var slash := IndexOf(s, '/');
    if slash < |s| {
      ProviderIdIs(s[..slash]);
      assert s == s[..slash] + "/" + s[slash + 1..];
    }
    forall provider, model | s == provider + "/" + model && SpellsProvider(provider)
      ensures slash == |provider| && s[..slash] == provider && s[slash + 1..] == model
    {
      IndexOfAppend(provider, '/', model);
    }
    hide ValidProviderModelId, SpellsProvider, ValidProviderId, IndexOf;
  }
}
