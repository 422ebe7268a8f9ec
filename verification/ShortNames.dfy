/**
  Short machine names (`short_names` in call_machines.rs). Positions are byte
  offsets into UTF-8, as in the code: a slice needs its offset to be a character
  boundary, and every one here is proved to be.
 */
module ShortNames {
  import opened Sequences
  import opened Text

  predicate IsSeparator(c: char) { c == '-' || c == '_' || c == '.' }

  lemma SeparatorsAre(c: char)
    ensures IsSeparator(c) <==> c in "-_."
  {
    assert "-_."[0] == '-' && "-_."[1] == '_' && "-_."[2] == '.';
  }

  // ----------------------------------------------------------- byte offsets

  /** The byte offset of character `i`. */
  function Offset(s: string, i: nat): nat
    requires i <= |s|
  {
    ByteLen(s[..i])
  }

  ghost predicate IsBoundary(s: string, at: nat) {
    exists i :: 0 <= i <= |s| && Offset(s, i) == at
  }

  lemma {:induction false} ByteLenAppend(a: string, b: string)
    ensures ByteLen(a + b) == ByteLen(a) + ByteLen(b)
  {
    if a == [] {
      assert a + b == b;
    } else {
      assert (a + b)[1..] == a[1..] + b;
      ByteLenAppend(a[1..], b);
    }
  }

  lemma OffsetsIncrease(s: string, i: nat, j: nat)
    requires i < j <= |s|
    ensures Offset(s, i) + (j - i) <= Offset(s, j)
  {
    assert s[..j] == s[..i] + s[i..j];
    ByteLenAppend(s[..i], s[i..j]);
  }

  /** The character that starts at a boundary. */
  function CharAt(s: string, at: nat): (i: nat)
    requires IsBoundary(s, at)
    ensures i <= |s| && Offset(s, i) == at
  {
    CharFrom(s, at, 0)
  }

  function CharFrom(s: string, at: nat, from: nat): (i: nat)
    requires IsBoundary(s, at) && from <= |s|
    requires forall k :: 0 <= k < from ==> Offset(s, k) != at
    ensures i <= |s| && Offset(s, i) == at
    decreases |s| - from
  {
    if Offset(s, from) == at then from
    else
      assert from < |s| by {
        var i :| 0 <= i <= |s| && Offset(s, i) == at;
        assert i > from;
      }
      CharFrom(s, at, from + 1)
  }

  /** `&s[..at]` and `&s[at..]`. */
  function SliceTo(s: string, at: nat): string
    requires IsBoundary(s, at)
  {
    s[..CharAt(s, at)]
  }

  function SliceFrom(s: string, at: nat): string
    requires IsBoundary(s, at)
  {
    s[CharAt(s, at)..]
  }

  lemma SliceAt(s: string, i: nat)
    requires i <= |s|
    ensures IsBoundary(s, Offset(s, i))
    ensures CharAt(s, Offset(s, i)) == i
  {
    var j := CharAt(s, Offset(s, i));
    if j < i { OffsetsIncrease(s, j, i); }
    if i < j { OffsetsIncrease(s, i, j); }
  }

  // ------------------------------------------------------------- the shortening

  /** How many leading characters two names share. */
  function SharedChars(a: string, b: string): (n: nat)
    ensures n <= |a| && n <= |b| && a[..n] == b[..n]
    ensures n < |a| && n < |b| ==> a[n] != b[n]
  {
    if a == [] || b == [] || a[0] != b[0] then 0
    else
      var n := SharedChars(a[1..], b[1..]);
      assert a[..n + 1] == [a[0]] + a[1..][..n] && b[..n + 1] == [b[0]] + b[1..][..n];
      n + 1
  }

  /** Where two names part, as a byte of `name`: the first character that differs, or the shorter's end. */
  function CommonBytes(name: string, other: string): nat {
    var n := SharedChars(name, other);
    if n < |name| && n < |other| then Offset(name, n)
    else if ByteLen(name) <= ByteLen(other) then ByteLen(name) else ByteLen(other)
  }

  /** It is a boundary of `name` either way. */
  lemma CommonIsBoundary(name: string, other: string)
    ensures CommonBytes(name, other) == Offset(name, SharedChars(name, other))
    ensures IsBoundary(name, CommonBytes(name, other))
  {
    var n := SharedChars(name, other);
    if n >= |name| || n >= |other| {
      assert name[..n] + name[n..] == name && other[..n] + other[n..] == other;
      ByteLenAppend(name[..n], name[n..]);
      ByteLenAppend(other[..n], other[n..]);
      assert ByteLen(name[..n]) == ByteLen(other[..n]);
    }
  }

  /** `rfind` of a separator, as the byte after it; 0 without one. */
  function AfterLastSeparator(s: string): nat
  {
    if s == [] then 0
    else if IsSeparator(s[|s| - 1]) then ByteLen(s[..|s| - 1]) + 1
    else AfterLastSeparator(s[..|s| - 1])
  }

  /** The same position in characters. */
  function CharsToSeparator(s: string): (n: nat)
    ensures n <= |s|
    ensures n > 0 ==> IsSeparator(s[n - 1])
    ensures forall i :: n <= i < |s| ==> !IsSeparator(s[i])
  {
    if s == [] || IsSeparator(s[|s| - 1]) then |s| else CharsToSeparator(s[..|s| - 1])
  }

  lemma {:induction false} AfterSeparatorIsBoundary(s: string)
    ensures AfterLastSeparator(s) == Offset(s, CharsToSeparator(s))
  {
    if s != [] {
      var init := s[..|s| - 1];
      if IsSeparator(s[|s| - 1]) {
        assert s == init + [s[|s| - 1]] && s[..|s|] == s;
        ByteLenAppend(init, [s[|s| - 1]]);
      } else {
        AfterSeparatorIsBoundary(init);
        assert init[..CharsToSeparator(init)] == s[..CharsToSeparator(init)];
      }
    }
  }

  /** The bytes `name` shares with `other`, up to a separator. */
  function SharedBytes(name: string, other: string): nat {
    CommonIsBoundary(name, other);
    AfterLastSeparator(SliceTo(name, CommonBytes(name, other)))
  }

  /** The same in characters. */
  function SharedPrefix(name: string, other: string): (n: nat)
    ensures n <= |name|
  {
    CharsToSeparator(name[..SharedChars(name, other)])
  }

  lemma SharedIsBoundary(name: string, other: string)
    ensures SharedBytes(name, other) == Offset(name, SharedPrefix(name, other))
  {
    CommonIsBoundary(name, other);
    var n := SharedChars(name, other);
    SliceAt(name, n);
    var s := name[..n];
    AfterSeparatorIsBoundary(s);
    assert s[..CharsToSeparator(s)] == name[..CharsToSeparator(s)];
  }

  /** The most `name` shares with any other name. */
  function MostShared(names: seq<string>, name: string): nat {
    if names == [] then 0
    else
      var rest := MostShared(names[1..], name);
      if names[0] == name then rest
      else if SharedBytes(name, names[0]) >= rest then SharedBytes(name, names[0]) else rest
  }

  /** The same in characters. */
  function LongestShared(names: seq<string>, name: string): (n: nat)
    ensures n <= |name|
    ensures forall i :: 0 <= i < |names| && names[i] != name ==> SharedPrefix(name, names[i]) <= n
    ensures n == 0 || exists i :: 0 <= i < |names| && names[i] != name && SharedPrefix(name, names[i]) == n
  {
    if names == [] then 0
    else
      var rest := LongestShared(names[1..], name);
      assert forall i :: 0 <= i < |names[1..]| ==> names[1..][i] == names[i + 1];
      if names[0] == name then rest
      else if SharedPrefix(name, names[0]) >= rest then SharedPrefix(name, names[0]) else rest
  }

  lemma {:induction false} MostSharedIsBoundary(names: seq<string>, name: string)
    ensures MostShared(names, name) == Offset(name, LongestShared(names, name))
    ensures IsBoundary(name, MostShared(names, name))
  {
    if names == [] {
      assert Offset(name, 0) == 0;
    } else {
      MostSharedIsBoundary(names[1..], name);
      SharedIsBoundary(name, names[0]);
      var a, b := SharedPrefix(name, names[0]), LongestShared(names[1..], name);
      if a < b { OffsetsIncrease(name, a, b); }
      if b < a { OffsetsIncrease(name, b, a); }
    }
  }

  /** `name` without the most it shares with another name. */
  function Cut(names: seq<string>, name: string): string {
    MostSharedIsBoundary(names, name);
    SliceFrom(name, MostShared(names, name))
  }

  lemma CutIs(names: seq<string>, name: string)
    ensures Cut(names, name) == name[LongestShared(names, name)..]
  {
    MostSharedIsBoundary(names, name);
    SliceAt(name, LongestShared(names, name));
  }

  function CountCuts(names: seq<string>, among: seq<string>, short: string): nat {
    if among == [] then 0 else (if Cut(names, among[0]) == short then 1 else 0) + CountCuts(names, among[1..], short)
  }

  /** A cut is taken when it leaves something and is no other name's. */
  predicate TakesCut(names: seq<string>, name: string) {
    CountCuts(names, names, Cut(names, name)) == 1 && Cut(names, name) != []
  }

  function Short(names: seq<string>, name: string): string {
    if TakesCut(names, name) then Cut(names, name) else name
  }

  // --------------------------------------------------------------- properties

  /** The prefix cut is the longest that ends at a separator and that another name starts with. */
  lemma CutsTheLongestSharedPrefix(names: seq<string>, name: string, other: string, n: nat)
    requires other in names && other != name && 0 < n <= |name|
    requires name[..n] <= other && name[n - 1] in "-_."
    ensures n <= LongestShared(names, name)
  {
    SeparatorsAre(name[n - 1]);
    var i :| 0 <= i < |names| && names[i] == other;
    var shared := SharedChars(name, other);
    assert forall c :: 0 <= c < n ==> name[..n][c] == name[c] == other[c];
    assert n <= shared;
    assert name[..shared][n - 1] == name[n - 1];
    assert SharedPrefix(name, names[i]) >= n;
  }

  /** A cut starts at the name's start or just after a separator. */
  lemma CutStart(names: seq<string>, name: string) returns (k: nat)
    ensures k <= |name| && Cut(names, name) == name[k..] && (k == 0 || IsSeparator(name[k - 1]))
  {
    CutIs(names, name);
    k := LongestShared(names, name);
    if k > 0 {
      var i :| 0 <= i < |names| && names[i] != name && SharedPrefix(name, names[i]) == k;
      assert IsSeparator(name[..SharedChars(name, names[i])][k - 1]);
    }
  }

  /** A short name is the name from its start or from just after a separator, and not empty. */
  lemma ShortIsSuffix(names: seq<string>, name: string)
    ensures exists k :: 0 <= k <= |name| && Short(names, name) == name[k..] && (k == 0 || name[k - 1] in "-_.")
    ensures name != [] ==> Short(names, name) != []
  {
    hide Cut, CountCuts;
    var k := CutStart(names, name);
    assert name == name[0..];
    SeparatorsAre(if k > 0 then name[k - 1] else '.');
  }

  lemma {:induction false} CountedTwice(names: seq<string>, among: seq<string>, i: nat, j: nat, short: string)
    requires i < j < |among| && Cut(names, among[i]) == Cut(names, among[j]) == short
    ensures CountCuts(names, among, short) >= 2
  {
    if i > 0 {
      CountedTwice(names, among[1..], i - 1, j - 1, short);
    } else {
      CountedOnce(names, among[1..], j - 1, short);
    }
  }

  lemma {:induction false} CountedOnce(names: seq<string>, among: seq<string>, i: nat, short: string)
    requires i < |among| && Cut(names, among[i]) == short
    ensures CountCuts(names, among, short) >= 1
  {
    if i > 0 {
      CountedOnce(names, among[1..], i - 1, short);
    }
  }

  /** Two names that both take their cut never share it. */
  lemma TakenCutsDiffer(names: seq<string>, a: string, b: string)
    requires a in names && b in names && a != b && TakesCut(names, a)
    ensures Cut(names, a) != Cut(names, b)
  {
    var i :| 0 <= i < |names| && names[i] == a;
    var j :| 0 <= j < |names| && names[j] == b;
    if Cut(names, a) == Cut(names, b) {
      CountedTwice(names, names, if i < j then i else j, if i < j then j else i, Cut(names, a));
    }
  }

  lemma WholeOrCut(names: seq<string>, a: string, b: string)
    requires a in names && b in names && a != b
    ensures Short(names, a) == Short(names, b) <==>
            || (!TakesCut(names, a) && TakesCut(names, b) && Cut(names, b) == a)
            || (!TakesCut(names, b) && TakesCut(names, a) && Cut(names, a) == b)
  {
    if TakesCut(names, a) { TakenCutsDiffer(names, a, b); }
  }

  /** `short` is the end of `name` that is left after the most it shares with another name. */
  predicate LeftOf(names: seq<string>, name: string, short: string) {
    |short| <= |name| && LongestShared(names, name) == |name| - |short| && name[|name| - |short|..] == short
  }

  lemma CutIsLeft(names: seq<string>, name: string, short: string)
    ensures Cut(names, name) == short <==> LeftOf(names, name, short)
  {
    CutIs(names, name);
    hide Cut;
  }

  lemma {:induction false} CountedNever(names: seq<string>, among: seq<string>, short: string)
    requires forall i :: 0 <= i < |among| ==> Cut(names, among[i]) != short
    ensures CountCuts(names, among, short) == 0
  {
    hide Cut;
    if among != [] {
      assert forall i :: 0 <= i < |among[1..]| ==> among[1..][i] == among[i + 1];
      CountedNever(names, among[1..], short);
    }
  }

  lemma {:induction false} CountedJustOnce(names: seq<string>, among: seq<string>, i: nat, short: string)
    requires i < |among| && Cut(names, among[i]) == short
    requires forall j :: 0 <= j < |among| && j != i ==> Cut(names, among[j]) != short
    ensures CountCuts(names, among, short) == 1
  {
    hide Cut;
    assert forall j :: 0 <= j < |among[1..]| ==> among[1..][j] == among[j + 1];
    if i == 0 { CountedNever(names, among[1..], short); } else { CountedJustOnce(names, among[1..], i - 1, short); }
  }

  /** `short` is left of `name` and of no other name. */
  predicate LeftOfOnly(names: seq<string>, name: string, short: string) {
    LeftOf(names, name, short) && forall i :: 0 <= i < |names| && names[i] != name ==> !LeftOf(names, names[i], short)
  }

  lemma TakesWhatIsLeft(names: seq<string>, name: string, short: string)
    requires Distinct(names) && name in names && Cut(names, name) == short
    ensures TakesCut(names, name) <==> short != [] && LeftOfOnly(names, name, short)
  {
    hide Cut, LeftOf;
    var n :| 0 <= n < |names| && names[n] == name;
    forall i | 0 <= i < |names|
      ensures Cut(names, names[i]) == short <==> LeftOf(names, names[i], short)
    {
      CutIsLeft(names, names[i], short);
    }
    if j :| 0 <= j < |names| && names[j] != name && Cut(names, names[j]) == short {
      if n < j { CountedTwice(names, names, n, j, short); } else { CountedTwice(names, names, j, n, short); }
    } else {
      CountedJustOnce(names, names, n, short);
    }
  }

  /** `name` shares all of itself, or what is left of it is left of another name too. */
  predicate StaysWhole(names: seq<string>, name: string) {
    var short := name[LongestShared(names, name)..];
    short == [] || !LeftOfOnly(names, name, short)
  }

  lemma StaysWholeIff(names: seq<string>, name: string)
    requires Distinct(names) && name in names
    ensures StaysWhole(names, name) <==> !TakesCut(names, name)
  {
    CutIs(names, name);
    hide Cut, LeftOf, LeftOfOnly;
    TakesWhatIsLeft(names, name, Cut(names, name));
  }

  /**
    Two names get the same short exactly when one of them stays whole, and is what
    is left of the other and of no other name.
   */
  lemma ShortsCollideIff(names: seq<string>, a: string, b: string)
    requires Distinct(names) && a in names && b in names && a != b
    ensures Short(names, a) == Short(names, b) <==>
            || (StaysWhole(names, a) && a != [] && LeftOfOnly(names, b, a))
            || (StaysWhole(names, b) && b != [] && LeftOfOnly(names, a, b))
  {
    WholeOrCut(names, a, b);
    StaysWholeIff(names, a);
    StaysWholeIff(names, b);
    CutIsLeft(names, a, b);
    CutIsLeft(names, b, a);
    hide Cut, LeftOf, StaysWhole, CountCuts, TakesCut, Short;
    if Cut(names, a) == b { TakesWhatIsLeft(names, a, b); }
    if Cut(names, b) == a { TakesWhatIsLeft(names, b, a); }
  }

  /** `name` ends in a separator and `other`. */
  predicate EndsIn(name: string, other: string) {
    |other| < |name| && name[|name| - |other|..] == other && IsSeparator(name[|name| - |other| - 1])
  }

  /** So all shorts differ when no name is another's ending after a separator. */
  lemma ShortsDiffer(names: seq<string>, a: string, b: string)
    requires a in names && b in names && a != b
    requires !EndsIn(a, b) && !EndsIn(b, a)
    ensures Short(names, a) != Short(names, b)
  {
    WholeOrCut(names, a, b);
    TakenCutIsEnding(names, a);
    TakenCutIsEnding(names, b);
  }

  lemma TakenCutIsEnding(names: seq<string>, name: string)
    ensures TakesCut(names, name) ==> Cut(names, name) == name || EndsIn(name, Cut(names, name))
  {
    hide Cut, CountCuts;
    var k := CutStart(names, name);
    assert name == name[0..];
  }

  /** Without that, a cut can be another name: `z-a-` is cut to `a-`, which stays whole. */
  lemma ShortsCanCollide()
    ensures var names := ["a-", "a-b", "z-a-", "z-q"];
            Distinct(names) && Short(names, "z-a-") == Short(names, "a-") == "a-"
  {
    hide Cut, SharedChars, SharedPrefix, LongestShared;
    var names := ["a-", "a-b", "z-a-", "z-q"];
    assert names[0][0] == 'a' && |names[0]| == 2 && names[1][0] == 'a' && |names[1]| == 3;
    assert names[2][0] == 'z' && |names[2]| == 4 && names[3][0] == 'z' && |names[3]| == 3;
    CollidingCuts(names);
    CountOfFour(names, "a-", "", "b", "a-", "q");
  }

  lemma CollidingCuts(names: seq<string>)
    requires names == ["a-", "a-b", "z-a-", "z-q"]
    ensures Cut(names, "a-") == "" && Cut(names, "a-b") == "b" && Cut(names, "z-a-") == "a-" && Cut(names, "z-q") == "q"
  {
    hide Cut, LongestShared;
    var a, ab, za, zq := "a-", "a-b", "z-a-", "z-q";
    assert a in names && ab in names && za in names && zq in names;
    assert a[0] == ab[0] == 'a' && za[0] == zq[0] == 'z' && za[2] == 'a' && zq[2] == 'q';
    CutFrom(names, a, ab, 2);
    CutFrom(names, ab, a, 2);
    CutFrom(names, za, zq, 2);
    CutFrom(names, zq, za, 2);
  }

  lemma CountOfFour(names: seq<string>, short: string, c0: string, c1: string, c2: string, c3: string)
    requires |names| == 4
    requires Cut(names, names[0]) == c0 && Cut(names, names[1]) == c1 && Cut(names, names[2]) == c2
              && Cut(names, names[3]) == c3
    ensures CountCuts(names, names, short) ==
            (if c0 == short then 1 else 0) + (if c1 == short then 1 else 0) +
            (if c2 == short then 1 else 0) + (if c3 == short then 1 else 0)
  {
    hide Cut;
    var t1, t2, t3 := names[1..], names[2..], names[3..];
    assert t1[1..] == t2 && t2[1..] == t3 && t3[1..] == [];
    assert t1[0] == names[1] && t2[0] == names[2] && t3[0] == names[3];
    assert CountCuts(names, t3, short) == if c3 == short then 1 else 0;
    assert CountCuts(names, t2, short) == (if c2 == short then 1 else 0) + CountCuts(names, t3, short);
    assert CountCuts(names, t1, short) == (if c1 == short then 1 else 0) + CountCuts(names, t2, short);
  }

  /** A name is cut at `n` when it shares that much with another name, and no more with any. */
  lemma CutFrom(names: seq<string>, name: string, other: string, n: nat)
    requires other in names && other != name && 0 < n <= |name|
    requires name[..n] <= other && IsSeparator(name[n - 1])
    requires forall i :: 0 <= i < |names| && names[i] != name ==> SharedChars(name, names[i]) <= n
    ensures Cut(names, name) == name[n..]
  {
    hide Cut, SharedChars, LongestShared, SharedPrefix, IsSeparator;
    CutIs(names, name);
    SeparatorsAre(name[n - 1]);
    CutsTheLongestSharedPrefix(names, name, other, n);
    LongestAtMost(names, name, n);
  }

  lemma {:induction false} LongestAtMost(names: seq<string>, name: string, n: nat)
    requires forall i :: 0 <= i < |names| && names[i] != name ==> SharedChars(name, names[i]) <= n
    ensures LongestShared(names, name) <= n
  {
    if names != [] {
      var rest := names[1..];
      forall i | 0 <= i < |rest| && rest[i] != name
        ensures SharedChars(name, rest[i]) <= n
      {
        assert rest[i] == names[i + 1];
      }
      LongestAtMost(rest, name, n);
    }
  }
}
