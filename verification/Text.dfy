/**
  Strings as sequences of Unicode scalar values: trimming, decimal numbers,
  splitting and joining, as Rust's `str` and `fmt` do them.
 */
module Text {
  import opened Results

  // ---------------------------------------------------------------- trimming

  /** Unicode's White_Space property, which `str::trim` strips. */
  predicate IsSpace(c: char) {
    var n := c as int;
    9 <= n <= 13 || n == 0x20 || n == 0x85 || n == 0xA0 || n == 0x1680 || 0x2000 <= n <= 0x200A
    || n == 0x2028 || n == 0x2029 || n == 0x202F || n == 0x205F || n == 0x3000
  }

  /** Nothing to trim at either end. */
  predicate Trimmed(s: string) {
    s != [] ==> !IsSpace(s[0]) && !IsSpace(s[|s| - 1])
  }

  function TrimStart(s: string): (r: string)
    ensures |r| <= |s|
    ensures r != [] ==> !IsSpace(r[0]) && r[|r| - 1] == s[|s| - 1]
  {
    if s != [] && IsSpace(s[0]) then TrimStart(s[1..]) else s
  }

  function TrimEnd(s: string): (r: string)
    ensures r <= s
    ensures r != [] ==> !IsSpace(r[|r| - 1])
  {
    if s != [] && IsSpace(s[|s| - 1]) then TrimEnd(s[..|s| - 1]) else s
  }

  function Trim(s: string): (r: string)
    ensures Trimmed(r)
    ensures |r| <= |s|
  {
    TrimEnd(TrimStart(s))
  }

  lemma TrimOfTrimmed(s: string)
    requires Trimmed(s)
    ensures Trim(s) == s
  {}

  lemma TrimTwice(s: string)
    ensures Trim(Trim(s)) == Trim(s)
  {}

  predicate Blank(s: string) {
    forall i :: 0 <= i < |s| ==> IsSpace(s[i])
  }

  /** `s` is `t` with blanks around it. */
  ghost predicate Surrounds(s: string, t: string) {
    exists i, j :: 0 <= i <= j <= |s| && s[i..j] == t && Blank(s[..i]) && Blank(s[j..])
  }

  /** What is left by trimming is the one text without blanks at its ends that has only blanks around it. */
  lemma TrimIs(s: string, t: string)
    ensures Trim(s) == t <==> Trimmed(t) && Surrounds(s, t)
  {
    hide TrimStart, TrimEnd, Trim, Trimmed, Blank, Surrounds;
    TrimLeaves(s);
    if Trimmed(t) && Surrounds(s, t) {
      OnlyTrimLeaves(s, t);
    }
  }

  lemma TrimLeaves(s: string)
    ensures Surrounds(s, Trim(s))
  {
    var i := StartsBlank(s);
    var j := EndsBlank(s[i..]);
    hide TrimStart, TrimEnd, Blank;
    assert s[i..][..j] == s[i..i + j] && s[i..][j..] == s[i + j..];
  }

  lemma OnlyTrimLeaves(s: string, t: string)
    requires Trimmed(t) && Surrounds(s, t)
    ensures Trim(s) == t
  {
    var a, b :| 0 <= a <= b <= |s| && s[a..b] == t && Blank(s[..a]) && Blank(s[b..]);
    hide TrimStart, TrimEnd, IsSpace, Surrounds;
    if t == "" {
      assert s == s[..a] + s[b..];
      assert s[..|s|] == s && s[|s|..] == "";
      SkipsBlanks(s, |s|);
    } else {
      TrimsTo(s, a, b);
    }
  }

  lemma TrimsTo(s: string, a: nat, b: nat)
    requires a < b <= |s| && Blank(s[..a]) && Blank(s[b..]) && Trimmed(s[a..b])
    ensures Trim(s) == s[a..b]
  {
    var t := s[a..b];
    assert s[a] == t[0] && s[a..][b - a - 1] == t[|t| - 1];
    assert s[a..][..b - a] == t && s[a..][b - a..] == s[b..];
    SkipsBlanks(s, a);
    DropsBlanks(s[a..], b - a);
    hide TrimStart, TrimEnd, IsSpace, Blank, Trimmed;
  }

  lemma {:induction false} StartsBlank(s: string) returns (i: nat)
    ensures i <= |s| && TrimStart(s) == s[i..] && Blank(s[..i])
  {
    i := 0;
    if s != [] && IsSpace(s[0]) {
      i := StartsBlank(s[1..]);
      assert forall k :: 0 < k < i + 1 ==> s[k] == s[1..][..i][k - 1];
      i := i + 1;
    }
  }

  lemma {:induction false} EndsBlank(s: string) returns (j: nat)
    ensures j <= |s| && TrimEnd(s) == s[..j] && Blank(s[j..])
  {
    j := |s|;
    if s != [] && IsSpace(s[|s| - 1]) {
      j := EndsBlank(s[..|s| - 1]);
      assert forall k :: j <= k < |s| - 1 ==> s[k] == s[..|s| - 1][j..][k - j];
    }
  }

  lemma {:induction false} SkipsBlanks(s: string, i: nat)
    requires i <= |s| && Blank(s[..i]) && (i < |s| ==> !IsSpace(s[i]))
    ensures TrimStart(s) == s[i..]
  {
    if i > 0 {
      assert s[0] == s[..i][0];
      assert forall k :: 1 <= k < i ==> s[1..][..i - 1][k - 1] == s[..i][k];
      SkipsBlanks(s[1..], i - 1);
    }
  }

  lemma {:induction false} DropsBlanks(s: string, j: nat)
    requires 0 < j <= |s| && Blank(s[j..]) && !IsSpace(s[j - 1])
    ensures TrimEnd(s) == s[..j]
  {
    if j < |s| {
      var init := s[..|s| - 1];
      assert s[|s| - 1] == s[j..][|s| - 1 - j] && init[j..] == s[j..][..|init| - j];
      DropsBlanks(init, j);
    }
  }

  lemma BlankIs(s: string)
    ensures Trim(s) == "" <==> Blank(s)
  {
    TrimIs(s, "");
    hide Trim, IsSpace;
    if Blank(s) {
      assert s[0..0] == "" && s[..0] == "" && s[0..] == s;
    }
    if Surrounds(s, "") {
      var i, j :| 0 <= i <= j <= |s| && s[i..j] == "" && Blank(s[..i]) && Blank(s[j..]);
      assert s == s[..i] + s[j..];
    }
  }

  /** What is left by trimming the end has only blanks after it, and does not end in one. */
  lemma TrimEndIs(s: string, t: string)
    ensures TrimEnd(s) == t <==> t <= s && Blank(s[|t|..]) && (t != "" ==> !IsSpace(t[|t| - 1]))
  {
    var j := EndsBlank(s);
    if t <= s && Blank(s[|t|..]) && (t != "" ==> !IsSpace(t[|t| - 1])) {
      if t == "" {
        assert s[0..] == s;
        BlankEnds(s);
      } else {
        DropsBlanks(s, |t|);
      }
    }
  }

  lemma {:induction false} BlankEnds(s: string)
    requires Blank(s)
    ensures TrimEnd(s) == ""
  {
    if s != "" {
      BlankEnds(s[..|s| - 1]);
    }
  }

  /** Trimming a text whose end is trimmed already only drops leading space. */
  lemma TrimEndThenTrim(s: string)
    ensures TrimEnd(TrimEnd(s)) == TrimEnd(s)
    ensures Trim(TrimEnd(s)) == Trim(s)
  {
    TrimStartEnd(s);
  }

  lemma {:induction false} TrimStartEnd(s: string)
    ensures TrimStart(TrimEnd(s)) == TrimEnd(TrimStart(s))
    decreases |s|
  {
    if s == [] {
    } else if IsSpace(s[|s| - 1]) {
      var t := s[..|s| - 1];
      assert s == t + [s[|s| - 1]];
      TrimStartEnd(t);
      TrimStartSnoc(t, s[|s| - 1]);
      hide TrimStart;
    } else {
      assert TrimEnd(TrimStart(s)) == TrimStart(s);
    }
  }

  /** Trimming the end of `a + b` goes on into `a` only when `b` is blank. */
  lemma {:induction false} TrimEndAppend(a: string, b: string)
    ensures TrimEnd(a + b) == if TrimEnd(b) == "" then TrimEnd(a) else a + TrimEnd(b)
    decreases |b|
  {
    if b == "" {
      assert a + b == a;
    } else {
      assert (a + b)[..|a + b| - 1] == a + b[..|b| - 1];
      TrimEndAppend(a, b[..|b| - 1]);
    }
  }

  lemma {:induction false} TrimStartSnoc(t: string, c: char)
    requires IsSpace(c)
    ensures TrimEnd(TrimStart(t + [c])) == TrimEnd(TrimStart(t))
  {
    if t == [] {
      assert TrimStart([c]) == [];
    } else if IsSpace(t[0]) {
      assert (t + [c])[1..] == t[1..] + [c];
      TrimStartSnoc(t[1..], c);
    } else {
      assert (t + [c])[..|t|] == t;
    }
  }

  // ----------------------------------------------------------------- numbers

  predicate IsDigit(c: char) { '0' <= c <= '9' }

  predicate AllDigits(s: string) {
    forall i :: 0 <= i < |s| ==> IsDigit(s[i])
  }

  function DigitChar(d: nat): (c: char)
    requires d < 10
    ensures IsDigit(c)
  {
    (d + '0' as int) as char
  }

  function Decimal(n: nat): (s: string)
    ensures s != [] && AllDigits(s)
  {
    if n < 10 then [DigitChar(n)] else Decimal(n / 10) + [DigitChar(n % 10)]
  }

  function DigitsValue(s: string): nat
    requires AllDigits(s)
  {
    if s == [] then 0
    else 10 * DigitsValue(s[..|s| - 1]) + (s[|s| - 1] as int - '0' as int)
  }

  lemma {:induction false} DecimalValue(n: nat)
    ensures DigitsValue(Decimal(n)) == n
  {
    if n < 10 {
      assert Decimal(n)[..0] == [];
    } else {
      DecimalValue(n / 10);
      assert Decimal(n)[..|Decimal(n)| - 1] == Decimal(n / 10);
    }
  }

  lemma DecimalInjective(m: nat, n: nat)
    requires Decimal(m) == Decimal(n)
    ensures m == n
  {
    DecimalValue(m);
    DecimalValue(n);
  }

  /** `{:02}`: at least two digits. */
  function Padded(n: nat): (s: string)
    ensures s != [] && AllDigits(s)
  {
    if n < 10 then ['0', DigitChar(n)] else Decimal(n)
  }

  lemma PaddedValue(n: nat)
    ensures DigitsValue(Padded(n)) == n
    ensures |Padded(n)| >= 2 && (n < 100 ==> |Padded(n)| == 2) && (n >= 100 ==> Padded(n) == Decimal(n))
  {
    if n < 10 {
      assert Padded(n)[..1] == ['0'] && ['0'][..0] == [];
    } else {
      DecimalValue(n);
    }
  }

  const U32_MAX: int := 0xFFFF_FFFF
  const I64_MIN: int := -0x8000_0000_0000_0000
  const I64_MAX: int := 0x7FFF_FFFF_FFFF_FFFF
  const U64_MAX: int := 0xFFFF_FFFF_FFFF_FFFF

  /** `str::parse::<u32>`: an optional `+`, then digits, in range. */
  function ParseU32(s: string): (r: Option<nat>)
    ensures r.Some? ==> r.value <= U32_MAX
  {
    var digits := if s != [] && s[0] == '+' then s[1..] else s;
    if digits == [] || !AllDigits(digits) || DigitsValue(digits) > U32_MAX then None
    else Some(DigitsValue(digits))
  }

  /** `str::parse::<i64>`: an optional sign, then digits, in range. */
  function ParseI64(s: string): (r: Option<int>)
    ensures r.Some? ==> I64_MIN <= r.value <= I64_MAX
  {
    var digits := if s != [] && (s[0] == '+' || s[0] == '-') then s[1..] else s;
    if digits == [] || !AllDigits(digits) then None
    else
      var n := DigitsValue(digits) * (if s[0] == '-' then -1 else 1);
      if I64_MIN <= n <= I64_MAX then Some(n) else None
  }

  function PrintInt(i: int): (s: string)
    ensures s != [] && Trimmed(s)
    ensures AllDigits(s) <==> i >= 0
  {
    if i >= 0 then Decimal(i) else
      assert !IsDigit((['-'] + Decimal(-i))[0]);
      ['-'] + Decimal(-i)
  }

  lemma U32RoundTrip(n: nat)
    requires n <= U32_MAX
    ensures ParseU32(Decimal(n)) == Some(n)
  {
    DecimalValue(n);
    assert IsDigit(Decimal(n)[0]);
  }

  /** Printing then parsing an integer gives it back exactly when it fits. */
  lemma I64RoundTrip(i: int)
    ensures ParseI64(PrintInt(i)) == if I64_MIN <= i <= I64_MAX then Some(i) else None
  {
    if i >= 0 {
      DecimalValue(i);
      assert IsDigit(Decimal(i)[0]);
    } else {
      DecimalValue(-i);
      assert PrintInt(i)[1..] == Decimal(-i);
    }
  }

  function Zeros(k: nat): string {
    seq(k, i requires 0 <= i < k => '0')
  }

  lemma {:induction false} LeadingZeros(k: nat, n: nat)
    ensures AllDigits(Zeros(k) + Decimal(n)) && DigitsValue(Zeros(k) + Decimal(n)) == n
  {
    var s := Zeros(k) + Decimal(n);
    if n >= 10 {
      LeadingZeros(k, n / 10);
      assert s[..|s| - 1] == Zeros(k) + Decimal(n / 10);
    } else {
      assert s[..|s| - 1] == Zeros(k);
      ZerosValue(k);
    }
  }

  lemma {:induction false} ZerosValue(k: nat)
    ensures AllDigits(Zeros(k)) && DigitsValue(Zeros(k)) == 0
  {
    if k > 0 {
      ZerosValue(k - 1);
      assert Zeros(k)[..k - 1] == Zeros(k - 1);
    }
  }

  lemma {:induction false} DigitsAre(s: string) returns (k: nat)
    requires s != [] && AllDigits(s)
    ensures s == Zeros(k) + Decimal(DigitsValue(s))
  {
    var d := s[|s| - 1] as int - '0' as int;
    assert s[|s| - 1] == DigitChar(d);
    k := 0;
    if |s| == 1 {
      assert DigitsValue(s[..0]) == 0 && s == [DigitChar(d)];
    } else {
      var init := s[..|s| - 1];
      k := DigitsAre(init);
      OneMoreDigit(DigitsValue(init), d);
      hide Decimal, DigitsValue;
      assert s == init + [DigitChar(d)];
      if DigitsValue(init) == 0 {
        assert Zeros(k + 1) == Zeros(k) + "0";
        k := k + 1;
      }
    }
  }

  lemma OneMoreDigit(n: nat, d: nat)
    requires d < 10
    ensures Decimal(10 * n + d) == (if n == 0 then "" else Decimal(n)) + [DigitChar(d)] && Decimal(0) == "0"
  {
  }

  /** `s` is `sign`, zeros and the decimal digits of `n`. */
  ghost predicate Writes(s: string, sign: string, n: nat) {
    exists k: nat :: s == sign + (Zeros(k) + Decimal(n))
  }

  lemma DigitsWrite(s: string, sign: string, n: nat)
    requires |sign| <= 1
    ensures Writes(s, sign, n) <==>
            sign < s && AllDigits(s[|sign|..]) && DigitsValue(s[|sign|..]) == n
  {
    var digits := if sign <= s then s[|sign|..] else "";
    if sign < s && AllDigits(digits) {
      var k := DigitsAre(digits);
      assert s == sign + digits;
    }
    if Writes(s, sign, n) {
      var k: nat :| s == sign + (Zeros(k) + Decimal(n));
      LeadingZeros(k, n);
      assert digits == Zeros(k) + Decimal(n);
    }
  }

  /** The texts of a `u32`: its digits, after any zeros and perhaps a plus. */
  lemma U32Reads(s: string, n: nat)
    ensures ParseU32(s) == Some(n) <==> n <= U32_MAX && (Writes(s, "", n) || Writes(s, "+", n))
  {
    DigitsWrite(s, "", n);
    DigitsWrite(s, "+", n);
    hide DigitsValue, Writes;
    assert s[0..] == s;
    assert s != [] && s[0] == '+' ==> !IsDigit(s[0]);
  }

  /** `s` is the number `i`: a sign, which a plus may be left out as, zeros, and the digits. */
  ghost predicate WritesInt(s: string, i: int) {
    (i >= 0 && (Writes(s, "", i) || Writes(s, "+", i))) || (i <= 0 && Writes(s, "-", -i))
  }

  lemma I64Reads(s: string, i: int)
    ensures ParseI64(s) == Some(i) <==> I64_MIN <= i <= I64_MAX && WritesInt(s, i)
  {
    SignedReads(s, i);
    if i >= 0 {
      DigitsWrite(s, "", i);
      DigitsWrite(s, "+", i);
    }
    if i <= 0 { DigitsWrite(s, "-", -i); }
    hide DigitsValue, Writes, ParseI64, AllDigits;
    assert s[0..] == s;
  }

  lemma SignedReads(s: string, i: int)
    ensures ParseI64(s) == Some(i) <==>
            && I64_MIN <= i <= I64_MAX && s != ""
            && ((AllDigits(s) && DigitsValue(s) == i)
                || ("+" < s && AllDigits(s[1..]) && DigitsValue(s[1..]) == i)
                || ("-" < s && AllDigits(s[1..]) && DigitsValue(s[1..]) == -i))
  {
    hide DigitsValue;
    assert s != "" && (s[0] == '+' || s[0] == '-') ==> !IsDigit(s[0]);
  }

  // --------------------------------------------------------------- searching

  /** `str::find`: where `word` first occurs. */
  function Find(s: string, word: string): (r: Option<nat>)
    ensures r.Some? ==> r.value + |word| <= |s|
  {
    if word <= s then Some(0)
    else if s == [] then None
    else match Find(s[1..], word)
      case None => None
      case Some(n) => Some(n + 1)
  }

  /** It finds the first place there is, and none only where there is none. */
  lemma {:induction false} Found(s: string, word: string)
    ensures var r := Find(s, word);
            && (r.Some? ==> word <= s[r.value..])
            && forall i :: 0 <= i <= |s| && (r.Some? ==> i < r.value) ==> !(word <= s[i..])
  {
    if word <= s {
      assert s[0..] == s;
    } else if s != [] {
      var rest := s[1..];
      Found(rest, word);
      var r := Find(s, word);
      assert r.Some? ==> rest[r.value - 1..] == s[r.value..];
      forall i | 0 <= i <= |s| && (r.Some? ==> i < r.value)
        ensures !(word <= s[i..])
      {
        assert if i == 0 then s[i..] == s else s[i..] == rest[i - 1..];
      }
    } else {
      assert s[0..] == s;
    }
  }

  predicate Contains(s: string, word: string) {
    Find(s, word).Some?
  }

  // ------------------------------------------------------ splitting, joining

  predicate Lacks(s: string, c: char) {
    forall i :: 0 <= i < |s| ==> s[i] != c
  }

  function Join(parts: seq<string>, sep: string): string {
    if parts == [] then []
    else if |parts| == 1 then parts[0]
    else parts[0] + sep + Join(parts[1..], sep)
  }

  /** The position of the first `c`, or the length without one. */
  function IndexOf(s: string, c: char): (n: nat)
    ensures n <= |s|
    ensures n < |s| ==> s[n] == c
    ensures forall i :: 0 <= i < n ==> s[i] != c
  {
    if s == [] || s[0] == c then 0 else 1 + IndexOf(s[1..], c)
  }

  lemma IndexOfAppend(a: string, c: char, b: string)
    requires Lacks(a, c)
    ensures IndexOf(a + [c] + b, c) == |a|
  {
    var s := a + [c] + b;
    assert s[|a|] == c;
    assert forall i :: 0 <= i < |a| ==> s[i] == a[i];
  }

  /** `str::split(c)`: always at least one part. */
  function Split(s: string, c: char): (parts: seq<string>)
    ensures parts != []
    decreases |s|
  {
    var n := IndexOf(s, c);
    if n == |s| then [s] else [s[..n]] + Split(s[n + 1..], c)
  }

  lemma {:induction false} SplitJoin(parts: seq<string>, c: char)
    requires parts != []
    requires forall i :: 0 <= i < |parts| ==> Lacks(parts[i], c)
    ensures Split(Join(parts, [c]), c) == parts
  {
    if |parts| == 1 {
      assert IndexOf(parts[0], c) == |parts[0]|;
    } else {
      var rest := Join(parts[1..], [c]);
      SplitJoin(parts[1..], c);
      IndexOfAppend(parts[0], c, rest);
      var s := parts[0] + [c] + rest;
      assert Join(parts, [c]) == s;
      assert s[..|parts[0]|] == parts[0] && s[|parts[0]| + 1..] == rest;
    }
  }

  /** The parts of a text are the ones without `c` that it joins with `c`. */
  lemma SplitIs(s: string, c: char, parts: seq<string>)
    ensures Split(s, c) == parts <==>
            parts != [] && s == Join(parts, [c]) && forall i :: 0 <= i < |parts| ==> Lacks(parts[i], c)
  {
    SplitParts(s, c);
    if parts != [] && forall i :: 0 <= i < |parts| ==> Lacks(parts[i], c) {
      SplitJoin(parts, c);
    }
    hide Split, Join, Lacks;
  }

  lemma {:induction false} SplitParts(s: string, c: char)
    ensures Join(Split(s, c), [c]) == s
    ensures forall i :: 0 <= i < |Split(s, c)| ==> Lacks(Split(s, c)[i], c)
    decreases |s|
  {
    var n := IndexOf(s, c);
    if n < |s| {
      SplitParts(s[n + 1..], c);
      var rest := Split(s[n + 1..], c);
      var parts := [s[..n]] + rest;
      assert Split(s, c) == parts && parts[1..] == rest;
      assert Join(parts, [c]) == s[..n] + [c] + s[n + 1..];
      assert s == s[..n] + [c] + s[n + 1..];
      forall i | 0 <= i < |parts|
        ensures Lacks(parts[i], c)
      {
        if i > 0 { assert parts[i] == rest[i - 1]; }
      }
    }
  }

  // -------------------------------------------------------------- whitespace

  predicate IsWord(s: string) {
    s != [] && forall i :: 0 <= i < |s| ==> !IsSpace(s[i])
  }

  function WordEnd(s: string): (n: nat)
    ensures n <= |s|
    ensures forall i :: 0 <= i < n ==> !IsSpace(s[i])
    ensures n < |s| ==> IsSpace(s[n])
  {
    if s == [] || IsSpace(s[0]) then 0 else 1 + WordEnd(s[1..])
  }

  /** `str::split_whitespace`: the words, none of them empty. */
  function Words(s: string): (words: seq<string>)
    ensures forall i :: 0 <= i < |words| ==> IsWord(words[i])
    decreases |s|
  {
    if s == [] then []
    else if IsSpace(s[0]) then Words(s[1..])
    else
      var n := WordEnd(s);
      [s[..n]] + Words(s[n..])
  }

  lemma WordEndAppend(w: string, rest: string)
    requires IsWord(w) && (rest == [] || IsSpace(rest[0]))
    ensures WordEnd(w + rest) == |w|
  {
    var s := w + rest;
    assert forall i :: 0 <= i < |w| ==> s[i] == w[i];
    assert rest != [] ==> s[|w|] == rest[0];
  }

  lemma {:induction false} WordsJoin(words: seq<string>)
    requires forall i :: 0 <= i < |words| ==> IsWord(words[i])
    ensures Words(Join(words, " ")) == words
  {
    if words == [] {
    } else {
      var w := words[0];
      var rest := if |words| == 1 then [] else " " + Join(words[1..], " ");
      assert Join(words, " ") == w + rest;
      WordEndAppend(w, rest);
      assert (w + rest)[..|w|] == w && (w + rest)[|w|..] == rest;
      assert !IsSpace((w + rest)[0]);
      if |words| > 1 {
        WordsJoin(words[1..]);
        assert rest[1..] == Join(words[1..], " ");
        assert Words(rest) == Words(rest[1..]);
      }
    }
  }

  /** `s` is `words` in order, with blanks between any two and perhaps around them. */
  ghost predicate Spaces(s: string, words: seq<string>)
    decreases |words|
  {
    if words == [] then Blank(s)
    else exists i, j :: 0 <= i <= j <= |s| && Blank(s[..i]) && s[i..j] == words[0] && IsWord(words[0])
                        && (j < |s| ==> IsSpace(s[j])) && Spaces(s[j..], words[1..])
  }

  lemma {:induction false} WordsAre(s: string, words: seq<string>)
    ensures Words(s) == words <==> Spaces(s, words)
    decreases |s|
  {
    if Blank(s) {
      NoWordInBlanks(s, words);
    } else {
      var i, j := FirstWord(s);
      hide Words, Blank, IsWord;
      if words == [] {
        assert Words(s)[0] == s[i..j];
      } else {
        WordsAre(s[j..], words[1..]);
        FirstWordIs(s, i, j, words);
        hide Spaces;
        assert words == [words[0]] + words[1..];
      }
    }
  }

  lemma FirstWord(s: string) returns (i: nat, j: nat)
    requires !Blank(s)
    ensures i < j <= |s| && Blank(s[..i]) && IsWord(s[i..j]) && (j < |s| ==> IsSpace(s[j]))
    ensures Words(s) == [s[i..j]] + Words(s[j..])
  {
    i := FirstOther(s);
    WordsSkipBlanks(s, i);
    var n := WordHere(s[i..]);
    hide *;
    j := i + n;
    assert s[i..][n..] == s[j..] && s[i..][..n] == s[i..j];
  }

  lemma FirstOther(s: string) returns (i: nat)
    requires !Blank(s)
    ensures i < |s| && Blank(s[..i]) && !IsSpace(s[i])
  {
    i := 0;
    while IsSpace(s[i])
      invariant i < |s| && forall k :: 0 <= k < i ==> IsSpace(s[k])
      decreases |s| - i
    {
      i := i + 1;
    }
  }

  lemma WordHere(s: string) returns (n: nat)
    requires s != [] && !IsSpace(s[0])
    ensures 0 < n <= |s| && IsWord(s[..n]) && (n < |s| ==> IsSpace(s[n])) && Words(s) == [s[..n]] + Words(s[n..])
  {
    n := WordEnd(s);
    hide IsSpace;
  }

  lemma {:induction false} WordsSkipBlanks(s: string, i: nat)
    requires i <= |s| && Blank(s[..i])
    ensures Words(s) == Words(s[i..])
  {
    if i > 0 {
      assert s[0] == s[..i][0];
      assert s[1..][..i - 1] == s[..i][1..] && s[1..][i - 1..] == s[i..];
      WordsSkipBlanks(s[1..], i - 1);
    } else {
      assert s[0..] == s;
    }
  }

  lemma NoWordInBlanks(s: string, words: seq<string>)
    requires Blank(s)
    ensures Spaces(s, words) <==> words == []
    ensures Words(s) == []
  {
    assert s[..|s|] == s;
    WordsSkipBlanks(s, |s|);
    forall i, j | 0 <= i <= j <= |s|
      ensures !IsWord(s[i..j])
    {
      if i < j { assert s[i..j][0] == s[i]; }
    }
  }

  lemma FirstWordIs(s: string, i: nat, j: nat, words: seq<string>)
    requires i < j <= |s| && Blank(s[..i]) && IsWord(s[i..j]) && (j < |s| ==> IsSpace(s[j])) && words != []
    ensures Spaces(s, words) <==> words[0] == s[i..j] && Spaces(s[j..], words[1..])
  {
    forall a: nat, b: nat | a <= b <= |s| && Blank(s[..a]) && IsWord(s[a..b]) && (b < |s| ==> IsSpace(s[b]))
      ensures a == i && b == j
    {
      OneFirstWord(s, i, j, a, b);
      OneFirstWord(s, a, b, i, j);
    }
    hide Blank, IsWord, IsSpace;
  }

  lemma OneFirstWord(s: string, i: nat, j: nat, a: nat, b: nat)
    requires i < j <= |s| && Blank(s[..i]) && IsWord(s[i..j])
    requires a <= b <= |s| && Blank(s[..a]) && IsWord(s[a..b]) && (b < |s| ==> IsSpace(s[b]))
    ensures a <= i && (i <= b ==> j <= b)
  {
    assert !IsSpace(s[i..j][0]);
    forall k | 0 <= k < a
      ensures IsSpace(s[k])
    {
      assert s[..a][k] == s[k];
    }
    forall k | i <= k < j
      ensures !IsSpace(s[k])
    {
      assert s[i..j][k - i] == s[k];
    }
  }

  lemma {:induction false} JoinWordsTrimmed(words: seq<string>)
    requires words != []
    requires forall i :: 0 <= i < |words| ==> IsWord(words[i])
    ensures Join(words, " ") != [] && Trimmed(Join(words, " "))
    ensures words[0] <= Join(words, " ")
  {
    if |words| > 1 {
      JoinWordsTrimmed(words[1..]);
      var s := Join(words, " ");
      assert s[|s| - 1] == Join(words[1..], " ")[|Join(words[1..], " ")| - 1];
    }
  }

  // ------------------------------------------------------------------ bytes

  /** How many bytes UTF-8 takes for `c`. */
  function Utf8Len(c: char): (n: nat)
    ensures 1 <= n <= 4
  {
    var v := c as int;
    if v < 0x80 then 1 else if v < 0x800 then 2 else if v < 0x10000 then 3 else 4
  }

  /** `str::len`. */
  function ByteLen(s: string): (n: nat)
    ensures n >= |s|
  {
    if s == [] then 0 else Utf8Len(s[0]) + ByteLen(s[1..])
  }
}
