/**
  The scan of a page for its inline scripts, whose hashes the content security
  policy lists (build.rs; hash sources, section 2.3.1 of W3C CSP Level 3). A page
  is read as text around complete `script` elements; the digest is a parameter.
 */
module InlineScripts {
  import opened Results
  import opened Text

  const OPENING := "<script"
  const CLOSING := "</script>"

  /** The text before an element, what its opening tag holds after its name, and what it encloses. */
  datatype Element = Element(before: string, attributes: string, body: string)

  datatype Page = Page(elements: seq<Element>, tail: string)

  /** The element's text, and then `rest`. */
  function Written(e: Element, rest: string): string {
    e.before + (OPENING + (e.attributes + (">" + (e.body + (CLOSING + rest)))))
  }

  /** The page's text. */
  function Assembled(elements: seq<Element>, tail: string): string {
    if elements == [] then tail else Written(elements[0], Assembled(elements[1..], tail))
  }

  predicate WellFormed(e: Element) {
    !Contains(e.before, OPENING) && !Contains(e.attributes, ">") && !Contains(e.body, CLOSING)
  }

  /** No opening tag of `s` ends with a closing one after it. */
  ghost predicate HoldsNoElement(s: string) {
    forall i, j, k :: 0 <= i && i + |OPENING| <= j < k <= |s| && OPENING <= s[i..] && s[j] == '>' ==>
        !(CLOSING <= s[k..])
  }

  ghost predicate WellFormedPage(p: Page) {
    (forall i :: 0 <= i < |p.elements| ==> WellFormed(p.elements[i])) && HoldsNoElement(p.tail)
  }

  /** The hashes of the elements that load nothing, in order. */
  function InlineHashes(elements: seq<Element>, hash: string -> string): seq<string> {
    if elements == [] then []
    else (if Contains(elements[0].attributes, "src=") then [] else [hash(elements[0].body)])
         + InlineHashes(elements[1..], hash)
  }

  // ----------------------------------------------------------- reading a page

  /** The first element of `s` and the text after it. */
  function FirstElement(s: string): (r: Option<(Element, string)>)
    ensures r.Some? ==> WellFormed(r.value.0) && s == Written(r.value.0, r.value.1) && |r.value.1| < |s|
    ensures r.None? ==> HoldsNoElement(s)
  {
    match Find(s, OPENING)
    case None =>
      NoOpening(s);
      None
    case Some(start) =>
      var after := s[start + |OPENING|..];
      match Find(after, ">")
      case None =>
        NoEndOfTag(s, start);
        None
      case Some(end) =>
        var body := after[end + 1..];
        match Find(body, CLOSING)
        case None =>
          NoClosing(s, start, end);
          None
        case Some(close) =>
          var e := Element(s[..start], after[..end], body[..close]);
          var rest := body[close + |CLOSING|..];
          TakenApart(s, start, after, end, body, close, rest);
          Some((e, rest))
  }

  lemma NoOpening(s: string)
    requires Find(s, OPENING).None?
    ensures HoldsNoElement(s)
  {
    Found(s, OPENING);
    hide Find;
  }

  lemma NoEndOfTag(s: string, start: nat)
    requires Find(s, OPENING) == Some(start) && Find(s[start + |OPENING|..], ">").None?
    ensures HoldsNoElement(s)
  {
    var after := s[start + |OPENING|..];
    Found(s, OPENING);
    Found(after, ">");
    hide Find;
    forall j | start + |OPENING| <= j < |s|
      ensures s[j] != '>'
    {
      var i := j - (start + |OPENING|);
      assert !(">" <= after[i..]);
    }
  }

  lemma NoClosing(s: string, start: nat, end: nat)
    requires Find(s, OPENING) == Some(start) && Find(s[start + |OPENING|..], ">") == Some(end)
    requires Find(s[start + |OPENING|..][end + 1..], CLOSING).None?
    ensures HoldsNoElement(s)
  {
    var named := start + |OPENING|;
    Found(s, OPENING);
    Found(s[named..][end + 1..], CLOSING);
    FirstEnd(s[named..], end);
    hide Find;
    assert forall j :: named <= j < named + end ==> s[j] == s[named..][j - named];
    assert s[named..][end + 1..] == s[named + end + 1..];
    forall i, j, k | 0 <= i && i + |OPENING| <= j < k <= |s| && OPENING <= s[i..] && s[j] == '>'
      ensures !(CLOSING <= s[k..])
    {
      assert s[k..] == s[named + end + 1..][k - (named + end + 1)..];
    }
  }

  lemma FirstEnd(s: string, end: nat)
    requires Find(s, ">") == Some(end)
    ensures forall i :: 0 <= i < end ==> s[i] != '>'
  {
    Found(s, ">");
    hide Find;
    forall i | 0 <= i < end
      ensures s[i] != '>'
    {
      assert !(">" <= s[i..]);
    }
  }

  lemma TakenApart(s: string, start: nat, after: string, end: nat, body: string, close: nat, rest: string)
    requires Find(s, OPENING) == Some(start) && after == s[start + |OPENING|..]
    requires Find(after, ">") == Some(end) && body == after[end + 1..]
    requires Find(body, CLOSING) == Some(close) && rest == body[close + |CLOSING|..]
    ensures var e := Element(s[..start], after[..end], body[..close]); WellFormed(e) && s == Written(e, rest)
  {
    hide Find, Contains, OPENING, CLOSING, WellFormed, Written;
    OpeningTaken(s, start);
    TagTaken(after, end);
    ClosingTaken(body, close);
    PutTogether(Element(s[..start], after[..end], body[..close]), rest, s, after, body);
  }

  lemma TagTaken(s: string, n: nat)
    requires Find(s, ">") == Some(n)
    ensures !Contains(s[..n], ">") && s == s[..n] + (">" + s[n + 1..])
  {
    TakenAt(s, ">", n);
  }

  lemma OpeningTaken(s: string, n: nat)
    requires Find(s, OPENING) == Some(n)
    ensures !Contains(s[..n], OPENING) && s == s[..n] + (OPENING + s[n + |OPENING|..])
  {
    TakenAt(s, OPENING, n);
  }

  lemma ClosingTaken(s: string, n: nat)
    requires Find(s, CLOSING) == Some(n)
    ensures !Contains(s[..n], CLOSING) && s == s[..n] + (CLOSING + s[n + |CLOSING|..])
  {
    TakenAt(s, CLOSING, n);
  }

  lemma PutTogether(e: Element, rest: string, s: string, after: string, body: string)
    requires s == e.before + (OPENING + after)
    requires after == e.attributes + (">" + body)
    requires body == e.body + (CLOSING + rest)
    requires !Contains(e.before, OPENING) && !Contains(e.attributes, ">") && !Contains(e.body, CLOSING)
    ensures WellFormed(e) && s == Written(e, rest)
  {
    hide Contains;
  }

  /** The text is what stands before the first occurrence of `word`, which holds none, `word`, and the rest. */
  lemma TakenAt(s: string, word: string, n: nat)
    requires Find(s, word) == Some(n) && word != []
    ensures !Contains(s[..n], word) && s == s[..n] + (word + s[n + |word|..])
  {
    LacksBefore(s, word, n);
    Found(s, word);
    hide Find, Contains;
    SplitAt(s, word, n);
  }

  lemma LacksBefore(s: string, word: string, n: nat)
    requires Find(s, word) == Some(n) && word != []
    ensures !Contains(s[..n], word)
  {
    var before := s[..n];
    Found(s, word);
    Found(before, word);
    hide Find;
    forall i | 0 <= i <= |before|
      ensures !(word <= before[i..])
    {
      assert before[i..] <= s[i..];
    }
  }

  lemma SplitAt(s: string, word: string, n: nat)
    requires n + |word| <= |s| && word <= s[n..]
    ensures s == s[..n] + (word + s[n + |word|..])
  {
    assert s[n..] == word + s[n..][|word|..];
    assert s[n..][|word|..] == s[n + |word|..];
  }

  /** The page `s` is. */
  function Elements(s: string): Page
    decreases |s|
  {
    match FirstElement(s)
    case None => Page([], s)
    case Some((e, rest)) =>
      var others := Elements(rest);
      Page([e] + others.elements, others.tail)
  }

  /** Every text is a page, and reading it loses nothing. */
  lemma {:induction false} ReadPageIsWhole(s: string)
    ensures WellFormedPage(Elements(s)) && Assembled(Elements(s).elements, Elements(s).tail) == s
    decreases |s|
  {
    var first := FirstElement(s);
    hide FirstElement, WellFormed, HoldsNoElement, Written;
    if first.Some? {
      ReadPageIsWhole(first.value.1);
    }
  }

  // ---------------------------------------------------- one page per text

  /** `word` after text that lacks it is first found there, as only its first character is its first. */
  lemma FoundAfter(a: string, word: string, b: string)
    requires word != [] && word[0] !in word[1..] && !Contains(a, word)
    ensures var s := a + (word + b);
            Find(s, word) == Some(|a|) && s[..|a|] == a && s[|a| + |word|..] == b
  {
    var s := a + (word + b);
    assert s[|a|..] == word + b;
    assert s[|a| + |word|..] == s[|a|..][|word|..];
    Found(s, word);
    hide Find;
    forall i | 0 <= i < |a|
      ensures !(word <= s[i..])
    {
      NotFoundBefore(a, word, b, i);
    }
  }

  lemma NotFoundBefore(a: string, word: string, b: string, i: nat)
    requires word != [] && word[0] !in word[1..] && !Contains(a, word) && i < |a|
    ensures !(word <= (a + (word + b))[i..])
  {
    var s := a + (word + b);
    Found(a, word);
    hide Find;
    if i + |word| <= |a| {
      assert a[i..][..|word|] == s[i..][..|word|];
      assert !(word <= a[i..]);
    } else {
      assert s[i..][|a| - i] == s[|a|] == word[0];
      assert word[1..][|a| - i - 1] == word[|a| - i];
      assert word[|a| - i] in word[1..];
    }
  }

  lemma FirstElementOf(e: Element, rest: string)
    requires WellFormed(e)
    ensures FirstElement(Written(e, rest)) == Some((e, rest))
  {
    var body := e.body + (CLOSING + rest);
    var after := e.attributes + (">" + body);
    hide Find;
    FoundAfter(e.before, OPENING, after);
    FoundAfter(e.attributes, ">", body);
    FoundAfter(e.body, CLOSING, rest);
  }

  lemma NoFirstElement(s: string)
    requires HoldsNoElement(s)
    ensures FirstElement(s).None?
  {
    var first := FirstElement(s);
    if first.Some? {
      var (e, rest) := first.value;
      hide FirstElement, WellFormed, HoldsNoElement;
      HoldsElement(e, rest);
    }
  }

  lemma HoldsElement(e: Element, rest: string)
    ensures !HoldsNoElement(Written(e, rest))
  {
    var s := Written(e, rest);
    var i := |e.before|;
    var j := i + |OPENING| + |e.attributes|;
    var k := j + 1 + |e.body|;
    assert s[i..] == OPENING + (e.attributes + (">" + (e.body + (CLOSING + rest))));
    assert s[i + |OPENING|..] == e.attributes + (">" + (e.body + (CLOSING + rest)));
    assert s[j..] == ">" + (e.body + (CLOSING + rest));
    assert s[j] == s[j..][0] == '>';
    assert s[k..] == CLOSING + rest;
  }

  /** A page is read as the elements it was put together from. */
  lemma {:induction false} AssembledPageIsRead(p: Page)
    requires WellFormedPage(p)
    ensures Elements(Assembled(p.elements, p.tail)) == p
    decreases |p.elements|
  {
    hide FirstElement, WellFormed, HoldsNoElement, Written;
    if p.elements == [] {
      NoFirstElement(p.tail);
    } else {
      var rest := Page(p.elements[1..], p.tail);
      assert forall i :: 0 <= i < |rest.elements| ==> rest.elements[i] == p.elements[i + 1];
      AssembledPageIsRead(rest);
      FirstElementOf(p.elements[0], Assembled(rest.elements, p.tail));
    }
  }

  // -------------------------------------------------------------------- the scan

  /** Where no `word` starts in `lead`, it is first found as in `rest`. */
  lemma FoundPast(lead: string, rest: string, word: string)
    requires forall i :: 0 <= i < |lead| ==> !(word <= (lead + rest)[i..])
    ensures Find(lead + rest, word) == match Find(rest, word) case None => None case Some(n) => Some(|lead| + n)
  {
    var s := lead + rest;
    var found, inRest := Find(s, word), Find(rest, word);
    Found(s, word);
    Found(rest, word);
    hide Find;
    assert forall i :: 0 <= i <= |rest| ==> rest[i..] == s[|lead| + i..];
    assert found.Some? ==> found.value >= |lead| && word <= rest[found.value - |lead|..];
  }

  lemma SrcIsAnAttribute(attributes: string)
    ensures Contains(OPENING + attributes, "src=") == Contains(attributes, "src=")
  {
    var s := OPENING + attributes;
    forall i | 0 <= i < |OPENING|
      ensures !("src=" <= s[i..])
    {
      assert s[i..][0] == OPENING[i];
      assert i == 1 ==> s[i..][1] == OPENING[2];
    }
    FoundPast(OPENING, attributes, "src=");
  }

  /** What is left of a page after an element starts with its closing tag, which opens nothing. */
  lemma ClosingOpensNothing(rest: string)
    ensures Find(CLOSING + rest, OPENING) ==
            match Find(rest, OPENING) case None => None case Some(n) => Some(|CLOSING| + n)
  {
    var s := CLOSING + rest;
    forall i | 0 <= i < |CLOSING|
      ensures !(OPENING <= s[i..])
    {
      assert s[i..][0] == CLOSING[i];
      assert i == 0 ==> s[i..][1] == CLOSING[1];
    }
    FoundPast(CLOSING, rest, OPENING);
  }

  lemma NameEndsNoTag(rest: string)
    ensures Find(OPENING + rest, ">") ==
            match Find(rest, ">") case None => None case Some(n) => Some(|OPENING| + n)
  {
    var s := OPENING + rest;
    forall i | 0 <= i < |OPENING|
      ensures !(">" <= s[i..])
    {
      assert s[i..][0] == OPENING[i];
    }
    FoundPast(OPENING, rest, ">");
  }

  /** What the loop has left is a page's text, after what closed the element before. */
  ghost predicate Left(rest: string, text: string) {
    rest == text || rest == CLOSING + text
  }

  /** From the first opening tag on, what is left is as the page's text. */
  lemma SameOpening(rest: string, text: string)
    requires Left(rest, text)
    ensures Find(rest, OPENING).None? <==> Find(text, OPENING).None?
    ensures Find(rest, OPENING).Some? ==>
              rest[Find(rest, OPENING).value..] == OPENING + text[Find(text, OPENING).value + |OPENING|..]
  {
    var start := Find(text, OPENING);
    Found(text, OPENING);
    if rest == text {
      hide Find, OPENING, CLOSING;
      if start.Some? {
        Shifted("", text, OPENING, start.value);
        assert "" + text == text;
      }
    } else {
      ClosingOpensNothing(text);
      hide Find, OPENING, CLOSING;
      if start.Some? { Shifted(CLOSING, text, OPENING, start.value); }
    }
  }

  lemma Shifted(lead: string, s: string, word: string, n: nat)
    requires n + |word| <= |s| && word <= s[n..]
    ensures (lead + s)[|lead| + n..] == word + s[n + |word|..]
  {
    SplitAt(s, word, n);
    assert (lead + s)[|lead| + n..] == s[n..];
    assert s[n..] == word + s[n..][|word|..];
  }

  /** One turn of the scan: the page's first element, and the page after it. */
  lemma Scanned(text: string, start: nat, end: nat, close: nat, hash: string -> string)
    requires Find(text, OPENING) == Some(start)
    requires var inside := text[start + |OPENING|..];
             Find(inside, ">") == Some(end) && Find(inside[end + 1..], CLOSING) == Some(close)
    ensures var inside := text[start + |OPENING|..];
            var body := inside[end + 1..];
            |body[close + |CLOSING|..]| < |text| &&
            InlineHashes(Elements(text).elements, hash) ==
            (if Contains(OPENING + inside[..end], "src=") then [] else [hash(body[..close])])
            + InlineHashes(Elements(body[close + |CLOSING|..]).elements, hash)
  {
    var inside := text[start + |OPENING|..];
    var body := inside[end + 1..];
    var e, rest := Element(text[..start], inside[..end], body[..close]), body[close + |CLOSING|..];
    SrcIsAnAttribute(inside[..end]);
    FirstScanned(text, start, end, close);
    hide FirstElement, Find, Contains, OPENING, CLOSING;
    assert Elements(text).elements == [e] + Elements(rest).elements;
    HashesOfFirst(e, Elements(rest).elements, hash);
  }

  lemma FirstScanned(text: string, start: nat, end: nat, close: nat)
    requires Find(text, OPENING) == Some(start)
    requires var inside := text[start + |OPENING|..];
             Find(inside, ">") == Some(end) && Find(inside[end + 1..], CLOSING) == Some(close)
    ensures var inside := text[start + |OPENING|..];
            var body := inside[end + 1..];
            FirstElement(text) ==
            Some((Element(text[..start], inside[..end], body[..close]), body[close + |CLOSING|..]))
  {
    hide Find, OPENING, CLOSING, WellFormed, HoldsNoElement, Written;
  }

  lemma HashesOfFirst(e: Element, others: seq<Element>, hash: string -> string)
    ensures InlineHashes([e] + others, hash) ==
            (if Contains(e.attributes, "src=") then [] else [hash(e.body)]) + InlineHashes(others, hash)
  {
    hide Contains;
    assert ([e] + others)[1..] == others;
  }

  /** Where the scan stops, the page holds no more elements. */
  lemma ScanStops(text: string, hash: string -> string)
    requires match Find(text, OPENING)
             case None => true
             case Some(start) =>
               var inside := text[start + |OPENING|..];
               match Find(inside, ">")
               case None => true
               case Some(end) => Find(inside[end + 1..], CLOSING).None?
    ensures InlineHashes(Elements(text).elements, hash) == []
  {
    hide Find;
  }

  lemma Cut(word: string, inside: string, end: nat)
    requires end < |inside|
    ensures (word + inside)[..|word| + end] == word + inside[..end]
    ensures (word + inside)[|word| + end + 1..] == inside[end + 1..]
  {
  }

  /** One turn of the loop, from the opening tag on. */
  lemma Turn(text: string, start: nat, after: string, end: nat, close: nat, hash: string -> string)
    requires Find(text, OPENING) == Some(start) && after == OPENING + text[start + |OPENING|..]
    requires Find(after, ">") == Some(end) && Find(after[end + 1..], CLOSING) == Some(close)
    ensures var body := after[end + 1..];
            var next := body[close + |CLOSING|..];
            && |next| < |text|
            && InlineHashes(Elements(text).elements, hash) ==
               (if Contains(after[..end], "src=") then [] else [hash(body[..close])])
               + InlineHashes(Elements(next).elements, hash)
  {
    var inside := text[start + |OPENING|..];
    NameEndsNoTag(inside);
    hide Find, Contains, Elements, OPENING, CLOSING, InlineHashes;
    Cut(OPENING, inside, end - |OPENING|);
    Scanned(text, start, end - |OPENING|, close, hash);
  }

  lemma LastTurn(text: string, start: nat, after: string, hash: string -> string)
    requires Find(text, OPENING) == Some(start) && after == OPENING + text[start + |OPENING|..]
    requires match Find(after, ">")
             case None => true
             case Some(end) => Find(after[end + 1..], CLOSING).None?
    ensures InlineHashes(Elements(text).elements, hash) == []
  {
    var inside := text[start + |OPENING|..];
    NameEndsNoTag(inside);
    hide Find, Elements, OPENING, CLOSING, InlineHashes;
    var ended := Find(inside, ">");
    if ended.Some? { Cut(OPENING, inside, ended.value); }
    ScanStops(text, hash);
  }

  lemma WholeIsLeft(html: string)
    ensures Left(html, html)
  {
  }

  lemma ClosingStays(body: string, close: nat)
    requires Find(body, CLOSING) == Some(close)
    ensures Left(body[close..], body[close + |CLOSING|..])
  {
    Found(body, CLOSING);
    hide Find, CLOSING;
    assert body[close..] == CLOSING + body[close..][|CLOSING|..];
  }

  /** The hashes of the inline scripts of any page, in order. */
  method InlineScriptHashes(html: string, hash: string -> string) returns (hashes: seq<string>)
    ensures hashes == InlineHashes(Elements(html).elements, hash)
  {
    hide Find, Contains, Elements, OPENING, CLOSING, InlineHashes, Left;
    hashes := [];
    var rest := html;
    WholeIsLeft(html);
    ghost var text := html;
    while true
      invariant Left(rest, text)
      invariant hashes + InlineHashes(Elements(text).elements, hash) == InlineHashes(Elements(html).elements, hash)
      decreases |text|
    {
      SameOpening(rest, text);
      var start := Find(rest, OPENING);
      if start.None? {
        ScanStops(text, hash);
        break;
      }
      var after := rest[start.value..];
      var openEnd := Find(after, ">");
      if openEnd.None? {
        LastTurn(text, Find(text, OPENING).value, after, hash);
        break;
      }
      var attributes := after[..openEnd.value];
      var body := after[openEnd.value + 1..];
      var close := Find(body, CLOSING);
      if close.None? {
        LastTurn(text, Find(text, OPENING).value, after, hash);
        break;
      }
      Turn(text, Find(text, OPENING).value, after, openEnd.value, close.value, hash);
      ClosingStays(body, close.value);
      if !Contains(attributes, "src=") {
        hashes := hashes + [hash(body[..close.value])];
      }
      rest := body[close.value..];
      text := body[close.value + |CLOSING|..];
    }
  }

  /** A page's policy lists exactly the inline scripts it was put together from. */
  lemma PolicyListsTheScripts(p: Page, hash: string -> string)
    requires WellFormedPage(p)
    ensures InlineHashes(Elements(Assembled(p.elements, p.tail)).elements, hash) == InlineHashes(p.elements, hash)
  {
    AssembledPageIsRead(p);
  }
}
