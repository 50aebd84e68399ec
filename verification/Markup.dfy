/**
  The gateway prints a bucket listing as XML (cyxcloud-gateway/src/s3_api.rs) and the command-line
  client reads it with plain substring searches (cyxcloud-cli/src/client.rs).
*/
module Substrings {
  import opened Wrappers

  /** The first place where p occurs in s. */
  function Find(s: string, p: string): Option<nat> {
    if p <= s then Some(0) else if s == [] then None else Shift(1, Find(s[1..], p))
  }

  lemma {:induction false} FindIsOccurrence(s: string, p: string)
    ensures var r := Find(s, p); r.Some? ==> r.value + |p| <= |s| && s[r.value..r.value + |p|] == p
  {
    if !(p <= s) && s != [] { FindIsOccurrence(s[1..], p); }
  }

  function Shift(n: nat, r: Option<nat>): Option<nat> {
    match r
    case None => None
    case Some(i) => Some(n + i)
  }

  /** Text without p's first character is skipped. */
  lemma {:induction false} FindSkipText(text: string, rest: string, p: string)
    requires p != [] && p[0] !in text
    ensures Find(text + rest, p) == Shift(|text|, Find(rest, p))
  {
    if text == [] {
      assert text + rest == rest;
    } else {
      assert (text + rest)[1..] == text[1..] + rest;
      assert (text + rest)[0] == text[0] != p[0];
      FindSkipText(text[1..], rest, p);
      assert !(p <= text + rest);
    }
  }

  lemma FindHere(p: string, rest: string)
    ensures Find(p + rest, p) == Some(0)
  {
    assert (p + rest)[..|p|] == p;
  }

  // ---------- occurrences ----------

  ghost predicate OccursAt(s: string, p: string, i: nat) {
    i + |p| <= |s| && s[i..i + |p|] == p
  }

  ghost predicate Occurs(s: string, p: string) {
    exists i: nat :: OccursAt(s, p, i)
  }

  lemma {:induction false} FindOccurs(s: string, p: string)
    ensures Find(s, p).Some? <==> Occurs(s, p)
  {
    if p <= s {
      assert OccursAt(s, p, 0);
    } else if s != [] {
      FindOccurs(s[1..], p);
      if Occurs(s[1..], p) {
        var i: nat :| OccursAt(s[1..], p, i);
        assert OccursAt(s, p, i + 1);
      }
      if Occurs(s, p) {
        var i: nat :| OccursAt(s, p, i);
        assert i > 0;
        assert OccursAt(s[1..], p, i - 1);
      }
    }
  }

  /** A pattern whose first character does not come again in it. */
  ghost predicate Headed(mark: string) {
    mark != [] && forall j | 1 <= j < |mark| :: mark[j] != mark[0]
  }

  lemma NotHere(text: string, rest: string, mark: string, p: string)
    requires Headed(mark) && mark <= p && text != [] && !Occurs(text, mark) && (rest == [] || rest[0] == mark[0])
    ensures !(p <= text + rest)
  {
    assert !OccursAt(text, mark, 0);
    assert |mark| <= |text| ==> text[0..|mark|] != mark && (text + rest)[..|mark|] == text[..|mark|];
    assert |text| < |mark| && rest != [] ==> mark[|text|] != (text + rest)[|text|];
  }

  /** A search for a pattern that begins with the mark passes over a text free of the mark, if a mark's first character follows. */
  lemma {:induction false} FindSkipFree(text: string, rest: string, mark: string, p: string)
    requires Headed(mark) && mark <= p && !Occurs(text, mark) && (rest == [] || rest[0] == mark[0])
    ensures Find(text + rest, p) == Shift(|text|, Find(rest, p))
  {
    if text == [] {
      assert text + rest == rest;
    } else {
      NotHere(text, rest, mark, p);
      assert (text + rest)[1..] == text[1..] + rest;
      if Occurs(text[1..], mark) {
        assert text == text[..1] + text[1..] + [];
        OccursInside(text[..1], text[1..], [], mark);
      }
      FindSkipFree(text[1..], rest, mark, p);
    }
  }

  /** What follows does not change where a pattern is found first. */
  lemma {:induction false} FindInFront(text: string, rest: string, p: string)
    requires Find(text, p).Some?
    ensures Find(text + rest, p) == Find(text, p)
  {
    if p <= text {
      assert (text + rest)[..|p|] == p;
    } else {
      FindIsOccurrence(text[1..], p);
      assert (text + rest)[1..] == text[1..] + rest;
      FindInFront(text[1..], rest, p);
      assert |p| <= |text| && (text + rest)[..|p|] == text[..|p|];
    }
  }

  lemma NoOccurrence(text: string, p: string)
    requires p != [] && p[0] !in text
    ensures !Occurs(text, p)
  {
    forall i: nat ensures !OccursAt(text, p, i) {
      if i + |p| <= |text| {
        assert text[i] in text;
        assert text[i..i + |p|][0] == text[i];
      }
    }
  }

  lemma OccursInside(a: string, s: string, b: string, p: string)
    requires Occurs(s, p)
    ensures Occurs(a + s + b, p)
  {
    var i: nat :| OccursAt(s, p, i);
    var t := a + s + b;
    assert t[|a| + i..|a| + i + |p|] == s[i..i + |p|];
    assert OccursAt(t, p, |a| + i);
  }

  /** Characters that p neither starts nor ends with can be cut off at the ends. */
  lemma OccursBetween(a: string, s: string, b: string, p: string)
    requires p != [] && p[0] !in a && p[|p| - 1] !in b && |p| > 0 && Occurs(a + s + b, p)
    ensures Occurs(s, p)
  {
    var t := a + s + b;
    var i: nat :| OccursAt(t, p, i);
    assert t[i] == p[0] && t[i + |p| - 1] == p[|p| - 1];
    assert i >= |a|;
    assert i + |p| <= |a| + |s|;
    assert s[i - |a|..i - |a| + |p|] == t[i..i + |p|];
    assert OccursAt(s, p, i - |a|);
  }

  // ---------- trimming and lines ----------

  function TrimStart(space: char -> bool, s: string): string {
    if s != [] && space(s[0]) then TrimStart(space, s[1..]) else s
  }

  function TrimEnd(space: char -> bool, s: string): string {
    if s != [] && space(s[|s| - 1]) then TrimEnd(space, s[..|s| - 1]) else s
  }

  function Trim(space: char -> bool, s: string): string {
    TrimEnd(space, TrimStart(space, s))
  }

  ghost predicate AllSpace(space: char -> bool, s: string) {
    forall c | c in s :: space(c)
  }

  lemma {:induction false} TrimStartParts(space: char -> bool, s: string) returns (k: nat)
    ensures k <= |s| && TrimStart(space, s) == s[k..] && forall i | 0 <= i < k :: space(s[i])
  {
    if s != [] && space(s[0]) {
      var n := TrimStartParts(space, s[1..]);
      k := n + 1;
      assert s[1..][n..] == s[k..];
      forall i | 0 <= i < k ensures space(s[i]) { if i > 0 { assert s[i] == s[1..][i - 1]; } }
    } else {
      k := 0;
    }
  }

  lemma {:induction false} TrimEndParts(space: char -> bool, s: string) returns (b: string)
    ensures AllSpace(space, b) && s == TrimEnd(space, s) + b
  {
    if s != [] && space(s[|s| - 1]) {
      b := TrimEndParts(space, s[..|s| - 1]);
      b := b + [s[|s| - 1]];
    } else {
      b := [];
    }
  }

  /** Trimming neither adds nor removes an occurrence of a pattern without space at its ends. */
  lemma TrimOccurs(space: char -> bool, s: string, p: string)
    requires p != [] && !space(p[0]) && !space(p[|p| - 1])
    ensures Occurs(Trim(space, s), p) <==> Occurs(s, p)
  {
    var k := TrimStartParts(space, s);
    var a := s[..k];
    var b := TrimEndParts(space, TrimStart(space, s));
    var t := Trim(space, s);
    assert s == a + t + b;
    if Occurs(t, p) { OccursInside(a, t, b, p); }
    if Occurs(s, p) { OccursBetween(a, t, b, p); }
  }

  /** The length of the first line. */
  function LineLength(s: string): (n: nat)
    ensures n <= |s| && '\n' !in s[..n] && (n < |s| ==> s[n] == '\n')
  {
    if s == [] || s[0] == '\n' then 0 else 1 + LineLength(s[1..])
  }

  /** The first line, without its line break. */
  function FirstLine(s: string): string {
    var n := LineLength(s);
    if n < |s| && n > 0 && s[n - 1] == '\r' then s[..n - 1] else s[..n]
  }

  function OtherLines(s: string): (r: string)
    ensures s != [] ==> |r| < |s|
  {
    var n := LineLength(s);
    if n < |s| then s[n + 1..] else []
  }

  ghost predicate OnOneLine(p: string) {
    p != [] && '\n' !in p && p[0] != '\r' && p[|p| - 1] != '\r'
  }

  lemma FirstLineOccurs(s: string, p: string)
    requires OnOneLine(p)
    ensures Occurs(FirstLine(s), p) <==> Occurs(s[..LineLength(s)], p)
  {
    var n := LineLength(s);
    var line := s[..n];
    if FirstLine(s) != line {
      var cut := s[..n - 1];
      assert line == [] + cut + ['\r'];
      if Occurs(cut, p) { OccursInside([], cut, ['\r'], p); }
      if Occurs(line, p) { OccursBetween([], cut, ['\r'], p); }
    }
  }

  /** An occurrence without a line break lies before or after any given line break. */
  lemma SplitOccurs(line: string, rest: string, p: string)
    requires p != [] && '\n' !in p
    ensures Occurs(line + ['\n'] + rest, p) <==> Occurs(line, p) || Occurs(rest, p)
  {
    var s, n := line + ['\n'] + rest, |line|;
    if Occurs(line, p) {
      OccursInside([], line, ['\n'] + rest, p);
      assert [] + line + (['\n'] + rest) == s;
    }
    if Occurs(rest, p) {
      OccursInside(line + ['\n'], rest, [], p);
      assert line + ['\n'] + rest + [] == s;
    }
    if Occurs(s, p) {
      var i: nat :| OccursAt(s, p, i);
      assert s[n] == '\n' && (i + |p| <= n || i > n);
      if i + |p| <= n {
        assert line[i..i + |p|] == s[i..i + |p|];
        assert OccursAt(line, p, i);
      } else {
        assert rest[i - n - 1..i - n - 1 + |p|] == s[i..i + |p|];
        assert OccursAt(rest, p, i - n - 1);
      }
    }
  }

  /** A pattern on one line occurs in the first line or in the others. */
  lemma LineOccurs(s: string, p: string)
    requires OnOneLine(p)
    ensures Occurs(s, p) <==> Occurs(FirstLine(s), p) || Occurs(OtherLines(s), p)
  {
    var n := LineLength(s);
    FirstLineOccurs(s, p);
    if n < |s| {
      assert s == s[..n] + ['\n'] + s[n + 1..];
      SplitOccurs(s[..n], s[n + 1..], p);
    } else {
      assert s[..n] == s;
    }
  }
}

/** XML as a sequence of tags and texts, and searching for a tag in it past texts that are free of the tag. */
module Markup {
  import opened Wrappers
  import opened Sequences
  import opened Substrings

  datatype Element =
    | Name | Prefix | MaxKeys | IsTruncated | KeyCount | Contents | Key | LastModified | ETag | Size
    | StorageClass | CommonPrefixes | NextContinuationToken | ListBucketResult

  datatype Mark = Open(e: Element) | Close(e: Element) | EmptyPrefix | Declaration

  datatype Token = Text(text: string) | Tag(mark: Mark)

  function ElementName(e: Element): string {
    match e
    case Name => "Name"
    case Prefix => "Prefix"
    case MaxKeys => "MaxKeys"
    case IsTruncated => "IsTruncated"
    case KeyCount => "KeyCount"
    case Contents => "Contents"
    case Key => "Key"
    case LastModified => "LastModified"
    case ETag => "ETag"
    case Size => "Size"
    case StorageClass => "StorageClass"
    case CommonPrefixes => "CommonPrefixes"
    case NextContinuationToken => "NextContinuationToken"
    case ListBucketResult => "ListBucketResult"
  }

  const NAMESPACE_HOST := " xmlns=\"http://s3.amazonaws"
  const NAMESPACE_PATH := ".com/doc/2006-03-01/\""
  const NAMESPACE := NAMESPACE_HOST + NAMESPACE_PATH
  const DECLARATION := "?xml version=\"1.0\" encoding=\"UTF-8\"?"

  /** What stands between the angle brackets. */
  function Body(m: Mark): string {
    match m
    case Open(e) => if e == ListBucketResult then ElementName(e) + NAMESPACE else ElementName(e)
    case Close(e) => "/" + ElementName(e)
    case EmptyPrefix => "Prefix/"
    case Declaration => DECLARATION
  }

  function MarkText(m: Mark): string { "<" + Body(m) + ">" }

  function TokenText(t: Token): string {
    match t case Text(text) => text case Tag(m) => MarkText(m)
  }

  function TokenTexts(ts: seq<Token>): (r: seq<string>)
    ensures |r| == |ts|
  {
    seq(|ts|, i requires 0 <= i < |ts| => TokenText(ts[i]))
  }

  function Render(ts: seq<Token>): string {
    Flatten(TokenTexts(ts))
  }

  lemma RenderAppend(a: seq<Token>, b: seq<Token>)
    ensures Render(a + b) == Render(a) + Render(b)
  {
    assert TokenTexts(a + b) == TokenTexts(a) + TokenTexts(b);
    FlattenConcat(TokenTexts(a), TokenTexts(b));
  }

  // ---------- tags are told apart by length and first letters ----------

  function NameSignature(e: Element): (nat, char) {
    match e
    case Name => (4, 'N')
    case Prefix => (6, 'P')
    case MaxKeys => (7, 'M')
    case IsTruncated => (11, 'I')
    case KeyCount => (8, 'K')
    case Contents => (8, 'C')
    case Key => (3, 'K')
    case LastModified => (12, 'L')
    case ETag => (4, 'E')
    case Size => (4, 'S')
    case StorageClass => (12, 'S')
    case CommonPrefixes => (14, 'C')
    case NextContinuationToken => (21, 'N')
    case ListBucketResult => (16, 'L')
  }

  lemma NameShape(e: Element)
    ensures |ElementName(e)| == NameSignature(e).0 && ElementName(e)[0] == NameSignature(e).1
    ensures NoAngles(ElementName(e))
  {
    NamePlain(e);
  }

  lemma NamePlain(e: Element)
    ensures NoAngles(ElementName(e))
  {
    if NameSignature(e).0 < 8 { ShortNamePlain(e); } else { LongNamePlain(e); }
  }

  lemma ShortNamePlain(e: Element)
    requires NameSignature(e).0 < 8
    ensures NoAngles(ElementName(e))
  {}

  lemma LongNamePlain(e: Element)
    requires NameSignature(e).0 >= 8
    ensures NoAngles(ElementName(e))
  {}

  lemma NameInjective(a: Element, b: Element)
    requires NameSignature(a) == NameSignature(b)
    ensures a == b
  {}

  ghost predicate NoAngles(s: string) { '<' !in s && '>' !in s }

  lemma NamespaceShape()
    ensures NoAngles(NAMESPACE) && |NAMESPACE| > 5
  {
    assert NoAngles(NAMESPACE_HOST) && |NAMESPACE_HOST| > 5;
    assert NoAngles(NAMESPACE_PATH);
  }

  lemma DeclarationShape()
    ensures NoAngles(DECLARATION) && |DECLARATION| > 22 && DECLARATION[0] == '?'
  {}

  lemma BodyShape(m: Mark)
    ensures Body(m) != [] && NoAngles(Body(m))
  {
    if m.Open? || m.Close? {
      NameShape(m.e);
      NamespaceShape();
    } else if m == Declaration {
      DeclarationShape();
    }
  }

  /** What a tag's text starts with. */
  function Head(m: Mark): char {
    match m
    case Open(e) => NameSignature(e).1
    case Close(_) => '/'
    case EmptyPrefix => 'P'
    case Declaration => '?'
  }

  lemma BodyHead(m: Mark)
    ensures Body(m) != [] && Body(m)[0] == Head(m)
  {
    if m.Open? || m.Close? {
      NameShape(m.e);
    } else if m == Declaration {
      DeclarationShape();
    }
  }

  lemma OpenLength(m: Mark)
    requires m.Open? || m == EmptyPrefix
    ensures m == EmptyPrefix ==> |Body(m)| == 7
    ensures m.Open? && m.e != ListBucketResult ==> |Body(m)| == NameSignature(m.e).0 <= 21
    ensures m == Open(ListBucketResult) ==> |Body(m)| > 21
  {
    if m.Open? {
      NameShape(m.e);
      NamespaceShape();
    }
  }

  /** An opening or closing tag of an element other than the root is different from every other tag. */
  lemma BodyInjective(m: Mark, k: Mark)
    requires (m.Open? && m.e != ListBucketResult) || m.Close?
    requires Body(m) == Body(k)
    ensures m == k
  {
    BodyHead(m);
    BodyHead(k);
    assert Head(m) == Head(k);
    if m.Close? {
      assert k.Close?;
      NameShape(m.e);
      NameShape(k.e);
      assert Body(m)[1..] == ElementName(m.e) && Body(k)[1..] == ElementName(k.e);
      NameInjective(m.e, k.e);
    } else {
      assert k.Open? || k == EmptyPrefix;
      OpenLength(m);
      OpenLength(k);
      if k.Open? { NameInjective(m.e, k.e); }
    }
  }

  // ---------- searching ----------

  ghost predicate Searchable(m: Mark) { (m.Open? && m.e != ListBucketResult) || m.Close? }

  /** The text does not contain the tag. */
  ghost predicate FreeOf(text: string, m: Mark) { !Occurs(text, MarkText(m)) }

  /** Every text is without '<', or free of the tag and followed by a tag. */
  ghost predicate Clean(ts: seq<Token>, m: Mark) {
    forall i | 0 <= i < |ts| && ts[i].Text? :: '<' !in ts[i].text || (FreeOf(ts[i].text, m) && i + 1 < |ts| && ts[i + 1].Tag?)
  }

  ghost predicate Without(ts: seq<Token>, m: Mark) {
    forall i | 0 <= i < |ts| :: ts[i] != Tag(m)
  }

  /** One bracketed body is a prefix of another only if they are equal. */
  lemma BracketPrefix(a: string, b: string, rest: string)
    requires NoAngles(a) && NoAngles(b) && "<" + a + ">" <= "<" + b + ">" + rest
    ensures a == b
  {
    var s, t := "<" + a + ">", "<" + b + ">" + rest;
    assert s[|a| + 1] == '>' == t[|a| + 1];
    assert |a| >= |b|;
    assert t[|b| + 1] == '>' == s[|b| + 1];
    forall i | 0 <= i < |a| ensures a[i] == b[i] { assert s[i + 1] == a[i] && t[i + 1] == b[i]; }
  }

  lemma OtherMark(m: Mark, k: Mark, rest: string, p: string)
    requires Searchable(m) && MarkText(m) <= p && m != k
    ensures !(p <= MarkText(k) + rest)
  {
    if p <= MarkText(k) + rest {
      BodyShape(m);
      BodyShape(k);
      BracketPrefix(Body(m), Body(k), rest);
      BodyInjective(m, k);
    }
  }

  lemma SkipMark(k: Mark, rest: string, p: string)
    requires p != [] && p[0] == '<' && !(p <= MarkText(k) + rest)
    ensures Find(MarkText(k) + rest, p) == Shift(|MarkText(k)|, Find(rest, p))
  {
    BodyShape(k);
    SkipBracketed(Body(k), rest, p);
  }

  lemma SkipBracketed(body: string, rest: string, p: string)
    requires p != [] && p[0] == '<' && NoAngles(body) && !(p <= "<" + body + ">" + rest)
    ensures Find("<" + body + ">" + rest, p) == Shift(|body| + 2, Find(rest, p))
  {
    var s, tail := "<" + body + ">" + rest, body + ">";
    assert s[1..] == tail + rest;
    FindSkipText(tail, rest, p);
  }

  lemma MarkHeaded(m: Mark)
    ensures Headed(MarkText(m)) && MarkText(m)[0] == '<'
  {
    BodyShape(m);
    HeadedBrackets(Body(m));
  }

  lemma HeadedBrackets(body: string)
    requires NoAngles(body)
    ensures Headed("<" + body + ">")
  {
    var s := "<" + body + ">";
    forall j | 1 <= j < |s| ensures s[j] != '<' { if j <= |body| { assert s[j] == body[j - 1]; } }
  }

  lemma RenderCons(ts: seq<Token>)
    requires ts != []
    ensures Render(ts) == TokenText(ts[0]) + Render(ts[1..])
  {
    assert TokenTexts(ts)[1..] == TokenTexts(ts[1..]);
  }

  lemma StartsWithTag(ts: seq<Token>, rest: string)
    requires ts != [] && ts[0].Tag?
    ensures Render(ts) + rest != [] && (Render(ts) + rest)[0] == '<'
  {
    RenderCons(ts);
    MarkHeaded(ts[0].mark);
  }

  lemma SkipToken(ts: seq<Token>, rest: string, m: Mark, p: string)
    requires Searchable(m) && MarkText(m) <= p && ts != [] && Clean(ts, m) && Without(ts, m)
    ensures Find(TokenText(ts[0]) + (Render(ts[1..]) + rest), p) == Shift(|TokenText(ts[0])|, Find(Render(ts[1..]) + rest, p))
  {
    var t, more := ts[0], Render(ts[1..]) + rest;
    MarkHeaded(m);
    if t.Tag? {
      OtherMark(m, t.mark, more, p);
      SkipMark(t.mark, more, p);
    } else if '<' !in t.text {
      FindSkipText(t.text, more, p);
    } else {
      StartsWithTag(ts[1..], rest);
      FindSkipFree(t.text, more, MarkText(m), p);
    }
  }

  /** A search for a pattern that begins with tag m passes over everything that is not tag m. */
  lemma {:induction false} SkipTokens(ts: seq<Token>, rest: string, m: Mark, p: string)
    requires Searchable(m) && MarkText(m) <= p && Clean(ts, m) && Without(ts, m)
    ensures Find(Render(ts) + rest, p) == Shift(|Render(ts)|, Find(rest, p))
  {
    if ts == [] {
      assert Render(ts) + rest == rest;
    } else {
      CleanTail(ts, m);
      SkipToken(ts, rest, m, p);
      SkipTokens(ts[1..], rest, m, p);
      RenderCons(ts);
      SkipBoth(TokenText(ts[0]), Render(ts[1..]), rest, p);
    }
  }

  lemma SkipBoth(a: string, b: string, rest: string, p: string)
    requires Find(a + (b + rest), p) == Shift(|a|, Find(b + rest, p)) && Find(b + rest, p) == Shift(|b|, Find(rest, p))
    ensures Find(a + b + rest, p) == Shift(|a + b|, Find(rest, p))
  {
    Associates(a, b, rest);
  }

  lemma CleanTail(ts: seq<Token>, m: Mark)
    requires ts != [] && Clean(ts, m) && Without(ts, m)
    ensures Clean(ts[1..], m) && Without(ts[1..], m)
  {
    var more := ts[1..];
    forall i | 0 <= i < |more| && more[i].Text?
      ensures '<' !in more[i].text || (FreeOf(more[i].text, m) && i + 1 < |more| && more[i + 1].Tag?)
    {
      assert more[i] == ts[i + 1];
    }
  }

  lemma Associates(a: string, b: string, c: string)
    ensures a + b + c == a + (b + c)
  {}

  lemma FindTag(before: seq<Token>, m: Mark, after: string)
    requires Searchable(m) && Clean(before, m) && Without(before, m)
    ensures Find(Render(before) + MarkText(m) + after, MarkText(m)) == Some(|Render(before)|)
  {
    Associates(Render(before), MarkText(m), after);
    SkipTokens(before, MarkText(m) + after, m, MarkText(m));
    FindHere(MarkText(m), after);
  }

  lemma FindNoTag(ts: seq<Token>, m: Mark, p: string)
    requires Searchable(m) && MarkText(m) <= p && Clean(ts, m) && Without(ts, m)
    ensures Find(Render(ts), p) == None
  {
    assert Render(ts) + "" == Render(ts);
    SkipTokens(ts, "", m, p);
  }

  // ---------- extracting a value ----------

  /** The text before the first occurrence of `close`. */
  function Until(s: string, close: string): Option<string> {
    match Find(s, close)
    case None => None
    case Some(j) => FindIsOccurrence(s, close); Some(s[..j])
  }

  /** The text before the first occurrence of `close`, or all of it if there is none. */
  function Cut(s: string, close: string): string {
    match Until(s, close) case None => s case Some(front) => front
  }

  /** The text after the first occurrence of `open`. */
  function After(s: string, open: string): Option<string> {
    match Find(s, open)
    case None => None
    case Some(i) => FindIsOccurrence(s, open); Some(s[i + |open|..])
  }

  /** The text between the first opening tag and the next closing tag. */
  function ExtractValue(xml: string, tag: string): Option<string> {
    match After(xml, "<" + tag + ">")
    case None => None
    case Some(rest) => Until(rest, "</" + tag + ">")
  }

  /** The tokens of one element with a value, after some indentation. */
  function Field(indent: string, e: Element, value: string): seq<Token> {
    [Text(indent), Tag(Open(e)), Text(value), Tag(Close(e))]
  }

  function FieldText(indent: string, e: Element, value: string): string {
    indent + MarkText(Open(e)) + value + MarkText(Close(e))
  }

  lemma RenderField(indent: string, e: Element, value: string)
    ensures Render(Field(indent, e, value)) == FieldText(indent, e, value)
  {
    var ts := Field(indent, e, value);
    assert TokenTexts(ts) == [indent, MarkText(Open(e)), value, MarkText(Close(e))];
    FlattenFour(indent, MarkText(Open(e)), value, MarkText(Close(e)));
  }

  lemma CloseText(e: Element)
    requires e != ListBucketResult
    ensures "<" + ElementName(e) + ">" == MarkText(Open(e)) && "</" + ElementName(e) + ">" == MarkText(Close(e))
  {
    Slashed(ElementName(e));
  }

  lemma Slashed(name: string)
    ensures "</" + name + ">" == "<" + ("/" + name) + ">"
  {
    assert "</" == "<" + "/";
  }

  /** The value is found up to a closing tag in it: whole if and only if it does not contain one. */
  lemma UntilClose(value: string, close: string, after: string)
    requires Headed(close)
    ensures Until(value + close + after, close) == Some(Cut(value, close))
    ensures Cut(value, close) == value <==> !Occurs(value, close)
  {
    assert value + close + after == value + (close + after);
    FindOccurs(value, close);
    if Occurs(value, close) {
      FindIsOccurrence(value, close);
      FindInFront(value, close + after, close);
      assert (value + (close + after))[..Find(value, close).value] == value[..Find(value, close).value];
    } else {
      FindSkipFree(value, close + after, close, close);
      FindHere(close, after);
    }
  }

  lemma AfterOpen(lead: string, open: string, rest: string)
    requires Find(lead + open + rest, open) == Some(|lead|)
    ensures After(lead + open + rest, open) == Some(rest)
  {
    assert (lead + open + rest)[|lead| + |open|..] == rest;
  }

  lemma ExtractBetween(xml: string, tag: string, open: string, close: string, lead: string, value: string, after: string)
    requires open == "<" + tag + ">" && close == "</" + tag + ">" && Headed(close)
    requires xml == lead + open + (value + close + after) && Find(xml, open) == Some(|lead|)
    ensures ExtractValue(xml, tag) == Some(Cut(value, close)) && (Cut(value, close) == value <==> !Occurs(value, close))
  {
    AfterOpen(lead, open, value + close + after);
    UntilClose(value, close, after);
  }

  /** Extraction finds the value of the first such element up to its closing tag: whole if and only if it does not contain that. */
  lemma ExtractField(before: seq<Token>, indent: string, e: Element, value: string, after: string)
    requires e != ListBucketResult && Clean(before, Open(e)) && Without(before, Open(e)) && '<' !in indent
    ensures var r := ExtractValue(Render(before) + FieldText(indent, e, value) + after, ElementName(e));
            r == Some(Cut(value, MarkText(Close(e)))) && (r == Some(value) <==> FreeOf(value, Close(e)))
  {
    CloseText(e);
    var xml := Render(before) + FieldText(indent, e, value) + after;
    var lead := before + [Text(indent)];
    FieldAfterText(before, indent, e, value, after);
    FindTag(lead, Open(e), value + MarkText(Close(e)) + after);
    MarkHeaded(Close(e));
    ExtractBetween(xml, ElementName(e), MarkText(Open(e)), MarkText(Close(e)), Render(lead), value, after);
  }

  lemma FieldAfterText(before: seq<Token>, indent: string, e: Element, value: string, after: string)
    ensures Render(before) + FieldText(indent, e, value) + after
         == Render(before + [Text(indent)]) + MarkText(Open(e)) + (value + MarkText(Close(e)) + after)
  {
    RenderAppend(before, [Text(indent)]);
    RenderText(indent);
    Regroup(Render(before), indent, MarkText(Open(e)), value, MarkText(Close(e)), after);
  }

  lemma RenderText(text: string)
    ensures Render([Text(text)]) == text
  {
    assert TokenTexts([Text(text)]) == [text];
    assert Flatten([text]) == text;
  }

  lemma Regroup(a: string, b: string, c: string, d: string, e: string, f: string)
    ensures a + (b + c + d + e) + f == (a + b) + c + (d + e + f)
  {}
}
