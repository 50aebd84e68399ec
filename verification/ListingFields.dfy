/**
  Every field of a printed listing can be read back by searching for its tags, so printing loses nothing: for
  `ListObjectsV2Response::to_xml` of cyxcloud-gateway/src/s3_api.rs, on texts without '<'.
*/
module ListingFields {
  import opened Wrappers
  import opened Sequences
  import opened Substrings
  import opened Markup
  import opened Listings
  import opened ListingReader

  // ---------- reading all values of an element ----------

  /** All texts between an opening and the next closing tag. */
  function AllValues(text: string, open: string, close: string): seq<string>
    requires close != []
    decreases |text|
  {
    match After(text, open)
    case None => []
    case Some(rest) =>
      match Find(rest, close)
      case None => []
      case Some(j) =>
        FindIsOccurrence(rest, close);
        FindIsOccurrence(text, open);
        [rest[..j]] + AllValues(rest[j + |close|..], open, close)
  }

  /** How often the pattern occurs, one occurrence after the other. */
  function CountOf(text: string, p: string): nat
    requires p != []
    decreases |text|
  {
    match After(text, p)
    case None => 0
    case Some(rest) => FindIsOccurrence(text, p); 1 + CountOf(rest, p)
  }

  lemma AfterShift(a: string, rest: string, p: string)
    requires Find(a + rest, p) == Shift(|a|, Find(rest, p))
    ensures After(a + rest, p) == After(rest, p)
  {
    FindIsOccurrence(rest, p);
    if Find(rest, p).Some? {
      var i := Find(rest, p).value + |p|;
      assert (a + rest)[|a| + i..] == rest[i..];
    }
  }

  lemma AfterHere(p: string, rest: string)
    ensures After(p + rest, p) == Some(rest)
  {
    FindHere(p, rest);
  }

  lemma ValuesTake(open: string, v: string, close: string, rest: string)
    requires close != [] && Find(v + (close + rest), close) == Some(|v|)
    ensures AllValues(open + (v + (close + rest)), open, close) == [v] + AllValues(rest, open, close)
  {
    AfterHere(open, v + (close + rest));
    TakeParts(v, close, rest);
    ValueAt(open + (v + (close + rest)), open, v + (close + rest), close, |v|, v, rest);
  }

  lemma TakeParts(v: string, close: string, rest: string)
    ensures var all := v + (close + rest); |v| + |close| <= |all| && all[..|v|] == v && all[|v| + |close|..] == rest
  {}

  lemma ValueAt(text: string, open: string, behind: string, close: string, j: nat, v: string, rest: string)
    requires close != [] && After(text, open) == Some(behind) && Find(behind, close) == Some(j) && j + |close| <= |behind|
    requires behind[..j] == v && behind[j + |close|..] == rest
    ensures AllValues(text, open, close) == [v] + AllValues(rest, open, close)
  {}

  // ---------- tokens ----------

  ghost predicate PlainTokens(ts: seq<Token>) { forall i | 0 <= i < |ts| && ts[i].Text? :: '<' !in ts[i].text }

  /** Every opening tag of the element is followed by one text and the closing tag. */
  ghost predicate Fielded(ts: seq<Token>, e: Element) {
    forall i | 0 <= i < |ts| && ts[i] == Tag(Open(e)) :: i + 2 < |ts| && ts[i + 1].Text? && ts[i + 2] == Tag(Close(e))
  }

  function FieldValues(ts: seq<Token>, e: Element): seq<string> {
    if ts == [] then []
    else if ts[0] == Tag(Open(e)) && |ts| > 2 && ts[1].Text? && ts[2] == Tag(Close(e)) then [ts[1].text] + FieldValues(ts[3..], e)
    else FieldValues(ts[1..], e)
  }

  function TagCount(ts: seq<Token>, m: Mark): nat {
    if ts == [] then 0 else (if ts[0] == Tag(m) then 1 else 0) + TagCount(ts[1..], m)
  }

  lemma SkipOne(t: Token, rest: string, m: Mark)
    requires Searchable(m) && t != Tag(m) && (t.Text? ==> '<' !in t.text)
    ensures After(TokenText(t) + rest, MarkText(m)) == After(rest, MarkText(m))
  {
    assert Render([t]) == TokenText(t) by {
      assert TokenTexts([t]) == [TokenText(t)];
      assert Flatten([TokenText(t)]) == TokenText(t);
    }
    SkipTokens([t], rest, m, MarkText(m));
    AfterShift(TokenText(t), rest, MarkText(m));
  }

  lemma TailPlain(ts: seq<Token>, e: Element, n: nat)
    requires n <= |ts| && PlainTokens(ts) && Fielded(ts, e)
    ensures PlainTokens(ts[n..]) && Fielded(ts[n..], e)
  {
    forall i | 0 <= i < |ts| - n && ts[n..][i] == Tag(Open(e))
      ensures i + 2 < |ts| - n && ts[n..][i + 1].Text? && ts[n..][i + 2] == Tag(Close(e))
    {
      assert ts[n + i] == Tag(Open(e));
    }
  }

  lemma PlainUntil(v: string, close: string, rest: string)
    requires '<' !in v && Headed(close) && close[0] == '<'
    ensures Find(v + (close + rest), close) == Some(|v|)
  {
    FindSkipText(v, close + rest, close);
    FindHere(close, rest);
  }

  /** Searching the rendered tokens finds the values of an element, all of them, in order. */
  lemma {:induction false} ValuesRead(ts: seq<Token>, e: Element)
    requires e != ListBucketResult && PlainTokens(ts) && Fielded(ts, e)
    ensures MarkText(Close(e)) != [] && AllValues(Render(ts), MarkText(Open(e)), MarkText(Close(e))) == FieldValues(ts, e)
    decreases |ts|
  {
    if ts == [] {
      NothingIn(MarkText(Open(e)), MarkText(Close(e)));
    } else if ts[0] == Tag(Open(e)) {
      TailPlain(ts, e, 3);
      ValuesRead(ts[3..], e);
      ReadField(ts, e, MarkText(Open(e)), MarkText(Close(e)));
    } else {
      TailPlain(ts, e, 1);
      ValuesRead(ts[1..], e);
      ReadOther(ts, e, MarkText(Open(e)), MarkText(Close(e)));
    }
  }

  lemma ReadField(ts: seq<Token>, e: Element, open: string, close: string)
    requires open == MarkText(Open(e)) && close == MarkText(Close(e)) && close != [] && PlainTokens(ts)
    requires |ts| > 2 && ts[0] == Tag(Open(e)) && ts[1].Text? && ts[2] == Tag(Close(e))
    ensures AllValues(Render(ts), open, close) == [ts[1].text] + AllValues(Render(ts[3..]), open, close)
  {
    ThreeTokens(ts);
    MarkHeaded(Close(e));
    PlainUntil(ts[1].text, close, Render(ts[3..]));
    ValuesTake(open, ts[1].text, close, Render(ts[3..]));
  }

  lemma ReadOther(ts: seq<Token>, e: Element, open: string, close: string)
    requires e != ListBucketResult && open == MarkText(Open(e)) && close == MarkText(Close(e)) && close != [] && PlainTokens(ts)
    requires ts != [] && ts[0] != Tag(Open(e))
    ensures AllValues(Render(ts), open, close) == AllValues(Render(ts[1..]), open, close)
  {
    RenderCons(ts);
    SkipSame(ts[0], Render(ts), Render(ts[1..]), Open(e), open);
    ValuesSame(Render(ts), Render(ts[1..]), open, close);
  }

  lemma SkipSame(t: Token, text: string, rest: string, m: Mark, p: string)
    requires Searchable(m) && p == MarkText(m) && t != Tag(m) && (t.Text? ==> '<' !in t.text) && text == TokenText(t) + rest
    ensures After(text, p) == After(rest, p)
  {
    SkipOne(t, rest, m);
  }

  lemma ValuesSame(a: string, b: string, open: string, close: string)
    requires close != [] && After(a, open) == After(b, open)
    ensures AllValues(a, open, close) == AllValues(b, open, close)
  {}

  lemma NothingIn(open: string, close: string)
    requires open != [] && close != []
    ensures AllValues(Render([]), open, close) == [] && CountOf(Render([]), open) == 0
  {
    assert Render([]) == "";
    assert Find("", open) == None;
  }

  lemma ThreeTokens(ts: seq<Token>)
    requires |ts| > 2
    ensures Render(ts) == TokenText(ts[0]) + (TokenText(ts[1]) + (TokenText(ts[2]) + Render(ts[3..])))
  {
    RenderCons(ts);
    RenderCons(ts[1..]);
    assert ts[1..][1..] == ts[2..];
    RenderCons(ts[2..]);
    assert ts[2..][1..] == ts[3..];
  }

  /** And counts its tags. */
  lemma {:induction false} TagsCounted(ts: seq<Token>, m: Mark)
    requires Searchable(m) && PlainTokens(ts)
    ensures MarkText(m) != [] && CountOf(Render(ts), MarkText(m)) == TagCount(ts, m)
    decreases |ts|
  {
    if ts == [] {
      NothingIn(MarkText(m), MarkText(m));
    } else {
      forall i | 0 <= i < |ts[1..]| && ts[1..][i].Text? ensures '<' !in ts[1..][i].text { assert ts[1..][i] == ts[i + 1]; }
      TagsCounted(ts[1..], m);
      RenderCons(ts);
      if ts[0] == Tag(m) {
        AfterHere(MarkText(m), Render(ts[1..]));
      } else {
        SkipOne(ts[0], Render(ts[1..]), m);
      }
    }
  }

  // ---------- putting tokens together ----------

  lemma PlainAppend(a: seq<Token>, b: seq<Token>, e: Element)
    requires PlainTokens(a) && PlainTokens(b) && Fielded(a, e) && Fielded(b, e)
    ensures PlainTokens(a + b) && Fielded(a + b, e)
  {
    var ts := a + b;
    forall i | 0 <= i < |ts| && ts[i] == Tag(Open(e)) ensures i + 2 < |ts| && ts[i + 1].Text? && ts[i + 2] == Tag(Close(e)) {
      if i < |a| { assert a[i] == Tag(Open(e)); } else { assert b[i - |a|] == Tag(Open(e)); }
    }
  }

  lemma {:induction false} ValuesAppend(a: seq<Token>, b: seq<Token>, e: Element)
    requires Fielded(a, e)
    ensures FieldValues(a + b, e) == FieldValues(a, e) + FieldValues(b, e)
    decreases |a|
  {
    if a == [] {
      assert a + b == b;
    } else if a[0] == Tag(Open(e)) {
      assert (a + b)[3..] == a[3..] + b && (a + b)[1] == a[1] && (a + b)[2] == a[2];
      FieldedTail(a, e, 3);
      ValuesAppend(a[3..], b, e);
    } else {
      assert (a + b)[1..] == a[1..] + b;
      FieldedTail(a, e, 1);
      ValuesAppend(a[1..], b, e);
    }
  }

  lemma FieldedTail(a: seq<Token>, e: Element, n: nat)
    requires n <= |a| && Fielded(a, e)
    ensures Fielded(a[n..], e)
  {
    forall i | 0 <= i < |a| - n && a[n..][i] == Tag(Open(e)) ensures i + 2 < |a| - n && a[n..][i + 1].Text? && a[n..][i + 2] == Tag(Close(e)) {
      assert a[n + i] == Tag(Open(e));
    }
  }

  lemma {:induction false} CountAppend(a: seq<Token>, b: seq<Token>, m: Mark)
    ensures TagCount(a + b, m) == TagCount(a, m) + TagCount(b, m)
  {
    if a == [] {
      assert a + b == b;
    } else {
      assert (a + b)[1..] == a[1..] + b;
      CountAppend(a[1..], b, m);
    }
  }

  /** What a piece of the listing contributes for an element, and that it can stand anywhere. */
  ghost predicate Contributes(ts: seq<Token>, e: Element, values: seq<string>, groups: nat) {
    PlainTokens(ts) && Fielded(ts, e) && FieldValues(ts, e) == values && TagCount(ts, Open(CommonPrefixes)) == groups
  }

  lemma Both(a: seq<Token>, b: seq<Token>, e: Element, x: seq<string>, y: seq<string>, g: nat, h: nat)
    requires Contributes(a, e, x, g) && Contributes(b, e, y, h)
    ensures Contributes(a + b, e, x + y, g + h)
  {
    PlainAppend(a, b, e);
    ValuesAppend(a, b, e);
    CountAppend(a, b, Open(CommonPrefixes));
  }

  lemma Passed(t: Token, rest: seq<Token>, e: Element, m: Mark)
    requires t != Tag(Open(e))
    ensures FieldValues([t] + rest, e) == FieldValues(rest, e)
    ensures TagCount([t] + rest, m) == (if t == Tag(m) then 1 else 0) + TagCount(rest, m)
  {
    assert ([t] + rest)[1..] == rest;
  }

  lemma OneField(indent: string, f: Element, v: string, e: Element)
    requires '<' !in indent && '<' !in v && f != CommonPrefixes
    ensures Contributes(Field(indent, f, v), e, Pick(f, e, v), 0)
  {
    var m := Open(CommonPrefixes);
    var close := [Tag(Close(f))];
    var text, all := [Text(v)] + close, [Tag(Open(f))] + ([Text(v)] + close);
    Passed(Tag(Close(f)), [], e, m);
    assert [Tag(Close(f))] + [] == close;
    Passed(Text(v), close, e, m);
    if f == e {
      assert all[1].text == v && all[2] == Tag(Close(e)) && all[3..] == [];
      assert all[1..] == text;
    } else {
      Passed(Tag(Open(f)), text, e, m);
    }
    Passed(Text(indent), all, e, m);
    assert Field(indent, f, v) == [Text(indent)] + all;
  }

  lemma OnePair(text: string, m: Mark, e: Element)
    requires '<' !in text && m != Open(e)
    ensures Contributes([Text(text), Tag(m)], e, [], if m == Open(CommonPrefixes) then 1 else 0)
  {
    Passed(Tag(m), [], e, Open(CommonPrefixes));
    assert [Tag(m)] + [] == [Tag(m)];
    Passed(Text(text), [Tag(m)], e, Open(CommonPrefixes));
    assert [Text(text), Tag(m)] == [Text(text)] + [Tag(m)];
  }

  function Pick(f: Element, e: Element, v: string): seq<string> { if f == e then [v] else [] }

  lemma Three(a: seq<Token>, b: seq<Token>, c: seq<Token>, e: Element, x: seq<string>, y: seq<string>, z: seq<string>, g: nat, h: nat, i: nat)
    requires Contributes(a, e, x, g) && Contributes(b, e, y, h) && Contributes(c, e, z, i)
    ensures Contributes(a + b + c, e, x + y + z, g + h + i)
  {
    Both(a, b, e, x, y, g, h);
    Both(a + b, c, e, x + y, z, g + h, i);
  }

  lemma Nothing(e: Element)
    ensures Contributes([], e, [], 0)
  {}

  // ---------- the listing as one sequence of tokens ----------

  function ObjectTokens(contents: seq<ObjectInfo>): seq<Token> {
    if contents == [] then []
    else [Text(INDENT), Tag(Open(Contents))] + BlockFields(contents[0]) + [Text(INDENT), Tag(Close(Contents))] + ObjectTokens(contents[1..])
  }

  function AllTokens(l: Listing): seq<Token> { FullHead(l) + (ObjectTokens(l.contents) + TailTokens(l)) }

  lemma {:induction false} RenderObjects(contents: seq<ObjectInfo>)
    ensures Render(ObjectTokens(contents)) == ObjectsText(contents)
  {
    if contents != [] {
      var o, open, close := contents[0], [Text(INDENT), Tag(Open(Contents))], [Text(INDENT), Tag(Close(Contents))];
      RenderObjects(contents[1..]);
      RenderPair(INDENT, Open(Contents));
      RenderPair(INDENT, Close(Contents));
      RenderAppend(open, BlockFields(o));
      RenderAppend(open + BlockFields(o), close);
      RenderAppend(open + BlockFields(o) + close, ObjectTokens(contents[1..]));
      RegroupTokens(INDENT, MarkText(Open(Contents)), Render(BlockFields(o)), INDENT + MarkText(Close(Contents)), ObjectsText(contents[1..]));
    }
  }

  lemma RegroupTokens(indent: string, open: string, fields: string, close: string, more: string)
    ensures (indent + open) + fields + close + more == indent + (open + fields + close) + more
  {}

  lemma XmlTokens(l: Listing)
    ensures Xml(l) == Render(AllTokens(l))
  {
    XmlParts(l);
    RenderObjects(l.contents);
    RenderAppend(ObjectTokens(l.contents), TailTokens(l));
    RenderAppend(FullHead(l), ObjectTokens(l.contents) + TailTokens(l));
  }

  ghost predicate PlainObject(o: ObjectInfo) {
    '<' !in o.key && '<' !in o.lastModified && '<' !in o.etag && '<' !in o.storageClass
  }

  /** No text of the listing contains '<'. */
  ghost predicate PlainListing(l: Listing) {
    && '<' !in l.name && (l.prefix.Some? ==> '<' !in l.prefix.value) && (l.nextToken.Some? ==> '<' !in l.nextToken.value)
    && (forall i | 0 <= i < |l.contents| :: PlainObject(l.contents[i]))
    && (forall i | 0 <= i < |l.commonPrefixes| :: '<' !in l.commonPrefixes[i])
  }

  /** The elements that hold a value. */
  predicate HoldsValue(e: Element) { e != Contents && e != CommonPrefixes && e != ListBucketResult }

  function OfObject(o: ObjectInfo, e: Element): seq<string> {
    match e
    case Key => [o.key]
    case LastModified => [o.lastModified]
    case ETag => [o.etag]
    case Size => [NatText(o.size)]
    case StorageClass => [o.storageClass]
    case _ => []
  }

  function OfObjects(contents: seq<ObjectInfo>, e: Element): seq<string> {
    if contents == [] then [] else OfObject(contents[0], e) + OfObjects(contents[1..], e)
  }

  function OfOption(v: Option<string>): seq<string> { match v case None => [] case Some(s) => [s] }

  /** The values a listing has for an element. */
  function Values(l: Listing, e: Element): seq<string> {
    match e
    case Name => [l.name]
    case Prefix => OfOption(l.prefix) + l.commonPrefixes
    case MaxKeys => [IntText(l.maxKeys)]
    case IsTruncated => [BoolText(l.isTruncated)]
    case KeyCount => [IntText(l.keyCount)]
    case NextContinuationToken => OfOption(l.nextToken)
    case _ => OfObjects(l.contents, e)
  }

  lemma OneBlock(o: ObjectInfo, e: Element)
    requires PlainObject(o) && HoldsValue(e)
    ensures Contributes(BlockFields(o), e, OfObject(o, e), 0)
  {
    var k, m, t, z, c := Pick(Key, e, o.key), Pick(LastModified, e, o.lastModified), Pick(ETag, e, o.etag), Pick(Size, e, NatText(o.size)), Pick(StorageClass, e, o.storageClass);
    FirstFields(o, e);
    LastFields(o, e);
    Three(KeyField(o) + DateField(o) + TagField(o), SizeField(o), ClassField(o), e, k + m + t, z, c, 0, 0, 0);
    PicksAre(o, e);
    FieldsAre(o);
  }

  lemma PicksAre(o: ObjectInfo, e: Element)
    requires HoldsValue(e)
    ensures Pick(Key, e, o.key) + Pick(LastModified, e, o.lastModified) + Pick(ETag, e, o.etag) + Pick(Size, e, NatText(o.size)) + Pick(StorageClass, e, o.storageClass)
         == OfObject(o, e)
  {}

  lemma FieldsAre(o: ObjectInfo)
    ensures BlockFields(o) == KeyField(o) + DateField(o) + TagField(o) + SizeField(o) + ClassField(o)
  {}

  lemma FirstFields(o: ObjectInfo, e: Element)
    requires PlainObject(o)
    ensures Contributes(KeyField(o) + DateField(o) + TagField(o), e, Pick(Key, e, o.key) + Pick(LastModified, e, o.lastModified) + Pick(ETag, e, o.etag), 0)
  {
    OneField(DEEP, Key, o.key, e);
    OneField(DEEP, LastModified, o.lastModified, e);
    OneField(DEEP, ETag, o.etag, e);
    Three(KeyField(o), DateField(o), TagField(o), e, Pick(Key, e, o.key), Pick(LastModified, e, o.lastModified), Pick(ETag, e, o.etag), 0, 0, 0);
  }

  lemma LastFields(o: ObjectInfo, e: Element)
    requires PlainObject(o)
    ensures Contributes(SizeField(o), e, Pick(Size, e, NatText(o.size)), 0) && Contributes(ClassField(o), e, Pick(StorageClass, e, o.storageClass), 0)
  {
    NatTextPlain(o.size);
    OneField(DEEP, Size, NatText(o.size), e);
    OneField(DEEP, StorageClass, o.storageClass, e);
  }

  lemma NatTextPlain(n: nat)
    ensures '<' !in NatText(n)
  {
    IntTextClean(n);
  }

  lemma {:induction false} ObjectValues(contents: seq<ObjectInfo>, e: Element)
    requires HoldsValue(e) && forall i | 0 <= i < |contents| :: PlainObject(contents[i])
    ensures Contributes(ObjectTokens(contents), e, OfObjects(contents, e), 0)
  {
    if contents == [] {
      Nothing(e);
    } else {
      var o, open, close := contents[0], [Text(INDENT), Tag(Open(Contents))], [Text(INDENT), Tag(Close(Contents))];
      ObjectValues(contents[1..], e);
      OneBlock(o, e);
      OnePair(INDENT, Open(Contents), e);
      OnePair(INDENT, Close(Contents), e);
      Three(open, BlockFields(o), close, e, [], OfObject(o, e), [], 0, 0, 0);
      Both(open + BlockFields(o) + close, ObjectTokens(contents[1..]), e, [] + OfObject(o, e) + [], OfObjects(contents[1..], e), 0, 0);
      assert [] + OfObject(o, e) + [] == OfObject(o, e);
    }
  }

  lemma {:induction false} PrefixValues(prefixes: seq<string>, e: Element)
    requires HoldsValue(e) && forall i | 0 <= i < |prefixes| :: '<' !in prefixes[i]
    ensures Contributes(PrefixTokens(prefixes), e, if e == Prefix then prefixes else [], |prefixes|)
  {
    if prefixes == [] {
      Nothing(e);
    } else {
      var p, open, close := prefixes[0], [Text(INDENT), Tag(Open(CommonPrefixes))], [Text(INDENT), Tag(Close(CommonPrefixes))];
      var rest := if e == Prefix then prefixes[1..] else [];
      PrefixValues(prefixes[1..], e);
      OneGroup(p, e);
      Both(open + Field(DEEP, Prefix, p) + close, PrefixTokens(prefixes[1..]), e, Pick(Prefix, e, p), rest, 1, |prefixes| - 1);
      assert Pick(Prefix, e, p) + rest == if e == Prefix then prefixes else [];
    }
  }

  lemma OneGroup(p: string, e: Element)
    requires HoldsValue(e) && '<' !in p
    ensures Contributes([Text(INDENT), Tag(Open(CommonPrefixes))] + Field(DEEP, Prefix, p) + [Text(INDENT), Tag(Close(CommonPrefixes))], e, Pick(Prefix, e, p), 1)
  {
    var open, close := [Text(INDENT), Tag(Open(CommonPrefixes))], [Text(INDENT), Tag(Close(CommonPrefixes))];
    OneField(DEEP, Prefix, p, e);
    OnePair(INDENT, Open(CommonPrefixes), e);
    OnePair(INDENT, Close(CommonPrefixes), e);
    Three(open, Field(DEEP, Prefix, p), close, e, [], Pick(Prefix, e, p), [], 1, 0, 0);
    assert [] + Pick(Prefix, e, p) + [] == Pick(Prefix, e, p);
  }

  function OfHead(l: Listing, e: Element): seq<string> {
    match e
    case Name => [l.name]
    case Prefix => OfOption(l.prefix)
    case MaxKeys => [IntText(l.maxKeys)]
    case IsTruncated => [BoolText(l.isTruncated)]
    case KeyCount => [IntText(l.keyCount)]
    case _ => []
  }

  function PrefixPart(l: Listing): seq<Token> {
    match l.prefix case Some(p) => Field(INDENT, Prefix, p) case None => [Text(INDENT), Tag(EmptyPrefix)]
  }

  lemma StartPart(e: Element)
    requires HoldsValue(e)
    ensures Contributes([Tag(Declaration), Text("\n"), Tag(Open(ListBucketResult))], e, [], 0)
  {
    var ts := [Text("\n"), Tag(Open(ListBucketResult))];
    OnePair("\n", Open(ListBucketResult), e);
    Passed(Tag(Declaration), ts, e, Open(CommonPrefixes));
    assert [Tag(Declaration), Text("\n"), Tag(Open(ListBucketResult))] == [Tag(Declaration)] + ts;
  }

  lemma HeadValues(l: Listing, e: Element)
    requires HoldsValue(e) && PlainListing(l)
    ensures Contributes(FullHead(l), e, OfHead(l, e), 0)
  {
    var m := Field(INDENT, MaxKeys, IntText(l.maxKeys));
    var t, k := Field(INDENT, IsTruncated, BoolText(l.isTruncated)), Field(INDENT, KeyCount, IntText(l.keyCount));
    var front := [Tag(Declaration), Text("\n"), Tag(Open(ListBucketResult))] + Field(INDENT, Name, l.name) + PrefixPart(l);
    var vf, vm, vt, vk := OfFront(l, e), Pick(MaxKeys, e, IntText(l.maxKeys)), Pick(IsTruncated, e, BoolText(l.isTruncated)), Pick(KeyCount, e, IntText(l.keyCount));
    FrontValues(l, e);
    CountValues(l, e);
    Both(front, m, e, vf, vm, 0, 0);
    Three(front + m, t, k, e, vf + vm, vt, vk, 0, 0, 0);
    assert vf + vm + vt + vk == OfHead(l, e);
  }

  function OfFront(l: Listing, e: Element): seq<string> { if e == Name then [l.name] else if e == Prefix then OfOption(l.prefix) else [] }

  lemma FrontValues(l: Listing, e: Element)
    requires HoldsValue(e) && PlainListing(l)
    ensures Contributes([Tag(Declaration), Text("\n"), Tag(Open(ListBucketResult))] + Field(INDENT, Name, l.name) + PrefixPart(l), e, OfFront(l, e), 0)
  {
    var start := [Tag(Declaration), Text("\n"), Tag(Open(ListBucketResult))];
    var vp := if e == Prefix then OfOption(l.prefix) else [];
    StartPart(e);
    OneField(INDENT, Name, l.name, e);
    PrefixPartValues(l, e);
    Three(start, Field(INDENT, Name, l.name), PrefixPart(l), e, [], Pick(Name, e, l.name), vp, 0, 0, 0);
    assert [] + Pick(Name, e, l.name) + vp == OfFront(l, e);
  }

  lemma CountValues(l: Listing, e: Element)
    ensures Contributes(Field(INDENT, MaxKeys, IntText(l.maxKeys)), e, Pick(MaxKeys, e, IntText(l.maxKeys)), 0)
    ensures Contributes(Field(INDENT, IsTruncated, BoolText(l.isTruncated)), e, Pick(IsTruncated, e, BoolText(l.isTruncated)), 0)
    ensures Contributes(Field(INDENT, KeyCount, IntText(l.keyCount)), e, Pick(KeyCount, e, IntText(l.keyCount)), 0)
  {
    IntTextClean(l.maxKeys);
    IntTextClean(l.keyCount);
    OneField(INDENT, MaxKeys, IntText(l.maxKeys), e);
    OneField(INDENT, IsTruncated, BoolText(l.isTruncated), e);
    OneField(INDENT, KeyCount, IntText(l.keyCount), e);
  }

  lemma PrefixPartValues(l: Listing, e: Element)
    requires HoldsValue(e) && PlainListing(l)
    ensures Contributes(PrefixPart(l), e, if e == Prefix then OfOption(l.prefix) else [], 0)
  {
    match l.prefix
    case Some(p) => OneField(INDENT, Prefix, p, e);
    case None => OnePair(INDENT, EmptyPrefix, e);
  }

  function OfTail(l: Listing, e: Element): seq<string> {
    if e == Prefix then l.commonPrefixes else if e == NextContinuationToken then OfOption(l.nextToken) else []
  }

  lemma TailValues(l: Listing, e: Element)
    requires HoldsValue(e) && PlainListing(l)
    ensures Contributes(TailTokens(l), e, OfTail(l, e), |l.commonPrefixes|)
  {
    var prefixes, end := PrefixTokens(l.commonPrefixes), [Text("\n"), Tag(Close(ListBucketResult))];
    var token := match l.nextToken case Some(t) => Field(INDENT, NextContinuationToken, t) case None => [];
    var vp, vt := if e == Prefix then l.commonPrefixes else [], if e == NextContinuationToken then OfOption(l.nextToken) else [];
    PrefixValues(l.commonPrefixes, e);
    match l.nextToken { case Some(t) => OneField(INDENT, NextContinuationToken, t, e); case None => Nothing(e); }
    OnePair("\n", Close(ListBucketResult), e);
    Three(prefixes, token, end, e, vp, vt, [], |l.commonPrefixes|, 0, 0);
    assert vp + vt + [] == OfTail(l, e);
  }

  /** Searching a printed listing for an element gives exactly the listing's values for it, in order, and one group for each common prefix. */
  lemma FieldsReadBack(l: Listing, e: Element)
    requires HoldsValue(e) && PlainListing(l)
    ensures MarkText(Close(e)) != [] && AllValues(Xml(l), MarkText(Open(e)), MarkText(Close(e))) == Values(l, e)
    ensures MarkText(Open(CommonPrefixes)) != [] && CountOf(Xml(l), MarkText(Open(CommonPrefixes))) == |l.commonPrefixes|
  {
    TokenValues(l, AllTokens(l), e);
    XmlTokens(l);
    ReadTokens(AllTokens(l), e, Values(l, e), |l.commonPrefixes|);
  }

  lemma ReadTokens(ts: seq<Token>, e: Element, values: seq<string>, groups: nat)
    requires e != ListBucketResult && Contributes(ts, e, values, groups)
    ensures MarkText(Close(e)) != [] && AllValues(Render(ts), MarkText(Open(e)), MarkText(Close(e))) == values
    ensures MarkText(Open(CommonPrefixes)) != [] && CountOf(Render(ts), MarkText(Open(CommonPrefixes))) == groups
  {
    ValuesRead(ts, e);
    TagsCounted(ts, Open(CommonPrefixes));
  }

  lemma TokenValues(l: Listing, ts: seq<Token>, e: Element)
    requires HoldsValue(e) && PlainListing(l) && ts == AllTokens(l)
    ensures Contributes(ts, e, Values(l, e), |l.commonPrefixes|)
  {
    HeadValues(l, e);
    ObjectValues(l.contents, e);
    TailValues(l, e);
    Both(ObjectTokens(l.contents), TailTokens(l), e, OfObjects(l.contents, e), OfTail(l, e), 0, |l.commonPrefixes|);
    Both(FullHead(l), ObjectTokens(l.contents) + TailTokens(l), e, OfHead(l, e), OfObjects(l.contents, e) + OfTail(l, e), 0, |l.commonPrefixes|);
    ValuesAre(l, e);
  }

  lemma ValuesAre(l: Listing, e: Element)
    requires HoldsValue(e)
    ensures OfHead(l, e) + (OfObjects(l.contents, e) + OfTail(l, e)) == Values(l, e)
  {
    NotOfObjects(l.contents, e);
  }

  lemma {:induction false} NotOfObjects(contents: seq<ObjectInfo>, e: Element)
    ensures e !in {Key, LastModified, ETag, Size, StorageClass} ==> OfObjects(contents, e) == []
  {
    if contents != [] { NotOfObjects(contents[1..], e); }
  }

  // ---------- nothing is lost ----------

  lemma {:induction false} ObjectsFromValues(a: seq<ObjectInfo>, b: seq<ObjectInfo>)
    requires OfObjects(a, Key) == OfObjects(b, Key) && OfObjects(a, LastModified) == OfObjects(b, LastModified) && OfObjects(a, ETag) == OfObjects(b, ETag)
    requires OfObjects(a, Size) == OfObjects(b, Size) && OfObjects(a, StorageClass) == OfObjects(b, StorageClass)
    ensures a == b
  {
    ValueCount(a);
    ValueCount(b);
    if a != [] {
      FirstValue(a, b, Key);
      FirstValue(a, b, LastModified);
      FirstValue(a, b, ETag);
      FirstValue(a, b, Size);
      FirstValue(a, b, StorageClass);
      NatTextInjective(a[0].size, b[0].size);
      assert a[0] == b[0];
      ObjectsFromValues(a[1..], b[1..]);
      assert a == [a[0]] + a[1..] && b == [b[0]] + b[1..];
    }
  }

  lemma {:induction false} ValueCount(a: seq<ObjectInfo>)
    ensures |OfObjects(a, Key)| == |a|
  {
    if a != [] { ValueCount(a[1..]); }
  }

  lemma FirstValue(a: seq<ObjectInfo>, b: seq<ObjectInfo>, e: Element)
    requires a != [] && b != [] && e in {Key, LastModified, ETag, Size, StorageClass} && OfObjects(a, e) == OfObjects(b, e)
    ensures OfObject(a[0], e) == OfObject(b[0], e) && OfObjects(a[1..], e) == OfObjects(b[1..], e)
  {
    assert OfObjects(a, e)[0] == OfObject(a[0], e)[0] && OfObjects(b, e)[0] == OfObject(b[0], e)[0];
    assert OfObjects(a, e)[1..] == OfObjects(a[1..], e) && OfObjects(b, e)[1..] == OfObjects(b[1..], e);
  }

  lemma NatTextInjective(a: nat, b: nat)
    requires [NatText(a)] == [NatText(b)]
    ensures a == b
  {
    assert [NatText(a)][0] == [NatText(b)][0];
    NatTextDigits(a);
    NatTextDigits(b);
  }

  lemma IntTextInjective(a: int, b: int)
    requires IntText(a) == IntText(b)
    ensures a == b
  {
    var x, y := if a < 0 then -a else a, if b < 0 then -b else b;
    NatTextDigits(x);
    NatTextDigits(y);
    assert NatText(x)[0] in NatText(x) && NatText(y)[0] in NatText(y);
    if a < 0 { assert IntText(a)[0] == '-' && IntText(a)[1..] == NatText(x); }
    if b < 0 { assert IntText(b)[0] == '-' && IntText(b)[1..] == NatText(y); }
  }

  lemma SameValues(l: Listing, m: Listing, e: Element)
    requires PlainListing(l) && PlainListing(m) && Xml(l) == Xml(m) && HoldsValue(e)
    ensures Values(l, e) == Values(m, e) && |l.commonPrefixes| == |m.commonPrefixes|
  {
    FieldsReadBack(l, e);
    FieldsReadBack(m, e);
  }

  /** Two listings that print the same are the same. */
  lemma PrintingLosesNothing(l: Listing, m: Listing)
    requires PlainListing(l) && PlainListing(m) && Xml(l) == Xml(m)
    ensures l == m
  {
    SameHead(l, m);
    SamePrefixes(l, m);
    SameObjects(l, m);
  }

  lemma SameHead(l: Listing, m: Listing)
    requires PlainListing(l) && PlainListing(m) && Xml(l) == Xml(m)
    ensures l.name == m.name && l.maxKeys == m.maxKeys && l.isTruncated == m.isTruncated && l.keyCount == m.keyCount && l.nextToken == m.nextToken
  {
    SameTexts(l, m);
    SameNumbers(l, m);
  }

  lemma SameTexts(l: Listing, m: Listing)
    requires PlainListing(l) && PlainListing(m) && Xml(l) == Xml(m)
    ensures l.name == m.name && l.nextToken == m.nextToken
  {
    SameValues(l, m, Name);
    SameValues(l, m, NextContinuationToken);
    SameFirst(l.name, m.name);
    SameOption(l.nextToken, m.nextToken);
  }

  lemma SameNumbers(l: Listing, m: Listing)
    requires PlainListing(l) && PlainListing(m) && Xml(l) == Xml(m)
    ensures l.maxKeys == m.maxKeys && l.isTruncated == m.isTruncated && l.keyCount == m.keyCount
  {
    SameValues(l, m, MaxKeys);
    SameValues(l, m, IsTruncated);
    SameValues(l, m, KeyCount);
    SameFirst(IntText(l.maxKeys), IntText(m.maxKeys));
    SameFirst(BoolText(l.isTruncated), BoolText(m.isTruncated));
    SameFirst(IntText(l.keyCount), IntText(m.keyCount));
    IntTextInjective(l.maxKeys, m.maxKeys);
    IntTextInjective(l.keyCount, m.keyCount);
  }

  lemma SameFirst(a: string, b: string)
    ensures [a] == [b] ==> a == b
  {
    assert [a][0] == a && [b][0] == b;
  }

  lemma SameOption(a: Option<string>, b: Option<string>)
    requires OfOption(a) == OfOption(b)
    ensures a == b
  {
    if a.Some? && b.Some? { SameFirst(a.value, b.value); }
    assert |OfOption(a)| == |OfOption(b)|;
  }

  lemma SamePrefixes(l: Listing, m: Listing)
    requires PlainListing(l) && PlainListing(m) && Xml(l) == Xml(m)
    ensures l.prefix == m.prefix && l.commonPrefixes == m.commonPrefixes
  {
    SameValues(l, m, Prefix);
    var a, b := OfOption(l.prefix), OfOption(m.prefix);
    assert |a + l.commonPrefixes| == |b + m.commonPrefixes|;
    assert (a + l.commonPrefixes)[..|a|] == a && (b + m.commonPrefixes)[..|b|] == b;
    assert (a + l.commonPrefixes)[|a|..] == l.commonPrefixes && (b + m.commonPrefixes)[|b|..] == m.commonPrefixes;
    SameOption(l.prefix, m.prefix);
  }

  lemma SameOfObjects(l: Listing, m: Listing, e: Element)
    requires PlainListing(l) && PlainListing(m) && Xml(l) == Xml(m) && e in {Key, LastModified, ETag, Size, StorageClass}
    ensures OfObjects(l.contents, e) == OfObjects(m.contents, e)
  {
    SameValues(l, m, e);
  }

  lemma SameObjects(l: Listing, m: Listing)
    requires PlainListing(l) && PlainListing(m) && Xml(l) == Xml(m)
    ensures l.contents == m.contents
  {
    SameOfObjects(l, m, Key);
    SameOfObjects(l, m, LastModified);
    SameOfObjects(l, m, ETag);
    SameOfObjects(l, m, Size);
    SameOfObjects(l, m, StorageClass);
    ObjectsFromValues(l.contents, m.contents);
  }
}
