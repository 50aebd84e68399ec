/** Printing a bucket listing as XML: `ListObjectsV2Response::to_xml` of cyxcloud-gateway/src/s3_api.rs. */
module Listings {
  import opened Wrappers
  import opened Sequences
  import opened Bytes
  import opened Markup

  type u64 = n: nat | n < U64_LIMIT

  datatype ObjectInfo = ObjectInfo(key: string, lastModified: string, etag: string, size: u64, storageClass: string)

  datatype Listing = Listing(name: string, prefix: Option<string>, maxKeys: int, isTruncated: bool, keyCount: int,
                             contents: seq<ObjectInfo>, commonPrefixes: seq<string>, nextToken: Option<string>)

  // ---------- numbers ----------

  function DigitChar(d: nat): char
    requires d < 10
  {
    ('0' as int + d) as char
  }

  function NatText(n: nat): (s: string)
    ensures s != []
  {
    if n < 10 then [DigitChar(n)] else NatText(n / 10) + [DigitChar(n % 10)]
  }

  function IntText(n: int): string {
    if n < 0 then "-" + NatText(-n) else NatText(n)
  }

  function BoolText(b: bool): string { if b then "true" else "false" }

  predicate IsDigit(c: char) { '0' <= c <= '9' }

  /** The value of a string of digits. */
  function DigitsValue(s: string): Option<nat> {
    if s == [] then Some(0)
    else
      var last := s[|s| - 1];
      match DigitsValue(s[..|s| - 1])
      case None => None
      case Some(v) => if IsDigit(last) then Some(10 * v + (last as int - '0' as int)) else None
  }

  /** Parsing an unsigned 64-bit number: digits after an optional plus sign. */
  function ParseU64(s: string): Option<nat> {
    var digits := if |s| > 1 && s[0] == '+' then s[1..] else s;
    if digits == [] then None
    else match DigitsValue(digits)
         case None => None
         case Some(v) => if v < U64_LIMIT then Some(v) else None
  }

  lemma {:induction false} NatTextDigits(n: nat)
    ensures DigitsValue(NatText(n)) == Some(n)
    ensures forall c | c in NatText(n) :: IsDigit(c)
  {
    if n >= 10 {
      NatTextDigits(n / 10);
      var s := NatText(n / 10);
      assert NatText(n)[..|s|] == s;
    } else {
      assert NatText(n)[..0] == [];
    }
  }

  lemma ParseNatText(n: nat)
    requires n < U64_LIMIT
    ensures ParseU64(NatText(n)) == Some(n)
  {
    NatTextDigits(n);
    assert NatText(n)[0] in NatText(n);
  }

  lemma {:induction false} DigitsAll(s: string)
    ensures DigitsValue(s).Some? <==> forall i | 0 <= i < |s| :: '0' <= s[i] <= '9'
  {
    if s != [] {
      var front, last := s[..|s| - 1], s[|s| - 1];
      DigitsAll(front);
      assert IsDigit(last) <==> '0' <= last <= '9';
      assert (forall i | 0 <= i < |s| :: '0' <= s[i] <= '9') <==> (forall i | 0 <= i < |front| :: '0' <= front[i] <= '9') && '0' <= last <= '9' by {
        forall i | 0 <= i < |front| ensures front[i] == s[i] {}
      }
    }
  }

  /** Digits are accepted with and without a plus sign, up to 64 bits; nothing else is. */
  lemma ParseExact(t: string)
    requires t != [] && t[0] != '+'
    ensures ParseU64(t) == ParseU64("+" + t)
    ensures ParseU64(t).Some? <==> (forall i | 0 <= i < |t| :: '0' <= t[i] <= '9') && DigitsValue(t).Some? && DigitsValue(t).value < 0x1_0000_0000_0000_0000
    ensures ParseU64(t).Some? ==> ParseU64(t) == DigitsValue(t)
    ensures ParseU64("") == None && ParseU64("+") == None && ParseU64("+" + ("+" + t)) == None
  {
    DigitsAll(t);
    DigitsAll("+");
    DigitsAll("+" + t);
    assert ("+" + t)[1..] == t && ("+" + ("+" + t))[1..] == "+" + t;
    assert "+"[0] == '+' && ("+" + t)[0] == '+';
  }

  lemma IntTextClean(n: int)
    ensures '<' !in IntText(n)
  {
    NatTextDigits(if n < 0 then -n else n);
  }

  // ---------- printing ----------

  const INDENT := "\n  "
  const DEEP := "\n    "

  function HeadTokens(l: Listing): seq<Token> {
    [Tag(Declaration), Text("\n"), Tag(Open(ListBucketResult))]
    + Field(INDENT, Name, l.name)
    + (match l.prefix case Some(p) => Field(INDENT, Prefix, p) case None => [Text(INDENT), Tag(EmptyPrefix)])
    + Field(INDENT, MaxKeys, IntText(l.maxKeys))
  }

  function BlockFields(o: ObjectInfo): seq<Token> {
    Field(DEEP, Key, o.key) + Field(DEEP, LastModified, o.lastModified) + Field(DEEP, ETag, o.etag)
    + Field(DEEP, Size, NatText(o.size)) + Field(DEEP, StorageClass, o.storageClass)
  }

  /** An object block without its surrounding tags' neighbours. */
  function BlockText(o: ObjectInfo): string {
    MarkText(Open(Contents)) + Render(BlockFields(o)) + (INDENT + MarkText(Close(Contents)))
  }

  function ObjectsText(objects: seq<ObjectInfo>): string {
    if objects == [] then "" else INDENT + BlockText(objects[0]) + ObjectsText(objects[1..])
  }

  function PrefixTokens(prefixes: seq<string>): seq<Token> {
    if prefixes == [] then []
    else [Text(INDENT), Tag(Open(CommonPrefixes))] + Field(DEEP, Prefix, prefixes[0])
         + [Text(INDENT), Tag(Close(CommonPrefixes))] + PrefixTokens(prefixes[1..])
  }

  function TailTokens(l: Listing): seq<Token> {
    PrefixTokens(l.commonPrefixes)
    + (match l.nextToken case Some(t) => Field(INDENT, NextContinuationToken, t) case None => [])
    + [Text("\n"), Tag(Close(ListBucketResult))]
  }

  function TruncatedText(l: Listing): string { FieldText(INDENT, IsTruncated, BoolText(l.isTruncated)) }

  function CountText(l: Listing): string { FieldText(INDENT, KeyCount, IntText(l.keyCount)) }

  /** The XML of a listing. */
  function Xml(l: Listing): string {
    Render(HeadTokens(l)) + TruncatedText(l) + CountText(l) + ObjectsText(l.contents) + Render(TailTokens(l))
  }

  method PrintHead(l: Listing) returns (xml: string)
    ensures xml == Render(HeadTokens(l))
  {
    xml := MarkText(Declaration) + "\n" + MarkText(Open(ListBucketResult)) + FieldText(INDENT, Name, l.name);
    match l.prefix {
      case Some(p) => xml := xml + FieldText(INDENT, Prefix, p);
      case None => xml := xml + (INDENT + MarkText(EmptyPrefix));
    }
    xml := xml + FieldText(INDENT, MaxKeys, IntText(l.maxKeys));
    RenderHead(l);
  }

  method PrintObject(obj: ObjectInfo) returns (block: string)
    ensures block == BlockText(obj)
  {
    block := MarkText(Open(Contents)) + FieldText(DEEP, Key, obj.key);
    block := block + FieldText(DEEP, LastModified, obj.lastModified);
    block := block + FieldText(DEEP, ETag, obj.etag);
    block := block + FieldText(DEEP, Size, NatText(obj.size));
    block := block + FieldText(DEEP, StorageClass, obj.storageClass);
    block := block + (INDENT + MarkText(Close(Contents)));
    RenderBlock(obj);
  }

  method PrintObjects(head: string, objects: seq<ObjectInfo>) returns (xml: string)
    ensures xml == head + ObjectsText(objects)
  {
    xml := head;
    for i := 0 to |objects|
      invariant xml + ObjectsText(objects[i..]) == head + ObjectsText(objects)
    {
      var block := PrintObject(objects[i]);
      assert objects[i..][0] == objects[i] && objects[i..][1..] == objects[i + 1..];
      NextObject(xml, block, objects[i..]);
      xml := xml + INDENT + block;
    }
    assert objects[|objects|..] == [];
  }

  method PrintPrefixes(head: string, prefixes: seq<string>) returns (xml: string)
    ensures xml == head + Render(PrefixTokens(prefixes))
  {
    xml := head;
    for i := 0 to |prefixes|
      invariant xml + Render(PrefixTokens(prefixes[i..])) == head + Render(PrefixTokens(prefixes))
    {
      assert prefixes[i..][1..] == prefixes[i + 1..];
      RenderPrefix(xml, prefixes[i..]);
      xml := xml + PrefixText(prefixes[i]);
    }
    assert prefixes[|prefixes|..] == [];
  }

  /** Prints a listing, part after part. */
  method ToXml(l: Listing) returns (xml: string)
    ensures xml == Xml(l)
  {
    var head := PrintHead(l);
    head := head + TruncatedText(l);
    head := head + CountText(l);
    var body := PrintObjects(head, l.contents);
    xml := PrintPrefixes(body, l.commonPrefixes);
    ghost var prefixes := Render(PrefixTokens(l.commonPrefixes));
    RenderTail(l, prefixes);
    var token := "";
    if l.nextToken.Some? {
      token := FieldText(INDENT, NextContinuationToken, l.nextToken.value);
    }
    var end := "\n" + MarkText(Close(ListBucketResult));
    xml := xml + token + end;
    Regroup4(body, prefixes, token, end);
  }

  lemma Regroup4(a: string, b: string, c: string, d: string)
    ensures a + b + c + d == a + (b + c + d)
  {}

  function PrefixText(prefix: string): string {
    INDENT + MarkText(Open(CommonPrefixes)) + FieldText(DEEP, Prefix, prefix) + INDENT + MarkText(Close(CommonPrefixes))
  }

  lemma NextObject(xml: string, block: string, objects: seq<ObjectInfo>)
    requires objects != [] && block == BlockText(objects[0])
    ensures xml + INDENT + block + ObjectsText(objects[1..]) == xml + ObjectsText(objects)
  {
    Regroup4(xml, INDENT, block, ObjectsText(objects[1..]));
  }

  lemma RenderPair(text: string, m: Mark)
    ensures Render([Text(text), Tag(m)]) == text + MarkText(m)
  {
    assert TokenTexts([Text(text), Tag(m)]) == [text, MarkText(m)];
    FlattenTwo(text, MarkText(m));
  }

  lemma RenderHead(l: Listing)
    ensures Render(HeadTokens(l)) ==
            MarkText(Declaration) + "\n" + MarkText(Open(ListBucketResult)) + FieldText(INDENT, Name, l.name)
            + (match l.prefix case Some(p) => FieldText(INDENT, Prefix, p) case None => INDENT + MarkText(EmptyPrefix))
            + FieldText(INDENT, MaxKeys, IntText(l.maxKeys))
  {
    var a := [Tag(Declaration), Text("\n"), Tag(Open(ListBucketResult))];
    var b := Field(INDENT, Name, l.name);
    var c := match l.prefix case Some(p) => Field(INDENT, Prefix, p) case None => [Text(INDENT), Tag(EmptyPrefix)];
    var d := Field(INDENT, MaxKeys, IntText(l.maxKeys));
    RenderStart();
    RenderField(INDENT, Name, l.name);
    match l.prefix { case Some(p) => RenderField(INDENT, Prefix, p); case None => RenderPair(INDENT, EmptyPrefix); }
    RenderField(INDENT, MaxKeys, IntText(l.maxKeys));
    RenderAppend(a, b);
    RenderAppend(a + b, c);
    RenderAppend(a + b + c, d);
  }

  lemma RenderStart()
    ensures Render([Tag(Declaration), Text("\n"), Tag(Open(ListBucketResult))])
         == MarkText(Declaration) + "\n" + MarkText(Open(ListBucketResult))
  {
    RenderPair("\n", Open(ListBucketResult));
    RenderAppend([Tag(Declaration)], [Text("\n"), Tag(Open(ListBucketResult))]);
    assert [Tag(Declaration)] + [Text("\n"), Tag(Open(ListBucketResult))]
        == [Tag(Declaration), Text("\n"), Tag(Open(ListBucketResult))];
    assert TokenTexts([Tag(Declaration)]) == [MarkText(Declaration)];
    assert Flatten([MarkText(Declaration)]) == MarkText(Declaration);
  }

  lemma RenderBlock(o: ObjectInfo)
    ensures BlockText(o) ==
            MarkText(Open(Contents)) + FieldText(DEEP, Key, o.key) + FieldText(DEEP, LastModified, o.lastModified)
            + FieldText(DEEP, ETag, o.etag) + FieldText(DEEP, Size, NatText(o.size))
            + FieldText(DEEP, StorageClass, o.storageClass) + (INDENT + MarkText(Close(Contents)))
  {
    RenderField(DEEP, Key, o.key);
    RenderField(DEEP, LastModified, o.lastModified);
    RenderField(DEEP, ETag, o.etag);
    RenderField(DEEP, Size, NatText(o.size));
    RenderField(DEEP, StorageClass, o.storageClass);
    RenderFive(MarkText(Open(Contents)), Field(DEEP, Key, o.key), Field(DEEP, LastModified, o.lastModified),
      Field(DEEP, ETag, o.etag), Field(DEEP, Size, NatText(o.size)), Field(DEEP, StorageClass, o.storageClass),
      INDENT + MarkText(Close(Contents)));
  }

  lemma RenderFive(x: string, a: seq<Token>, b: seq<Token>, c: seq<Token>, d: seq<Token>, e: seq<Token>, y: string)
    ensures x + Render(a + b + c + d + e) + y == x + Render(a) + Render(b) + Render(c) + Render(d) + Render(e) + y
  {
    RenderAppend(a, b);
    RenderAppend(a + b, c);
    RenderAppend(a + b + c, d);
    RenderAppend(a + b + c + d, e);
    Regroup6(x, Render(a), Render(b), Render(c), Render(d), Render(e), y);
  }

  lemma Regroup6(x: string, a: string, b: string, c: string, d: string, e: string, y: string)
    ensures x + (a + b + c + d + e) + y == x + a + b + c + d + e + y
  {}

  lemma RenderPrefix(xml: string, prefixes: seq<string>)
    requires prefixes != []
    ensures xml + PrefixText(prefixes[0]) + Render(PrefixTokens(prefixes[1..])) == xml + Render(PrefixTokens(prefixes))
  {
    var a, b := [Text(INDENT), Tag(Open(CommonPrefixes))], Field(DEEP, Prefix, prefixes[0]);
    var c, d := [Text(INDENT), Tag(Close(CommonPrefixes))], PrefixTokens(prefixes[1..]);
    RenderPair(INDENT, Open(CommonPrefixes));
    RenderField(DEEP, Prefix, prefixes[0]);
    RenderPair(INDENT, Close(CommonPrefixes));
    RenderAppend(a, b);
    RenderAppend(a + b, c);
    RenderAppend(a + b + c, d);
    RegroupPrefix(xml, INDENT, MarkText(Open(CommonPrefixes)), FieldText(DEEP, Prefix, prefixes[0]), MarkText(Close(CommonPrefixes)), Render(d));
  }

  lemma RegroupPrefix(xml: string, indent: string, a: string, b: string, c: string, d: string)
    ensures xml + (indent + a + b + indent + c) + d == xml + ((indent + a) + b + (indent + c) + d)
  {}

  lemma RenderTail(l: Listing, prefixes: string)
    requires prefixes == Render(PrefixTokens(l.commonPrefixes))
    ensures Render(TailTokens(l)) ==
            prefixes + (match l.nextToken case Some(t) => FieldText(INDENT, NextContinuationToken, t) case None => "")
            + ("\n" + MarkText(Close(ListBucketResult)))
  {
    var a := PrefixTokens(l.commonPrefixes);
    var b := match l.nextToken case Some(t) => Field(INDENT, NextContinuationToken, t) case None => [];
    var c := [Text("\n"), Tag(Close(ListBucketResult))];
    match l.nextToken {
      case Some(t) => RenderField(INDENT, NextContinuationToken, t);
      case None => assert TokenTexts(b) == [];
    }
    RenderPair("\n", Close(ListBucketResult));
    RenderAppend(a, b);
    RenderAppend(a + b, c);
  }
}
