/**
  The client's reading of a listing (cyxcloud-cli/src/client.rs): a first pass over the lines that
  takes one object, then a second pass over the object blocks that skips keys already taken.
*/
module ListingReader {
  import opened Wrappers
  import opened Sequences
  import opened Substrings
  import opened Markup
  import opened Listings

  /** What the client keeps of an object. */
  datatype Entry = Entry(key: string, size: nat, lastModified: string, etag: string)

  datatype ListResponse = ListResponse(objects: seq<Entry>, isTruncated: bool)

  predicate IsQuote(c: char) { c == '"' }

  function OrEmpty(v: Option<string>): string {
    match v case Some(s) => s case None => ""
  }

  function SizeOf(text: Option<string>): nat {
    match text
    case None => 0
    case Some(s) => match ParseU64(s) case Some(n) => n case None => 0
  }

  /** The object described by the first fields found in the text, if there is a key. */
  function ReadEntry(text: string): Option<Entry> {
    match ExtractValue(text, ElementName(Key))
    case None => None
    case Some(key) =>
      Some(Entry(key,
                 SizeOf(ExtractValue(text, ElementName(Size))),
                 OrEmpty(ExtractValue(text, ElementName(LastModified))),
                 Trim(IsQuote, OrEmpty(ExtractValue(text, ElementName(ETag))))))
  }

  predicate HasKey(objects: seq<Entry>, key: string) {
    exists i :: 0 <= i < |objects| && objects[i].key == key
  }

  function AddEntry(objects: seq<Entry>, e: Entry): seq<Entry> {
    if HasKey(objects, e.key) then objects else objects + [e]
  }

  /** A block counts only if it has both a key and a size. */
  function AddBlock(objects: seq<Entry>, block: string): seq<Entry> {
    match ReadEntry(block)
    case None => objects
    case Some(e) => if ExtractValue(block, ElementName(Size)).Some? then AddEntry(objects, e) else objects
  }

  /** The three patterns the first pass looks for in a line. */
  datatype Patterns = Patterns(block: string, key: string, flag: string)

  function Flag(): string { FieldText("", IsTruncated, "true") }

  function LinePatterns(): Patterns {
    Patterns(MarkText(Open(Contents)), MarkText(Open(Key)), Flag())
  }

  predicate Mentions(ps: Patterns, line: string) {
    ps.block <= line || Find(line, ps.key).Some?
  }

  /** The first pass: `entry` is what would be read if a line calls for it. */
  function Scan(space: char -> bool, ps: Patterns, entry: Option<Entry>, rest: string, truncated: bool): (seq<Entry>, bool)
    decreases |rest|
  {
    if rest == [] then ([], truncated)
    else
      var line := Trim(space, FirstLine(rest));
      var t := truncated || Find(line, ps.flag).Some?;
      if Mentions(ps, line) && entry.Some? then ([entry.value], t)
      else Scan(space, ps, entry, OtherLines(rest), t)
  }

  /** A block of the text, closing tag included, and where it ends. */
  datatype Block = Block(text: string, end: nat)

  function NextBlock(open: string, close: string, text: string): (r: Option<Block>)
    requires close != []
    ensures r.Some? ==> 0 < r.value.end <= |text|
  {
    match Find(text, open)
    case None => None
    case Some(i) =>
      FindIsOccurrence(text, open);
      match Find(text[i..], close)
      case None => None
      case Some(j) =>
        FindIsOccurrence(text[i..], close);
        Some(Block(text[i..i + j + |close|], i + j + |close|))
  }

  /** How to find the next block, and what to do with it. */
  type Next = string -> Option<Block>
  type Add = (seq<Entry>, string) -> seq<Entry>

  function BlockFinder(open: string, close: string): Next
    requires close != []
  {
    text => NextBlock(open, close, text)
  }

  /** The second pass. */
  function Blocks(next: Next, add: Add, text: string, objects: seq<Entry>): seq<Entry>
    decreases |text|
  {
    match next(text)
    case None => objects
    case Some(b) => if 0 < b.end <= |text| then Blocks(next, add, text[b.end..], add(objects, b.text)) else objects
  }

  /** How the second pass finds the blocks of objects. */
  function ObjectBlocks(): Next { BlockFinder(MarkText(Open(Contents)), MarkText(Close(Contents))) }

  /** What the client makes of a response. */
  function Parsed(space: char -> bool, xml: string): ListResponse {
    var (first, truncated) := Scan(space, LinePatterns(), ReadEntry(xml), xml, false);
    ListResponse(Blocks(ObjectBlocks(), AddBlock, xml, first), truncated)
  }

  method ScanLines(space: char -> bool, xml: string, ps: Patterns) returns (objects: seq<Entry>, truncated: bool)
    ensures (objects, truncated) == Scan(space, ps, ReadEntry(xml), xml, false)
  {
    objects, truncated := [], false;
    var rest := xml;
    while rest != []
      invariant Scan(space, ps, ReadEntry(xml), rest, truncated) == Scan(space, ps, ReadEntry(xml), xml, false)
      decreases |rest|
    {
      var line := Trim(space, FirstLine(rest));
      if Find(line, ps.flag).Some? { truncated := true; }
      if Mentions(ps, line) {
        var entry := ReadEntry(xml);
        if entry.Some? {
          objects := [entry.value];
          return;
        }
      }
      rest := OtherLines(rest);
    }
  }

  method CollectBlocks(next: Next, add: Add, xml: string, first: seq<Entry>) returns (objects: seq<Entry>)
    ensures objects == Blocks(next, add, xml, first)
  {
    objects := first;
    var start := 0;
    assert xml[0..] == xml;
    while true
      invariant start <= |xml|
      invariant Blocks(next, add, xml[start..], objects) == Blocks(next, add, xml, first)
      decreases |xml| - start
    {
      var found := next(xml[start..]);
      if found.None? || !(0 < found.value.end <= |xml| - start) { return; }
      var b := found.value;
      assert xml[start..][b.end..] == xml[start + b.end..];
      objects := add(objects, b.text);
      start := start + b.end;
    }
  }

  method ParseListResponse(space: char -> bool, xml: string) returns (r: ListResponse)
    ensures r == Parsed(space, xml)
  {
    var first, truncated := ScanLines(space, xml, LinePatterns());
    var objects := CollectBlocks(ObjectBlocks(), AddBlock, xml, first);
    r := ListResponse(objects, truncated);
  }

  /**
    A block is taken if and only if it has a key that is not held yet and a size; the size counts as 0 if it is not a number.
  */
  lemma TakenIff(objects: seq<Entry>, block: string)
    ensures var key, size, r := ExtractValue(block, ElementName(Key)), ExtractValue(block, ElementName(Size)), AddBlock(objects, block);
            && (r != objects <==> key.Some? && size.Some? && !HasKey(objects, key.value))
            && (r != objects ==> |r| == |objects| + 1 && r[..|objects|] == objects && r[|objects|].key == key.value
                                 && r[|objects|].size == (if ParseU64(size.value).Some? then ParseU64(size.value).value else 0))
  {}

  /** A first object without a size counts as empty. */
  lemma SizeDefault(text: string)
    requires ReadEntry(text).Some? && ExtractValue(text, ElementName(Size)).None?
    ensures ReadEntry(text).value.size == 0
  {}

  // ---------- what is expected ----------

  /** The entry the client should hold for a printed object. */
  function EntryOf(o: ObjectInfo): Entry {
    Entry(o.key, o.size, o.lastModified, Trim(IsQuote, o.etag))
  }

  function Collected(objects: seq<Entry>, contents: seq<ObjectInfo>): seq<Entry>
    decreases |contents|
  {
    if contents == [] then objects else Collected(AddEntry(objects, EntryOf(contents[0])), contents[1..])
  }

  /** The tags the client looks for. */
  ghost predicate Sought(m: Mark) {
    ((m.Open? || m.Close?) && (m.e == Contents || m.e == Key || m.e == LastModified || m.e == ETag || m.e == Size)) || m == Open(IsTruncated)
  }

  /** A text that contains none of the tags the client looks for. */
  ghost predicate CleanText(s: string) {
    forall m | Sought(m) :: FreeOf(s, m)
  }

  lemma PlainIsClean(s: string)
    requires '<' !in s
    ensures CleanText(s)
  {
    forall m | Sought(m) ensures FreeOf(s, m) {
      MarkHeaded(m);
      NoOccurrence(s, MarkText(m));
    }
  }

  ghost predicate CleanOption(s: Option<string>) { s.Some? ==> CleanText(s.value) }

  ghost predicate CleanButKey(o: ObjectInfo) {
    CleanText(o.lastModified) && CleanText(o.etag) && CleanText(o.storageClass)
  }

  ghost predicate CleanObject(o: ObjectInfo) { CleanText(o.key) && CleanButKey(o) }

  /** The texts around the objects. */
  ghost predicate CleanFrame(l: Listing) {
    && CleanText(l.name) && CleanOption(l.prefix) && CleanOption(l.nextToken)
    && (forall i | 0 <= i < |l.commonPrefixes| :: CleanText(l.commonPrefixes[i]))
  }

  ghost predicate CleanListing(l: Listing) {
    CleanFrame(l) && forall i | 0 <= i < |l.contents| :: CleanObject(l.contents[i])
  }

  /** Rust's notion of white space: all that matters here is these three characters. */
  ghost predicate WhiteSpace(space: char -> bool) {
    space(' ') && !space('<') && !space('>')
  }

  // ---------- one object ----------

  lemma CleanAppend(a: seq<Token>, b: seq<Token>, m: Mark)
    requires Clean(a, m) && Without(a, m) && Clean(b, m) && Without(b, m)
    ensures Clean(a + b, m) && Without(a + b, m)
  {}

  lemma CleanField(indent: string, e: Element, value: string, m: Mark)
    requires '<' !in indent && FreeOf(value, m) && m != Open(e) && m != Close(e)
    ensures Clean(Field(indent, e, value), m) && Without(Field(indent, e, value), m)
  {}

  lemma ExtractIn(before: seq<Token>, indent: string, e: Element, value: string, after: seq<Token>, rest: string)
    requires e != ListBucketResult && Clean(before, Open(e)) && Without(before, Open(e)) && '<' !in indent
    ensures var r := ExtractValue(Render(before + Field(indent, e, value) + after) + rest, ElementName(e));
            r == Some(Cut(value, MarkText(Close(e)))) && (r == Some(value) <==> FreeOf(value, Close(e)))
  {
    var f := Field(indent, e, value);
    RenderField(indent, e, value);
    RenderAppend(before, f);
    RenderAppend(before + f, after);
    Regroup3(Render(before) + Render(f), Render(after), rest);
    ExtractField(before, indent, e, value, Render(after) + rest);
  }

  /** Nothing in the tokens is mistaken for a field of an object. */
  ghost predicate NoFields(ts: seq<Token>) {
    && Clean(ts, Open(Key)) && Without(ts, Open(Key)) && Clean(ts, Open(LastModified)) && Without(ts, Open(LastModified))
    && Clean(ts, Open(ETag)) && Without(ts, Open(ETag)) && Clean(ts, Open(Size)) && Without(ts, Open(Size))
  }

  /** The fields of an object, one by one. */
  function KeyField(o: ObjectInfo): seq<Token> { Field(DEEP, Key, o.key) }
  function DateField(o: ObjectInfo): seq<Token> { Field(DEEP, LastModified, o.lastModified) }
  function TagField(o: ObjectInfo): seq<Token> { Field(DEEP, ETag, o.etag) }
  function SizeField(o: ObjectInfo): seq<Token> { Field(DEEP, Size, NatText(o.size)) }
  function ClassField(o: ObjectInfo): seq<Token> { Field(DEEP, StorageClass, o.storageClass) }

  lemma FieldOrder(lead: seq<Token>, k: seq<Token>, m: seq<Token>, t: seq<Token>, z: seq<Token>, c: seq<Token>)
    ensures lead + (k + m + t + z + c) == lead + k + (m + t + z + c)
    ensures lead + (k + m + t + z + c) == lead + k + m + (t + z + c)
    ensures lead + (k + m + t + z + c) == lead + k + m + t + (z + c)
    ensures lead + (k + m + t + z + c) == lead + k + m + t + z + c
  {}

  lemma BlockOrder(lead: seq<Token>, o: ObjectInfo)
    ensures lead + BlockFields(o) == lead + KeyField(o) + (DateField(o) + TagField(o) + SizeField(o) + ClassField(o))
    ensures lead + BlockFields(o) == lead + KeyField(o) + DateField(o) + (TagField(o) + SizeField(o) + ClassField(o))
    ensures lead + BlockFields(o) == lead + KeyField(o) + DateField(o) + TagField(o) + (SizeField(o) + ClassField(o))
  {
    FieldOrder(lead, KeyField(o), DateField(o), TagField(o), SizeField(o), ClassField(o));
  }

  lemma ReadKey(lead: seq<Token>, o: ObjectInfo, rest: string)
    requires NoFields(lead) && CleanObject(o)
    ensures ExtractValue(Render(lead + BlockFields(o)) + rest, ElementName(Key)) == Some(o.key)
  {
    BlockOrder(lead, o);
    ExtractIn(lead, DEEP, Key, o.key, DateField(o) + TagField(o) + SizeField(o) + ClassField(o), rest);
  }

  /** An object's key is read back from its printed block if and only if the key does not contain its closing tag. */
  lemma KeyOfBlock(o: ObjectInfo)
    ensures ReadEntry(BlockText(o)).Some?
    ensures ReadEntry(BlockText(o)).value.key == o.key <==> FreeOf(o.key, Close(Key))
  {
    var lead := [Tag(Open(Contents))];
    BlockParts(o);
    BlockOrder(lead, o);
    ExtractIn(lead, DEEP, Key, o.key, DateField(o) + TagField(o) + SizeField(o) + ClassField(o), INDENT + MarkText(Close(Contents)));
  }

  lemma ReadDate(lead: seq<Token>, o: ObjectInfo, rest: string)
    requires NoFields(lead) && CleanObject(o)
    ensures ExtractValue(Render(lead + BlockFields(o)) + rest, ElementName(LastModified)) == Some(o.lastModified)
  {
    BlockOrder(lead, o);
    CleanField(DEEP, Key, o.key, Open(LastModified));
    CleanAppend(lead, KeyField(o), Open(LastModified));
    ExtractIn(lead + KeyField(o), DEEP, LastModified, o.lastModified, TagField(o) + SizeField(o) + ClassField(o), rest);
  }

  lemma ReadTag(lead: seq<Token>, o: ObjectInfo, rest: string)
    requires NoFields(lead) && CleanObject(o)
    ensures ExtractValue(Render(lead + BlockFields(o)) + rest, ElementName(ETag)) == Some(o.etag)
  {
    BlockOrder(lead, o);
    CleanField(DEEP, Key, o.key, Open(ETag));
    CleanField(DEEP, LastModified, o.lastModified, Open(ETag));
    CleanAppend(lead, KeyField(o), Open(ETag));
    CleanAppend(lead + KeyField(o), DateField(o), Open(ETag));
    ExtractIn(lead + KeyField(o) + DateField(o), DEEP, ETag, o.etag, SizeField(o) + ClassField(o), rest);
  }

  lemma ReadSize(lead: seq<Token>, o: ObjectInfo, rest: string)
    requires NoFields(lead) && CleanObject(o)
    ensures ExtractValue(Render(lead + BlockFields(o)) + rest, ElementName(Size)) == Some(NatText(o.size))
  {
    BlockOrder(lead, o);
    CleanField(DEEP, Key, o.key, Open(Size));
    CleanField(DEEP, LastModified, o.lastModified, Open(Size));
    CleanField(DEEP, ETag, o.etag, Open(Size));
    CleanAppend(lead, KeyField(o), Open(Size));
    CleanAppend(lead + KeyField(o), DateField(o), Open(Size));
    CleanAppend(lead + KeyField(o) + DateField(o), TagField(o), Open(Size));
    IntTextClean(o.size);
    PlainIsClean(NatText(o.size));
    BlockFour(lead, o);
    ExtractIn(lead + KeyField(o) + DateField(o) + TagField(o), DEEP, Size, NatText(o.size), ClassField(o), rest);
  }

  lemma BlockFour(lead: seq<Token>, o: ObjectInfo)
    ensures lead + BlockFields(o) == lead + KeyField(o) + DateField(o) + TagField(o) + SizeField(o) + ClassField(o)
  {
    FieldOrder(lead, KeyField(o), DateField(o), TagField(o), SizeField(o), ClassField(o));
  }

  /** Reading finds the first object's fields, whatever stands before without fields and whatever follows. */
  lemma ReadFirst(lead: seq<Token>, o: ObjectInfo, rest: string)
    requires NoFields(lead) && CleanObject(o)
    ensures ReadEntry(Render(lead + BlockFields(o)) + rest) == Some(EntryOf(o))
    ensures ExtractValue(Render(lead + BlockFields(o)) + rest, ElementName(Size)).Some?
  {
    ReadKey(lead, o, rest);
    ReadDate(lead, o, rest);
    ReadTag(lead, o, rest);
    ReadSize(lead, o, rest);
    ParseNatText(o.size);
  }

  // ---------- the second pass ----------

  lemma RenderOne(m: Mark)
    ensures Render([Tag(m)]) == MarkText(m)
  {
    assert TokenTexts([Tag(m)]) == [MarkText(m)];
    assert Flatten([MarkText(m)]) == MarkText(m);
  }

  lemma CleanBlock(o: ObjectInfo, m: Mark)
    requires CleanButKey(o) && FreeOf(o.key, m) && (m == Close(Contents) || m == Open(Contents))
    ensures Clean(BlockFields(o), m) && Without(BlockFields(o), m)
  {
    CleanField(DEEP, Key, o.key, m);
    CleanField(DEEP, LastModified, o.lastModified, m);
    CleanField(DEEP, ETag, o.etag, m);
    IntTextClean(o.size);
    PlainIsClean(NatText(o.size));
    CleanField(DEEP, Size, NatText(o.size), m);
    CleanField(DEEP, StorageClass, o.storageClass, m);
    CleanAppend(KeyField(o), DateField(o), m);
    CleanAppend(KeyField(o) + DateField(o), TagField(o), m);
    CleanAppend(KeyField(o) + DateField(o) + TagField(o), SizeField(o), m);
    CleanAppend(KeyField(o) + DateField(o) + TagField(o) + SizeField(o), ClassField(o), m);
  }

  /** The opening tag, the fields and the last indentation of a block. */
  function BlockStart(o: ObjectInfo): seq<Token> {
    [Tag(Open(Contents))] + BlockFields(o) + [Text(INDENT)]
  }

  lemma BlockParts(o: ObjectInfo)
    ensures BlockText(o) == Render(BlockStart(o)) + MarkText(Close(Contents))
    ensures BlockText(o) == Render([Tag(Open(Contents))] + BlockFields(o)) + (INDENT + MarkText(Close(Contents)))
  {
    RenderOne(Open(Contents));
    RenderText(INDENT);
    RenderAppend([Tag(Open(Contents))], BlockFields(o));
    RenderAppend([Tag(Open(Contents))] + BlockFields(o), [Text(INDENT)]);
    Regroup3(Render([Tag(Open(Contents))] + BlockFields(o)), INDENT, MarkText(Close(Contents)));
  }

  lemma Regroup3(a: string, b: string, c: string)
    ensures a + (b + c) == a + b + c
  {}

  lemma AddPrinted(objects: seq<Entry>, o: ObjectInfo)
    requires CleanObject(o)
    ensures AddBlock(objects, BlockText(o)) == AddEntry(objects, EntryOf(o))
  {
    BlockParts(o);
    ReadFirst([Tag(Open(Contents))], o, INDENT + MarkText(Close(Contents)));
  }

  lemma NextBlockAt(open: string, close: string, lead: string, inner: string, rest: string)
    requires close != []
    requires Find(lead + (open + inner + close + rest), open) == Some(|lead|)
    requires Find(open + inner + close + rest, close) == Some(|open + inner|)
    ensures var text := lead + (open + inner + close + rest); var r := NextBlock(open, close, text);
            r.Some? && r.value.text == open + inner + close && text[r.value.end..] == rest
  {
    var body := open + inner + close;
    var text := lead + (body + rest);
    assert text[|lead|..] == body + rest;
    assert text[|lead|..|lead| + |body|] == body;
  }

  lemma FindClose(o: ObjectInfo, rest: string)
    requires CleanButKey(o) && FreeOf(o.key, Close(Contents))
    ensures Find(BlockText(o) + rest, MarkText(Close(Contents))) == Some(|Render(BlockStart(o))|)
  {
    BlockParts(o);
    CleanBlock(o, Close(Contents));
    CleanAppend([Tag(Open(Contents))], BlockFields(o), Close(Contents));
    CleanAppend([Tag(Open(Contents))] + BlockFields(o), [Text(INDENT)], Close(Contents));
    FindTag(BlockStart(o), Close(Contents), rest);
  }

  lemma FindOpen(lead: seq<Token>, o: ObjectInfo, rest: string)
    requires Clean(lead, Open(Contents)) && Without(lead, Open(Contents))
    ensures Find(Render(lead) + (BlockText(o) + rest), MarkText(Open(Contents))) == Some(|Render(lead)|)
  {
    var open, inner := MarkText(Open(Contents)), Render(BlockFields(o)) + (INDENT + MarkText(Close(Contents)));
    FindTag(lead, Open(Contents), inner + rest);
    Regroup3(open, Render(BlockFields(o)), INDENT + MarkText(Close(Contents)));
    RegroupOpen(Render(lead), open, inner, rest);
  }

  lemma RegroupOpen(lead: string, open: string, inner: string, rest: string)
    ensures lead + open + (inner + rest) == lead + ((open + inner) + rest)
  {}

  lemma RegroupBlock(open: string, fields: string, indent: string, close: string, rest: string)
    ensures open + fields + (indent + close) == open + (fields + indent) + close
    ensures open + (fields + indent) == open + fields + indent
  {}

  /** The second pass cuts the next printed block out whole if the key does not contain the block's closing tag. */
  lemma BlocksCut(lead: seq<Token>, o: ObjectInfo, rest: string, objects: seq<Entry>)
    requires Clean(lead, Open(Contents)) && Without(lead, Open(Contents)) && CleanButKey(o) && FreeOf(o.key, Close(Contents))
    ensures Blocks(ObjectBlocks(), AddBlock, Render(lead) + (BlockText(o) + rest), objects)
         == Blocks(ObjectBlocks(), AddBlock, rest, AddBlock(objects, BlockText(o)))
  {
    var open, close := MarkText(Open(Contents)), MarkText(Close(Contents));
    FindOpen(lead, o, rest);
    FindClose(o, rest);
    BlockParts(o);
    RegroupBlock(open, Render(BlockFields(o)), INDENT, close, rest);
    BlocksStep(open, close, AddBlock, Render(lead), Render(BlockFields(o)) + INDENT, BlockText(o), rest, objects);
  }

  /** The second pass takes the next printed object and goes on behind it. */
  lemma BlocksNext(lead: seq<Token>, o: ObjectInfo, rest: string, objects: seq<Entry>)
    requires Clean(lead, Open(Contents)) && Without(lead, Open(Contents)) && CleanObject(o)
    ensures Blocks(ObjectBlocks(), AddBlock, Render(lead) + (BlockText(o) + rest), objects)
         == Blocks(ObjectBlocks(), AddBlock, rest, AddEntry(objects, EntryOf(o)))
  {
    BlocksCut(lead, o, rest, objects);
    AddPrinted(objects, o);
  }

  lemma BlocksStep(open: string, close: string, add: Add, lead: string, inner: string, block: string, rest: string, objects: seq<Entry>)
    requires close != [] && block == open + inner + close
    requires Find(lead + (block + rest), open) == Some(|lead|)
    requires Find(block + rest, close) == Some(|block| - |close|)
    ensures Blocks(BlockFinder(open, close), add, lead + (block + rest), objects) == Blocks(BlockFinder(open, close), add, rest, add(objects, block))
  {
    NextBlockAt(open, close, lead, inner, rest);
  }

  lemma {:induction false} BlocksAll(lead: seq<Token>, contents: seq<ObjectInfo>, tail: seq<Token>, objects: seq<Entry>)
    requires Clean(lead, Open(Contents)) && Without(lead, Open(Contents)) && Clean(tail, Open(Contents)) && Without(tail, Open(Contents))
    requires forall i | 0 <= i < |contents| :: CleanObject(contents[i])
    ensures Blocks(ObjectBlocks(), AddBlock, Render(lead) + (ObjectsText(contents) + Render(tail)), objects)
         == Collected(objects, contents)
    decreases |contents|
  {
    if contents == [] {
      RenderAppend(lead, tail);
      CleanAppend(lead, tail, Open(Contents));
      assert ObjectsText(contents) + Render(tail) == Render(tail);
      FindNoTag(lead + tail, Open(Contents), MarkText(Open(Contents)));
    } else {
      var more := ObjectsText(contents[1..]) + Render(tail);
      RenderAppend(lead, [Text(INDENT)]);
      RenderText(INDENT);
      CleanAppend(lead, [Text(INDENT)], Open(Contents));
      RegroupObject(Render(lead), INDENT, BlockText(contents[0]), ObjectsText(contents[1..]), Render(tail));
      BlocksNext(lead + [Text(INDENT)], contents[0], more, objects);
      assert Render([]) + more == more;
      BlocksAll([], contents[1..], tail, AddEntry(objects, EntryOf(contents[0])));
    }
  }

  lemma RegroupObject(lead: string, indent: string, block: string, more: string, tail: string)
    ensures lead + ((indent + block + more) + tail) == (lead + indent) + (block + (more + tail))
  {}

  // ---------- the first pass ----------

  ghost predicate Findable(space: char -> bool, p: string) {
    OnOneLine(p) && !space(p[0]) && !space(p[|p| - 1])
  }

  ghost predicate FindablePatterns(space: char -> bool, ps: Patterns) {
    Findable(space, ps.block) && Findable(space, ps.key) && Findable(space, ps.flag)
  }

  lemma TrimmedLine(space: char -> bool, s: string, p: string)
    requires Findable(space, p)
    ensures Find(Trim(space, FirstLine(s)), p).Some? <==> Occurs(s[..LineLength(s)], p)
  {
    FindOccurs(Trim(space, FirstLine(s)), p);
    TrimOccurs(space, FirstLine(s), p);
    FirstLineOccurs(s, p);
  }

  lemma StartOccurs(s: string, p: string)
    ensures p <= s ==> Find(s, p).Some?
  {}

  /** A line without the patterns is passed over. */
  lemma SilentLine(space: char -> bool, ps: Patterns, s: string)
    requires FindablePatterns(space, ps)
    requires !Occurs(s[..LineLength(s)], ps.block) && !Occurs(s[..LineLength(s)], ps.key)
    ensures !Mentions(ps, Trim(space, FirstLine(s)))
    ensures Find(Trim(space, FirstLine(s)), ps.flag).Some? <==> Occurs(s[..LineLength(s)], ps.flag)
  {
    TrimmedLine(space, s, ps.block);
    TrimmedLine(space, s, ps.key);
    TrimmedLine(space, s, ps.flag);
    StartOccurs(Trim(space, FirstLine(s)), ps.block);
  }

  lemma LineSplit(s: string, p: string)
    requires OnOneLine(p)
    ensures Occurs(s, p) <==> Occurs(s[..LineLength(s)], p) || Occurs(OtherLines(s), p)
  {
    LineOccurs(s, p);
    FirstLineOccurs(s, p);
  }

  lemma {:induction false} ScanSilent(space: char -> bool, ps: Patterns, entry: Option<Entry>, s: string, t: bool)
    requires FindablePatterns(space, ps) && !Occurs(s, ps.block) && !Occurs(s, ps.key)
    ensures Scan(space, ps, entry, s, t) == ([], t || Occurs(s, ps.flag))
    decreases |s|
  {
    LineSplit(s, ps.block);
    LineSplit(s, ps.key);
    LineSplit(s, ps.flag);
    if s != [] {
      SilentLine(space, ps, s);
      ScanSilent(space, ps, entry, OtherLines(s), t || Occurs(s[..LineLength(s)], ps.flag));
    }
  }

  lemma {:induction false} FirstLineEnds(h: string, b: string)
    ensures var s := h + ['\n'] + b; var n := LineLength(h);
            && LineLength(s) == n && s[..n] == h[..n]
            && OtherLines(s) == if n < |h| then OtherLines(h) + ['\n'] + b else b
  {
    var s, n := h + ['\n'] + b, LineLength(h);
    LineLengthUnique(s, n);
    if n < |h| {
      assert s[n + 1..] == h[n + 1..] + ['\n'] + b;
    } else {
      assert s[n + 1..] == b;
    }
  }

  lemma {:induction false} LineLengthUnique(s: string, n: nat)
    requires n < |s| && s[n] == '\n' && '\n' !in s[..n]
    ensures LineLength(s) == n
  {
    if n > 0 {
      assert s[0] in s[..n];
      assert s[1..][..n - 1] == s[..n][1..];
      LineLengthUnique(s[1..], n - 1);
    }
  }

  /** Whole lines without the patterns only contribute the truncation flag. */
  lemma {:induction false} ScanHead(space: char -> bool, ps: Patterns, entry: Option<Entry>, h: string, b: string, t: bool)
    requires FindablePatterns(space, ps) && !Occurs(h, ps.block) && !Occurs(h, ps.key)
    ensures Scan(space, ps, entry, h + ['\n'] + b, t) == Scan(space, ps, entry, b, t || Occurs(h, ps.flag))
    decreases |h|
  {
    var s, n := h + ['\n'] + b, LineLength(h);
    FirstLineEnds(h, b);
    LineSplit(h, ps.block);
    LineSplit(h, ps.key);
    LineSplit(h, ps.flag);
    SilentLine(space, ps, s);
    var u := t || Occurs(h[..n], ps.flag);
    if n < |h| {
      ScanHead(space, ps, entry, OtherLines(h), b, u);
    } else {
      assert h[..n] == h;
    }
  }

  /** The first line of an object block ends the pass. */
  lemma ScanBlock(space: char -> bool, ps: Patterns, entry: Entry, rest: string, t: bool)
    requires WhiteSpace(space) && FindablePatterns(space, ps) && |ps.flag| > |ps.block| && ps.block[0] == '<'
    ensures Scan(space, ps, Some(entry), [' ', ' '] + ps.block + ['\n'] + rest, t) == ([entry], t)
  {
    var line := [' ', ' '] + ps.block;
    var s := line + ['\n'] + rest;
    LineLengthUnique(s, |line|);
    assert FirstLine(s) == line;
    TrimIndent(space, ps.block);
    FindIsOccurrence(ps.block, ps.flag);
  }

  lemma TrimIndent(space: char -> bool, p: string)
    requires space(' ') && p != [] && !space(p[0]) && !space(p[|p| - 1])
    ensures Trim(space, [' ', ' '] + p) == p
  {
    var s := [' ', ' '] + p;
    assert s[1..] == [' '] + p;
    assert ([' '] + p)[1..] == p;
    assert TrimStart(space, [' '] + p) == p;
  }

  // ---------- head and tail of the listing ----------

  /** The opening tags that only object blocks have. */
  ghost predicate ObjectMark(m: Mark) {
    m.Open? && (m.e == Contents || m.e == Key || m.e == LastModified || m.e == ETag || m.e == Size)
  }

  function FullHead(l: Listing): seq<Token> {
    HeadTokens(l) + Field(INDENT, IsTruncated, BoolText(l.isTruncated)) + Field(INDENT, KeyCount, IntText(l.keyCount))
  }

  lemma HeadQuiet(l: Listing, m: Mark)
    requires CleanFrame(l) && (ObjectMark(m) || m == Open(IsTruncated))
    ensures Clean(HeadTokens(l), m) && Without(HeadTokens(l), m)
  {
    var a := [Tag(Declaration), Text("\n"), Tag(Open(ListBucketResult))];
    var b := Field(INDENT, Name, l.name);
    var c := match l.prefix case Some(p) => Field(INDENT, Prefix, p) case None => [Text(INDENT), Tag(EmptyPrefix)];
    var d := Field(INDENT, MaxKeys, IntText(l.maxKeys));
    CleanField(INDENT, Name, l.name, m);
    match l.prefix { case Some(p) => CleanField(INDENT, Prefix, p, m); case None => }
    IntTextClean(l.maxKeys);
    PlainIsClean(IntText(l.maxKeys));
    CleanField(INDENT, MaxKeys, IntText(l.maxKeys), m);
    CleanAppend(a, b, m);
    CleanAppend(a + b, c, m);
    CleanAppend(a + b + c, d, m);
  }

  lemma FullHeadQuiet(l: Listing, m: Mark)
    requires CleanFrame(l) && ObjectMark(m)
    ensures Clean(FullHead(l), m) && Without(FullHead(l), m)
  {
    HeadQuiet(l, m);
    IntTextClean(l.keyCount);
    PlainIsClean(IntText(l.keyCount));
    PlainIsClean(BoolText(l.isTruncated));
    CleanField(INDENT, IsTruncated, BoolText(l.isTruncated), m);
    CleanField(INDENT, KeyCount, IntText(l.keyCount), m);
    CleanAppend(HeadTokens(l), Field(INDENT, IsTruncated, BoolText(l.isTruncated)), m);
    CleanAppend(HeadTokens(l) + Field(INDENT, IsTruncated, BoolText(l.isTruncated)), Field(INDENT, KeyCount, IntText(l.keyCount)), m);
  }

  lemma {:induction false} PrefixesQuiet(prefixes: seq<string>, m: Mark)
    requires (forall i | 0 <= i < |prefixes| :: CleanText(prefixes[i])) && (ObjectMark(m) || m == Open(IsTruncated))
    ensures Clean(PrefixTokens(prefixes), m) && Without(PrefixTokens(prefixes), m)
  {
    if prefixes != [] {
      var a, b := [Text(INDENT), Tag(Open(CommonPrefixes))], Field(DEEP, Prefix, prefixes[0]);
      var c := [Text(INDENT), Tag(Close(CommonPrefixes))];
      PrefixesQuiet(prefixes[1..], m);
      CleanField(DEEP, Prefix, prefixes[0], m);
      CleanAppend(a, b, m);
      CleanAppend(a + b, c, m);
      CleanAppend(a + b + c, PrefixTokens(prefixes[1..]), m);
    }
  }

  lemma TailQuiet(l: Listing, m: Mark)
    requires CleanFrame(l) && (ObjectMark(m) || m == Open(IsTruncated))
    ensures Clean(TailTokens(l), m) && Without(TailTokens(l), m)
  {
    var a := PrefixTokens(l.commonPrefixes);
    var b := match l.nextToken case Some(t) => Field(INDENT, NextContinuationToken, t) case None => [];
    var c := [Text("\n"), Tag(Close(ListBucketResult))];
    PrefixesQuiet(l.commonPrefixes, m);
    match l.nextToken { case Some(t) => CleanField(INDENT, NextContinuationToken, t, m); case None => }
    CleanAppend(a, b, m);
    CleanAppend(a + b, c, m);
  }

  lemma XmlParts(l: Listing)
    ensures Xml(l) == Render(FullHead(l)) + (ObjectsText(l.contents) + Render(TailTokens(l)))
  {
    var t, k := Field(INDENT, IsTruncated, BoolText(l.isTruncated)), Field(INDENT, KeyCount, IntText(l.keyCount));
    RenderField(INDENT, IsTruncated, BoolText(l.isTruncated));
    RenderField(INDENT, KeyCount, IntText(l.keyCount));
    RenderAppend(HeadTokens(l), t);
    RenderAppend(HeadTokens(l) + t, k);
    Regroup3(Render(FullHead(l)), ObjectsText(l.contents), Render(TailTokens(l)));
  }

  // ---------- the truncation flag ----------

  lemma FlagFirst(open: string, close: string, value: string, rest: string)
    requires value == "true" || value == "false"
    ensures "" + open + "true" + close <= open + value + close + rest <==> value == "true"
  {
    var flag, s := "" + open + "true" + close, open + value + close + rest;
    if value == "true" {
      assert s[..|flag|] == flag;
    } else {
      assert s[|open|] == 'f' && flag[|open|] == 't';
    }
  }

  lemma FlagValue(b: bool, after: seq<Token>)
    requires Clean(after, Open(IsTruncated)) && Without(after, Open(IsTruncated))
    ensures Find(MarkText(Open(IsTruncated)) + BoolText(b) + MarkText(Close(IsTruncated)) + Render(after), Flag()).Some? <==> b
  {
    var open, close := MarkText(Open(IsTruncated)), MarkText(Close(IsTruncated));
    FlagFirst(open, close, BoolText(b), Render(after));
    if !b {
      var ts := [Text(BoolText(b)), Tag(Close(IsTruncated))];
      RenderPair(BoolText(b), Close(IsTruncated));
      RenderAppend(ts, after);
      RegroupFlag(open, BoolText(b), close, Render(after));
      FlagStarts();
      SkipMark(Open(IsTruncated), Render(ts + after), Flag());
      CleanAppend(ts, after, Open(IsTruncated));
      FindNoTag(ts + after, Open(IsTruncated), Flag());
    }
  }

  lemma RegroupFlag(open: string, value: string, close: string, rest: string)
    ensures open + value + close + rest == open + (value + close + rest)
  {}

  lemma FlagStarts()
    ensures MarkText(Open(IsTruncated)) <= Flag() && Flag()[0] == '<'
  {
    StartsWith(MarkText(Open(IsTruncated)), "true", MarkText(Close(IsTruncated)));
  }

  lemma StartsWith(a: string, b: string, c: string)
    ensures a <= "" + a + b + c
  {
    assert ("" + a + b + c)[..|a|] == a;
  }

  /** The text of a listing without objects shows the flag exactly if the listing is truncated. */
  lemma FlagShows(l: Listing, after: seq<Token>)
    requires CleanFrame(l) && Clean(after, Open(IsTruncated)) && Without(after, Open(IsTruncated))
    ensures Occurs(Render(HeadTokens(l) + Field(INDENT, IsTruncated, BoolText(l.isTruncated)) + after), Flag()) <==> l.isTruncated
  {
    var f, lead := Field(INDENT, IsTruncated, BoolText(l.isTruncated)), HeadTokens(l) + [Text(INDENT)];
    var rest := MarkText(Open(IsTruncated)) + BoolText(l.isTruncated) + MarkText(Close(IsTruncated)) + Render(after);
    HeadQuiet(l, Open(IsTruncated));
    CleanAppend(HeadTokens(l), [Text(INDENT)], Open(IsTruncated));
    FlagStarts();
    SkipTokens(lead, rest, Open(IsTruncated), Flag());
    FlagValue(l.isTruncated, after);
    FlagText(HeadTokens(l), BoolText(l.isTruncated), after);
    FindOccurs(Render(HeadTokens(l) + f + after), Flag());
  }

  lemma FlagText(head: seq<Token>, value: string, after: seq<Token>)
    ensures Render(head + Field(INDENT, IsTruncated, value) + after)
         == Render(head + [Text(INDENT)]) + (MarkText(Open(IsTruncated)) + value + MarkText(Close(IsTruncated)) + Render(after))
  {
    var f := Field(INDENT, IsTruncated, value);
    RenderAppend(head, f);
    RenderAppend(head + f, after);
    RenderField(INDENT, IsTruncated, value);
    FieldAfterText(head, INDENT, IsTruncated, value, Render(after));
    RegroupFlag(MarkText(Open(IsTruncated)), value, MarkText(Close(IsTruncated)), Render(after));
    Regroup3(Render(head + [Text(INDENT)]), MarkText(Open(IsTruncated)), value + MarkText(Close(IsTruncated)) + Render(after));
  }

  // ---------- what the client reads back ----------

  lemma MarkFindable(space: char -> bool, body: string)
    requires WhiteSpace(space) && '\n' !in body
    ensures Findable(space, "<" + body + ">")
  {
    var p := "<" + body + ">";
    assert p[0] == '<' && p[|p| - 1] == '>';
  }

  lemma SpanFindable(space: char -> bool, a: string, b: string, c: string)
    requires Findable(space, a) && '\n' !in b && Findable(space, c)
    ensures Findable(space, "" + a + b + c)
  {
    var p := "" + a + b + c;
    assert p[0] == a[0] && p[|p| - 1] == c[|c| - 1];
  }

  lemma FlagFindable(space: char -> bool)
    requires WhiteSpace(space)
    ensures Findable(space, Flag()) && |Flag()| > 25
  {
    MarkFindable(space, Body(Open(IsTruncated)));
    MarkFindable(space, Body(Close(IsTruncated)));
    NameShape(IsTruncated);
    SpanFindable(space, MarkText(Open(IsTruncated)), "true", MarkText(Close(IsTruncated)));
  }

  lemma ElementFindable(space: char -> bool, e: Element)
    requires WhiteSpace(space) && (e == Contents || e == Key)
    ensures Findable(space, MarkText(Open(e))) && MarkText(Open(e))[0] == '<' && |MarkText(Open(e))| < 25
  {
    NameShape(e);
    MarkFindable(space, ElementName(e));
  }

  lemma PatternsFindable(space: char -> bool)
    requires WhiteSpace(space)
    ensures FindablePatterns(space, LinePatterns()) && |LinePatterns().flag| > |LinePatterns().block|
    ensures LinePatterns().block[0] == '<'
  {
    ElementFindable(space, Contents);
    ElementFindable(space, Key);
    FlagFindable(space);
  }

  lemma QuietText(ts: seq<Token>)
    requires Clean(ts, Open(Contents)) && Without(ts, Open(Contents)) && Clean(ts, Open(Key)) && Without(ts, Open(Key))
    ensures !Occurs(Render(ts), LinePatterns().block) && !Occurs(Render(ts), LinePatterns().key)
  {
    FindNoTag(ts, Open(Contents), MarkText(Open(Contents)));
    FindNoTag(ts, Open(Key), MarkText(Open(Key)));
    FindOccurs(Render(ts), MarkText(Open(Contents)));
    FindOccurs(Render(ts), MarkText(Open(Key)));
  }

  lemma HeadFlag(l: Listing)
    requires CleanFrame(l)
    ensures Occurs(Render(FullHead(l)), Flag()) <==> l.isTruncated
  {
    IntTextClean(l.keyCount);
    PlainIsClean(IntText(l.keyCount));
    CleanField(INDENT, KeyCount, IntText(l.keyCount), Open(IsTruncated));
    FlagShows(l, Field(INDENT, KeyCount, IntText(l.keyCount)));
  }

  /** All the tokens of a listing without objects. */
  function EmptyTokens(l: Listing): seq<Token> { FullHead(l) + TailTokens(l) }

  lemma EmptyText(l: Listing)
    requires l.contents == []
    ensures Xml(l) == Render(EmptyTokens(l))
  {
    XmlParts(l);
    RenderAppend(FullHead(l), TailTokens(l));
    assert ObjectsText(l.contents) + Render(TailTokens(l)) == Render(TailTokens(l));
  }

  lemma EmptyQuiet(l: Listing, m: Mark)
    requires CleanFrame(l) && ObjectMark(m)
    ensures Clean(EmptyTokens(l), m) && Without(EmptyTokens(l), m)
  {
    FullHeadQuiet(l, m);
    TailQuiet(l, m);
    CleanAppend(FullHead(l), TailTokens(l), m);
  }

  lemma EmptyFlag(l: Listing)
    requires CleanFrame(l)
    ensures Occurs(Render(EmptyTokens(l)), Flag()) <==> l.isTruncated
  {
    var count := Field(INDENT, KeyCount, IntText(l.keyCount));
    var front := HeadTokens(l) + Field(INDENT, IsTruncated, BoolText(l.isTruncated));
    TailQuiet(l, Open(IsTruncated));
    IntTextClean(l.keyCount);
    PlainIsClean(IntText(l.keyCount));
    CleanField(INDENT, KeyCount, IntText(l.keyCount), Open(IsTruncated));
    CleanAppend(count, TailTokens(l), Open(IsTruncated));
    FlagShows(l, count + TailTokens(l));
    TokensRegroup(front, count, TailTokens(l));
  }

  lemma TokensRegroup(a: seq<Token>, b: seq<Token>, c: seq<Token>)
    ensures a + b + c == a + (b + c)
  {}

  lemma ScanEmpty(space: char -> bool, l: Listing)
    requires WhiteSpace(space) && CleanFrame(l) && l.contents == []
    ensures Scan(space, LinePatterns(), ReadEntry(Xml(l)), Xml(l), false) == ([], l.isTruncated)
  {
    EmptyText(l);
    EmptyQuiet(l, Open(Contents));
    EmptyQuiet(l, Open(Key));
    QuietText(EmptyTokens(l));
    EmptyFlag(l);
    PatternsFindable(space);
    ScanSilent(space, LinePatterns(), ReadEntry(Xml(l)), Xml(l), false);
  }

  /** An object block starts with its opening tag on a line of its own. */
  lemma BlockLine(o: ObjectInfo) returns (rest: string)
    ensures BlockText(o) == MarkText(Open(Contents)) + ['\n'] + rest
  {
    var fields := Render(BlockFields(o));
    assert TokenTexts(BlockFields(o))[0] == DEEP;
    assert DEEP <= fields;
    assert fields[0] == '\n';
    rest := fields[1..] + (INDENT + MarkText(Close(Contents)));
    assert fields == ['\n'] + fields[1..];
    RegroupLine(MarkText(Open(Contents)), ['\n'], fields[1..], INDENT + MarkText(Close(Contents)));
  }

  lemma RegroupLine(open: string, nl: string, fields: string, close: string)
    ensures open + (nl + fields) + close == open + nl + (fields + close)
  {}

  lemma ObjectLines(head: string, block: string, more: string, tail: string, open: string, rest: string)
    requires block == open + ['\n'] + rest
    ensures head + ((INDENT + block + more) + tail) == head + ['\n'] + ([' ', ' '] + open + ['\n'] + (rest + more + tail))
  {
    assert INDENT == ['\n'] + [' ', ' '];
  }

  lemma ReadFirstOfListing(l: Listing)
    requires CleanFrame(l) && l.contents != [] && CleanObject(l.contents[0])
    ensures ReadEntry(Xml(l)) == Some(EntryOf(l.contents[0]))
  {
    var start := [Text(INDENT), Tag(Open(Contents))];
    XmlParts(l);
    StartQuiet(start);
    LeadQuiet(l, start);
    var more, tail := ObjectsText(l.contents[1..]), Render(TailTokens(l));
    ReadFirst(FullHead(l) + start, l.contents[0], (INDENT + MarkText(Close(Contents))) + (more + tail));
    FirstObjectText(FullHead(l), start, l.contents[0], more, tail);
  }

  lemma FirstObjectText(head: seq<Token>, start: seq<Token>, o: ObjectInfo, more: string, tail: string)
    requires start == [Text(INDENT), Tag(Open(Contents))]
    ensures Render(head) + ((INDENT + BlockText(o) + more) + tail)
         == Render(head + start + BlockFields(o)) + ((INDENT + MarkText(Close(Contents))) + (more + tail))
  {
    RenderPair(INDENT, Open(Contents));
    RenderAppend(head, start);
    RenderAppend(head + start, BlockFields(o));
    RegroupFirst(Render(head), INDENT, MarkText(Open(Contents)), Render(BlockFields(o)), INDENT + MarkText(Close(Contents)), more, tail);
  }

  lemma RegroupFirst(head: string, indent: string, open: string, fields: string, close: string, more: string, tail: string)
    ensures head + ((indent + (open + fields + close) + more) + tail) == ((head + (indent + open)) + fields) + (close + (more + tail))
  {}

  lemma StartQuiet(start: seq<Token>)
    requires start == [Text(INDENT), Tag(Open(Contents))]
    ensures NoFields(start)
  {
    assert '<' !in INDENT;
  }

  lemma LeadQuiet(l: Listing, start: seq<Token>)
    requires CleanFrame(l) && NoFields(start)
    ensures NoFields(FullHead(l) + start)
  {
    FullHeadQuiet(l, Open(Key));
    FullHeadQuiet(l, Open(LastModified));
    FullHeadQuiet(l, Open(ETag));
    FullHeadQuiet(l, Open(Size));
    CleanAppend(FullHead(l), start, Open(Key));
    CleanAppend(FullHead(l), start, Open(LastModified));
    CleanAppend(FullHead(l), start, Open(ETag));
    CleanAppend(FullHead(l), start, Open(Size));
  }

  lemma ScanObjects(space: char -> bool, l: Listing, e: Entry)
    requires WhiteSpace(space) && CleanFrame(l) && l.contents != [] && ReadEntry(Xml(l)) == Some(e)
    ensures Scan(space, LinePatterns(), ReadEntry(Xml(l)), Xml(l), false) == ([e], l.isTruncated)
  {
    var head, more, tail := Render(FullHead(l)), ObjectsText(l.contents[1..]), Render(TailTokens(l));
    XmlParts(l);
    var rest := BlockLine(l.contents[0]);
    ObjectLines(head, BlockText(l.contents[0]), more, tail, MarkText(Open(Contents)), rest);
    FullHeadQuiet(l, Open(Contents));
    FullHeadQuiet(l, Open(Key));
    QuietText(FullHead(l));
    HeadFlag(l);
    PatternsFindable(space);
    var ps := LinePatterns();
    ScanHead(space, ps, ReadEntry(Xml(l)), head, [' ', ' '] + ps.block + ['\n'] + (rest + more + tail), false);
    ScanBlock(space, ps, e, rest + more + tail, l.isTruncated);
  }

  lemma ScanThenCollect(contents: seq<ObjectInfo>)
    requires contents != []
    ensures Collected([EntryOf(contents[0])], contents) == Collected([], contents)
  {
    var e := EntryOf(contents[0]);
    assert [e][0].key == e.key;
    assert AddEntry([e], e) == [e];
    assert !HasKey([], e.key);
    assert AddEntry([], e) == [] + [e] == [e];
  }

  /** The client reads back the printed objects, the first one of each key, and the truncation flag. */
  lemma ReadsPrinted(space: char -> bool, l: Listing)
    requires WhiteSpace(space) && CleanListing(l)
    ensures Parsed(space, Xml(l)) == ListResponse(Collected([], l.contents), l.isTruncated)
  {
    XmlParts(l);
    FullHeadQuiet(l, Open(Contents));
    TailQuiet(l, Open(Contents));
    if l.contents == [] {
      ScanEmpty(space, l);
      BlocksAll(FullHead(l), l.contents, TailTokens(l), []);
    } else {
      ReadFirstOfListing(l);
      ScanObjects(space, l, EntryOf(l.contents[0]));
      BlocksAll(FullHead(l), l.contents, TailTokens(l), [EntryOf(l.contents[0])]);
      ScanThenCollect(l.contents);
    }
  }

  // ---------- when nothing is lost ----------

  ghost predicate DistinctKeys(contents: seq<ObjectInfo>) {
    forall i, j | 0 <= i < j < |contents| :: contents[i].key != contents[j].key
  }

  ghost predicate Unquoted(s: string) {
    s == [] || (s[0] != '"' && s[|s| - 1] != '"')
  }

  /** The objects as they are, in order. */
  function Exact(contents: seq<ObjectInfo>): (r: seq<Entry>) {
    seq(|contents|, i requires 0 <= i < |contents| =>
      Entry(contents[i].key, contents[i].size, contents[i].lastModified, contents[i].etag))
  }

  function Entries(contents: seq<ObjectInfo>): (r: seq<Entry>) {
    seq(|contents|, i requires 0 <= i < |contents| => EntryOf(contents[i]))
  }

  /** Nothing in the objects collected so far has a key of the contents. */
  ghost predicate Apart(objects: seq<Entry>, contents: seq<ObjectInfo>) {
    forall i, j | 0 <= i < |objects| && 0 <= j < |contents| :: objects[i].key != contents[j].key
  }

  lemma {:induction false} CollectDistinct(objects: seq<Entry>, contents: seq<ObjectInfo>)
    requires DistinctKeys(contents) && Apart(objects, contents)
    ensures Collected(objects, contents) == objects + Entries(contents)
    decreases |contents|
  {
    if contents == [] {
      assert objects + Entries(contents) == objects;
    } else {
      var o := contents[0];
      assert !HasKey(objects, o.key);
      assert Entries(contents) == [EntryOf(o)] + Entries(contents[1..]);
      var next := objects + [EntryOf(o)];
      forall i, j | 0 <= i < |next| && 0 <= j < |contents[1..]| ensures next[i].key != contents[1..][j].key {
        assert contents[1..][j] == contents[j + 1];
      }
      CollectDistinct(next, contents[1..]);
      assert next + Entries(contents[1..]) == objects + Entries(contents);
    }
  }

  ghost predicate DistinctEntries(r: seq<Entry>) {
    forall i, j | 0 <= i < j < |r| :: r[i].key != r[j].key
  }

  /** Keys stay distinct while objects are collected. */
  lemma {:induction false} CollectedKeys(objects: seq<Entry>, contents: seq<ObjectInfo>)
    requires DistinctEntries(objects)
    ensures DistinctEntries(Collected(objects, contents))
    decreases |contents|
  {
    if contents != [] {
      CollectedKeys(AddEntry(objects, EntryOf(contents[0])), contents[1..]);
    }
  }

  lemma TrimUnquoted(s: string)
    ensures Trim(IsQuote, s) == s <==> Unquoted(s)
  {
    if s != [] {
      var k := TrimStartParts(IsQuote, s);
      var b := TrimEndParts(IsQuote, TrimStart(IsQuote, s));
      if IsQuote(s[0]) {
        var j := TrimStartParts(IsQuote, s[1..]);
        assert |TrimStart(IsQuote, s)| < |s|;
      } else if IsQuote(s[|s| - 1]) {
        var d := TrimEndParts(IsQuote, s[..|s| - 1]);
        assert |TrimEnd(IsQuote, s)| < |s|;
      }
    }
  }

  ghost predicate Faithful(contents: seq<ObjectInfo>) {
    DistinctKeys(contents) && forall i | 0 <= i < |contents| :: Unquoted(contents[i].etag)
  }

  /**
    The client holds exactly the printed objects, in order, if and only if the keys are distinct and no
    etag starts or ends with a quote; the truncation flag is always right.
  */
  lemma ListingRoundTrip(space: char -> bool, l: Listing)
    requires WhiteSpace(space) && CleanListing(l)
    ensures Parsed(space, Xml(l)).isTruncated == l.isTruncated
    ensures Parsed(space, Xml(l)).objects == Exact(l.contents) <==> Faithful(l.contents)
  {
    ReadsPrinted(space, l);
    if Parsed(space, Xml(l)).objects == Exact(l.contents) {
      ExactIsFaithful(l.contents);
    }
    if Faithful(l.contents) {
      CollectDistinct([], l.contents);
      forall i | 0 <= i < |l.contents| ensures Entries(l.contents)[i] == Exact(l.contents)[i] {
        TrimUnquoted(l.contents[i].etag);
      }
      assert Entries(l.contents) == Exact(l.contents);
    }
  }

  lemma ExactIsFaithful(contents: seq<ObjectInfo>)
    requires Collected([], contents) == Exact(contents)
    ensures Faithful(contents)
  {
    var r := Exact(contents);
    CollectedKeys([], contents);
    forall i, j | 0 <= i < j < |contents| ensures contents[i].key != contents[j].key {
      assert r[i].key != r[j].key;
    }
    CollectDistinct([], contents);
    forall i | 0 <= i < |contents| ensures Unquoted(contents[i].etag) {
      assert Entries(contents)[i] == r[i];
      TrimUnquoted(contents[i].etag);
    }
  }
}
