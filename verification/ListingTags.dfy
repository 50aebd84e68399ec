/**
  Listings with any keys. The gateway prints keys without escaping (cyxcloud-gateway/src/s3_api.rs), so they may
  contain the tags the client looks for (cyxcloud-cli/src/client.rs); this says exactly which keys it then holds.
*/
module ListingTags {
  import opened Wrappers
  import opened Substrings
  import opened Markup
  import opened Listings
  import opened ListingReader

  function Keys(objects: seq<Entry>): (r: seq<string>)
    ensures |r| == |objects|
  {
    seq(|objects|, i requires 0 <= i < |objects| => objects[i].key)
  }

  function PrintedKeys(contents: seq<ObjectInfo>): (r: seq<string>)
    ensures |r| == |contents|
  {
    seq(|contents|, i requires 0 <= i < |contents| => contents[i].key)
  }

  lemma KeysHave(objects: seq<Entry>, key: string)
    ensures key in Keys(objects) <==> HasKey(objects, key)
  {
    if HasKey(objects, key) {
      var i :| 0 <= i < |objects| && objects[i].key == key;
      assert Keys(objects)[i] == key;
    }
  }

  /** A key the client can take from a block: it contains neither its own closing tag nor that of the block. */
  ghost predicate FreeKey(key: string) { FreeOf(key, Close(Key)) && FreeOf(key, Close(Contents)) }

  /** Nothing but keys may contain tags. */
  ghost predicate AnyKeys(l: Listing) {
    CleanFrame(l) && forall i | 0 <= i < |l.contents| :: CleanButKey(l.contents[i])
  }

  // ---------- what the client takes from any text ----------

  lemma {:induction false} FindNoLater(s: string, p: string, i: nat)
    requires OccursAt(s, p, i)
    ensures Find(s, p).Some? && Find(s, p).value <= i
  {
    if !(p <= s) {
      assert i > 0;
      assert OccursAt(s[1..], p, i - 1) by { assert s[1..][i - 1..i - 1 + |p|] == s[i..i + |p|]; }
      FindNoLater(s[1..], p, i - 1);
    }
  }

  /** An extracted value lies in the text before a closing tag, and does not contain one. */
  lemma ExtractWhere(text: string, tag: string) returns (p: nat)
    requires ExtractValue(text, tag).Some?
    ensures var v, close := ExtractValue(text, tag).value, "</" + tag + ">";
            p + |v| + |close| <= |text| && text[p..p + |v|] == v && !Occurs(v, close)
  {
    var open, close := "<" + tag + ">", "</" + tag + ">";
    FindIsOccurrence(text, open);
    p := Find(text, open).value + |open|;
    UntilFree(text[p..], close);
    var v := ExtractValue(text, tag).value;
    assert text[p..p + |v|] == text[p..][..|v|];
  }

  lemma UntilFree(s: string, close: string)
    requires close != [] && Until(s, close).Some?
    ensures var v := Until(s, close).value; |v| + |close| <= |s| && s[..|v|] == v && !Occurs(v, close)
  {
    FindIsOccurrence(s, close);
    var j := Find(s, close).value;
    forall i: nat ensures !OccursAt(s[..j], close, i) {
      if OccursAt(s[..j], close, i) {
        OccursWithin(s, 0, s[..j], close, i);
        FindNoLater(s, close, i);
      }
    }
  }

  lemma OccursWithin(text: string, p: nat, part: string, mark: string, i: nat)
    requires p + |part| <= |text| && text[p..p + |part|] == part && OccursAt(part, mark, i)
    ensures OccursAt(text, mark, p + i)
  {
    forall k | 0 <= k < |mark| ensures text[p + i..p + i + |mark|][k] == mark[k] {
      assert part[i..i + |mark|][k] == part[i + k] == text[p..p + |part|][i + k];
    }
  }

  /** A block ends at the first closing tag behind its start. */
  lemma BlockEnds(open: string, close: string, text: string, b: Block, i: nat)
    requires close != [] && NextBlock(open, close, text) == Some(b) && OccursAt(b.text, close, i)
    ensures i + |close| == |b.text|
  {
    FindIsOccurrence(text, open);
    var at := Find(text, open).value;
    var from := text[at..];
    FindIsOccurrence(from, close);
    var n := Find(from, close).value + |close|;
    assert b.text == text[at..at + n] == from[..n];
    OccursWithin(from, 0, b.text, close, i);
    FindNoLater(from, close, i);
  }

  lemma BlockKeyFree(open: string, close: string, text: string, b: Block, tag: string)
    requires close != [] && NextBlock(open, close, text) == Some(b) && ExtractValue(b.text, tag).Some?
    ensures var v := ExtractValue(b.text, tag).value; !Occurs(v, close) && !Occurs(v, "</" + tag + ">")
  {
    var v := ExtractValue(b.text, tag).value;
    var p := ExtractWhere(b.text, tag);
    forall i: nat ensures !OccursAt(v, close, i) {
      if OccursAt(v, close, i) {
        OccursWithin(b.text, p, v, close, i);
        BlockEnds(open, close, text, b, p + i);
      }
    }
  }

  /** All keys can be taken from a block, but for one given key. */
  ghost predicate FreeBut(objects: seq<Entry>, first: string) {
    forall i | 0 <= i < |objects| :: FreeKey(objects[i].key) || objects[i].key == first
  }

  lemma AddFree(text: string, b: Block, objects: seq<Entry>, first: string)
    requires NextBlock(MarkText(Open(Contents)), MarkText(Close(Contents)), text) == Some(b) && FreeBut(objects, first)
    ensures FreeBut(AddBlock(objects, b.text), first)
  {
    CloseText(Key);
    if ExtractValue(b.text, ElementName(Key)).Some? {
      BlockKeyFree(MarkText(Open(Contents)), MarkText(Close(Contents)), text, b, ElementName(Key));
      assert FreeKey(ReadEntry(b.text).value.key);
    }
  }

  /** The second pass over any text adds only such keys. */
  lemma {:induction false} BlocksFree(text: string, objects: seq<Entry>, first: string)
    requires FreeBut(objects, first)
    ensures FreeBut(Blocks(ObjectBlocks(), AddBlock, text, objects), first)
    decreases |text|
  {
    var b := NextBlock(MarkText(Open(Contents)), MarkText(Close(Contents)), text);
    if b.Some? {
      AddFree(text, b.value, objects, first);
      BlocksFree(text[b.value.end..], AddBlock(objects, b.value.text), first);
    }
  }

  /** And no key twice. */
  lemma {:induction false} BlocksDistinct(next: Next, text: string, objects: seq<Entry>)
    requires DistinctEntries(objects)
    ensures DistinctEntries(Blocks(next, AddBlock, text, objects))
    decreases |text|
  {
    var b := next(text);
    if b.Some? && 0 < b.value.end <= |text| { BlocksDistinct(next, text[b.value.end..], AddBlock(objects, b.value.text)); }
  }

  /** What is held stays held. */
  lemma {:induction false} BlocksGrow(next: Next, text: string, objects: seq<Entry>)
    ensures objects <= Blocks(next, AddBlock, text, objects)
    decreases |text|
  {
    var b := next(text);
    if b.Some? && 0 < b.value.end <= |text| {
      BlocksGrow(next, text[b.value.end..], AddBlock(objects, b.value.text));
    }
  }

  lemma HeldStays(next: Next, text: string, objects: seq<Entry>, key: string)
    requires HasKey(objects, key)
    ensures HasKey(Blocks(next, AddBlock, text, objects), key)
  {
    var i :| 0 <= i < |objects| && objects[i].key == key;
    BlocksGrow(next, text, objects);
    assert Blocks(next, AddBlock, text, objects)[i] == objects[i];
  }

  // ---------- a printed block ----------

  /** An element printed anywhere in the text makes extraction find something. */
  lemma ExtractSome(before: string, tag: string, value: string, after: string)
    ensures ExtractValue(before + ("<" + tag + ">") + value + ("</" + tag + ">") + after, tag).Some?
  {
    var open, close := "<" + tag + ">", "</" + tag + ">";
    BothFound(before, open, value, close, after);
  }

  lemma BothFound(before: string, open: string, value: string, close: string, after: string)
    ensures var text := before + open + value + close + after;
            After(text, open).Some? && Until(After(text, open).value, close).Some?
  {
    var text := before + open + value + close + after;
    OccursBehind(before, open, value + close + after);
    assert text == before + open + (value + close + after);
    FindNoLater(text, open, |before|);
    FindIsOccurrence(text, open);
    CloseOccurs(before + open + value, close, after, Find(text, open).value + |open|);
  }

  lemma OccursBehind(a: string, p: string, b: string)
    ensures OccursAt(a + p + b, p, |a|)
  {
    assert (a + p + b)[|a|..|a| + |p|] == p;
  }

  lemma CloseOccurs(a: string, close: string, b: string, from: nat)
    requires from <= |a|
    ensures Until((a + close + b)[from..], close).Some?
  {
    assert (a + close + b)[from..] == a[from..] + close + b;
    OccursBehind(a[from..], close, b);
    FindNoLater(a[from..] + close + b, close, |a| - from);
  }

  lemma SizeFound(o: ObjectInfo)
    ensures ExtractValue(BlockText(o), ElementName(Size)).Some?
  {
    var lead := [Tag(Open(Contents))] + KeyField(o) + DateField(o) + TagField(o);
    BlockParts(o);
    BlockFour([Tag(Open(Contents))], o);
    RenderAppend(lead, SizeField(o));
    RenderAppend(lead + SizeField(o), ClassField(o));
    RenderField(DEEP, Size, NatText(o.size));
    CloseText(Size);
    var end := INDENT + MarkText(Close(Contents));
    SizeRegroup(Render(lead), DEEP, MarkText(Open(Size)), NatText(o.size), MarkText(Close(Size)), Render(ClassField(o)), end);
    ExtractSome(Render(lead) + DEEP, ElementName(Size), NatText(o.size), Render(ClassField(o)) + end);
  }

  lemma SizeRegroup(lead: string, indent: string, open: string, value: string, close: string, class_: string, end: string)
    ensures lead + (indent + open + value + close) + class_ + end == (lead + indent) + open + value + close + (class_ + end)
  {}

  /** A block cut out whole adds one entry, with the printed key or another. */
  lemma WholeBlock(objects: seq<Entry>, o: ObjectInfo) returns (e: Entry)
    ensures AddBlock(objects, BlockText(o)) == AddEntry(objects, e)
    ensures e.key == o.key <==> FreeOf(o.key, Close(Key))
  {
    KeyOfBlock(o);
    SizeFound(o);
    e := ReadEntry(BlockText(o)).value;
  }

  /** What a block holds behind its key. */
  function AfterKey(o: ObjectInfo): seq<Token> {
    [Tag(Close(Key))] + DateField(o) + TagField(o) + SizeField(o) + ClassField(o) + [Text(INDENT)]
  }

  /** What it holds before. */
  function BeforeKey(): seq<Token> { [Tag(Open(Contents)), Text(DEEP), Tag(Open(Key))] }

  function BehindKey(o: ObjectInfo): string { Render(AfterKey(o)) + MarkText(Close(Contents)) }

  lemma KeyTokens(o: ObjectInfo)
    ensures BlockStart(o) == BeforeKey() + [Text(o.key)] + AfterKey(o)
  {
    var k, m, t, z, c := KeyField(o), DateField(o), TagField(o), SizeField(o), ClassField(o);
    assert k == [Text(DEEP), Tag(Open(Key)), Text(o.key)] + [Tag(Close(Key))];
    KeyRegroup(Tag(Open(Contents)), [Text(DEEP), Tag(Open(Key))], Text(o.key), Tag(Close(Key)), m, t, z, c, Text(INDENT));
    assert [Text(DEEP), Tag(Open(Key)), Text(o.key)] + [Tag(Close(Key))] == [Text(DEEP), Tag(Open(Key))] + [Text(o.key)] + [Tag(Close(Key))];
    assert [Tag(Open(Contents))] + [Text(DEEP), Tag(Open(Key))] == BeforeKey();
  }

  lemma KeyRegroup(a: Token, b: seq<Token>, key: Token, close: Token, m: seq<Token>, t: seq<Token>, z: seq<Token>, c: seq<Token>, last: Token)
    ensures [a] + ((b + [key] + [close]) + m + t + z + c) + [last] == ([a] + b) + [key] + ([close] + m + t + z + c + [last])
  {}

  lemma KeySplit(o: ObjectInfo)
    ensures BlockText(o) == Render(BeforeKey()) + (o.key + BehindKey(o))
  {
    KeyTokens(o);
    BlockParts(o);
    RenderText(o.key);
    RenderAppend(BeforeKey(), [Text(o.key)]);
    RenderAppend(BeforeKey() + [Text(o.key)], AfterKey(o));
    FourParts(Render(BeforeKey()), o.key, Render(AfterKey(o)), MarkText(Close(Contents)));
  }

  lemma FourParts(a: string, b: string, c: string, d: string)
    ensures (a + b) + c + d == a + (b + (c + d))
  {}

  lemma CleanAfterKey(o: ObjectInfo, m: Mark)
    requires CleanButKey(o) && (m == Open(Contents) || m == Close(Contents) || m == Open(Key))
    ensures Clean(AfterKey(o), m) && Without(AfterKey(o), m)
  {
    var k := [Tag(Close(Key))];
    CleanField(DEEP, LastModified, o.lastModified, m);
    CleanField(DEEP, ETag, o.etag, m);
    IntTextClean(o.size);
    PlainIsClean(NatText(o.size));
    CleanField(DEEP, Size, NatText(o.size), m);
    CleanField(DEEP, StorageClass, o.storageClass, m);
    CleanAppend(k, DateField(o), m);
    CleanAppend(k + DateField(o), TagField(o), m);
    CleanAppend(k + DateField(o) + TagField(o), SizeField(o), m);
    CleanAppend(k + DateField(o) + TagField(o) + SizeField(o), ClassField(o), m);
    CleanAppend(k + DateField(o) + TagField(o) + SizeField(o) + ClassField(o), [Text(INDENT)], m);
  }

  /** Any text free of the tag, in place of the key. */
  lemma CleanBehind(text: string, o: ObjectInfo, m: Mark)
    requires CleanButKey(o) && FreeOf(text, m) && (m == Open(Contents) || m == Close(Contents) || m == Open(Key))
    ensures Clean([Text(text)] + AfterKey(o), m) && Without([Text(text)] + AfterKey(o), m)
    ensures Render([Text(text)] + AfterKey(o)) == text + Render(AfterKey(o))
  {
    CleanAfterKey(o, m);
    var ts := [Text(text)] + AfterKey(o);
    assert ts[1] == AfterKey(o)[0] == Tag(Close(Key));
    forall i | 1 <= i < |ts| ensures ts[i] == AfterKey(o)[i - 1] {}
    RenderText(text);
    RenderAppend([Text(text)], AfterKey(o));
  }

  lemma BehindText(text: string, o: ObjectInfo)
    requires CleanButKey(o) && FreeOf(text, Open(Contents))
    ensures var lead := [Text(text)] + AfterKey(o) + [Tag(Close(Contents))];
            Clean(lead, Open(Contents)) && Without(lead, Open(Contents)) && Render(lead) == text + BehindKey(o)
  {
    CleanBehind(text, o, Open(Contents));
    CleanAppend([Text(text)] + AfterKey(o), [Tag(Close(Contents))], Open(Contents));
    RenderAppend([Text(text)] + AfterKey(o), [Tag(Close(Contents))]);
    RenderOne(Close(Contents));
    Regroup3(text, Render(AfterKey(o)), MarkText(Close(Contents)));
  }

  lemma CloseBehind(text: string, o: ObjectInfo, rest: string)
    requires CleanButKey(o) && FreeOf(text, Close(Contents))
    ensures Find(text + BehindKey(o) + rest, MarkText(Close(Contents))) == Some(|text + Render(AfterKey(o))|)
  {
    CleanBehind(text, o, Close(Contents));
    FindTag([Text(text)] + AfterKey(o), Close(Contents), rest);
    Regroup3(text, Render(AfterKey(o)), MarkText(Close(Contents)));
  }

  // ---------- steps of the second pass ----------

  /** One step of the second pass, for any way to find blocks. */
  lemma TakeBlock(next: Next, add: Add, text: string, b: Block, rest: string, objects: seq<Entry>)
    requires next(text) == Some(b) && 0 < b.end <= |text| && text[b.end..] == rest
    ensures Blocks(next, add, text, objects) == Blocks(next, add, rest, add(objects, b.text))
  {}

  lemma TakeFound(open: string, close: string, add: Add, text: string, b: Block, rest: string, objects: seq<Entry>)
    requires close != [] && NextBlock(open, close, text) == Some(b) && text[b.end..] == rest
    ensures Blocks(BlockFinder(open, close), add, text, objects) == Blocks(BlockFinder(open, close), add, rest, add(objects, b.text))
  {
    TakeBlock(BlockFinder(open, close), add, text, b, rest, objects);
  }

  lemma FoundAt(open: string, close: string, text: string, i: nat, j: nat, n: nat)
    requires close != [] && Find(text, open) == Some(i) && i <= |text| && Find(text[i..], close) == Some(j) && n == i + j + |close| <= |text|
    ensures NextBlock(open, close, text) == Some(Block(text[i..n], n))
  {}

  lemma FindFront(text: string, rest: string, p: string)
    requires Occurs(text, p)
    ensures Find(text, p).Some? && Find(text + rest, p) == Find(text, p) && Find(text, p).value + |p| <= |text|
  {
    FindOccurs(text, p);
    FindIsOccurrence(text, p);
    FindInFront(text, rest, p);
  }

  /** Where the next block starts inside the text, and what the text is from there. */
  ghost function FromOpen(text: string, open: string): string
    requires Occurs(text, open)
  {
    FindFront(text, "", open);
    text[Find(text, open).value..]
  }

  /** A block that starts and ends inside the text. */
  lemma StepInside(open: string, close: string, add: Add, text: string, behind: string, rest: string, objects: seq<Entry>)
    returns (block: string, more: string)
    requires close != [] && Occurs(text, open) && Occurs(FromOpen(text, open), close)
    ensures |block| <= |text| && |more| < |text|
    ensures Blocks(BlockFinder(open, close), add, text + behind + rest, objects)
         == Blocks(BlockFinder(open, close), add, more + behind + rest, add(objects, block))
  {
    var inner := FromOpen(text, open);
    FindFront(text, behind + rest, open);
    FindFront(inner, behind + rest, close);
    Regroup3(text, behind, rest);
    Regroup3(inner, behind, rest);
    var i, j := Find(text, open).value, Find(inner, close).value;
    block, more := inner[..j + |close|], inner[j + |close|..];
    InnerStep(open, close, add, text, i, j, behind, rest, objects);
  }

  lemma WholeEnd(text: string, i: nat, inner: string, o: ObjectInfo, rest: string, objects: seq<Entry>)
    requires CleanButKey(o) && i <= |text| && inner == text[i..] && FreeOf(inner, Close(Contents))
    requires Find(text + BehindKey(o) + rest, MarkText(Open(Contents))) == Some(i)
    ensures Blocks(ObjectBlocks(), AddBlock, text + BehindKey(o) + rest, objects)
         == Blocks(ObjectBlocks(), AddBlock, rest, AddBlock(objects, inner + BehindKey(o)))
  {
    CloseBehind(inner, o, rest);
    Regroup3(inner, Render(AfterKey(o)), MarkText(Close(Contents)));
    WholeStep(MarkText(Open(Contents)), MarkText(Close(Contents)), AddBlock, text, i, inner, BehindKey(o), rest, objects);
  }

  lemma WholeStep(open: string, close: string, add: Add, text: string, i: nat, inner: string, behind: string, rest: string, objects: seq<Entry>)
    requires close != [] && |close| <= |behind| && i <= |text| && inner == text[i..]
    requires Find(text + behind + rest, open) == Some(i)
    requires Find(inner + behind + rest, close) == Some(|inner + behind| - |close|)
    ensures Blocks(BlockFinder(open, close), add, text + behind + rest, objects)
         == Blocks(BlockFinder(open, close), add, rest, add(objects, inner + behind))
  {
    var all, n := text + behind + rest, i + |inner + behind|;
    WholeCut(text, i, behind, rest, inner);
    FoundAt(open, close, all, i, |inner + behind| - |close|, n);
    TakeFound(open, close, add, all, Block(inner + behind, n), rest, objects);
  }

  lemma WholeCut(text: string, i: nat, behind: string, rest: string, inner: string)
    requires i <= |text| && inner == text[i..]
    ensures var all := text + behind + rest; var n := |inner + behind|;
            i + n <= |all| && all[i..] == inner + behind + rest && all[i..i + n] == inner + behind && all[i + n..] == rest
  {}

  lemma InnerStep(open: string, close: string, add: Add, text: string, i: nat, j: nat, behind: string, rest: string, objects: seq<Entry>)
    requires close != [] && i <= |text| && j + |close| <= |text| - i
    requires Find(text + behind + rest, open) == Some(i) && Find(text[i..] + behind + rest, close) == Some(j)
    ensures Blocks(BlockFinder(open, close), add, text + behind + rest, objects)
         == Blocks(BlockFinder(open, close), add, text[i..][j + |close|..] + behind + rest, add(objects, text[i..][..j + |close|]))
  {
    var all, inner, n := text + behind + rest, text[i..], j + |close|;
    InnerCut(text, i, n, behind, rest);
    FoundAt(open, close, all, i, j, i + n);
    TakeFound(open, close, add, all, Block(inner[..n], i + n), inner[n..] + behind + rest, objects);
  }

  lemma InnerCut(text: string, i: nat, n: nat, behind: string, rest: string)
    requires i <= |text| && n <= |text| - i
    ensures var all, inner := text + behind + rest, text[i..];
            i + n <= |all| && all[i..] == inner + behind + rest && all[i..i + n] == inner[..n] && all[i + n..] == inner[n..] + behind + rest
  {}

  // ---------- a block cut inside its key ----------

  /** What the block of an object consists of, by names that hide the texts of the tags. */
  ghost predicate Parts(o: ObjectInfo, open: string, close: string, before: string, block: string) {
    open == MarkText(Open(Contents)) && close == MarkText(Close(Contents)) && before == Render(BeforeKey()) && block == BlockText(o)
  }

  /** The pattern occurs here and not before. */
  ghost predicate FirstAt(s: string, p: string, i: nat) {
    OccursAt(s, p, i) && forall j: nat | OccursAt(s, p, j) :: i <= j
  }

  lemma FindIsFirst(s: string, p: string, i: nat)
    ensures FirstAt(s, p, i) <==> Find(s, p) == Some(i)
  {
    FindIsOccurrence(s, p);
    if Find(s, p).Some? { assert OccursAt(s, p, Find(s, p).value); }
    forall j: nat | OccursAt(s, p, j) ensures Find(s, p).Some? && Find(s, p).value <= j { FindNoLater(s, p, j); }
  }

  /** Where the block of an object is cut, inside its key. */
  lemma CloseInKey(o: ObjectInfo, open: string, close: string, before: string, block: string, rest: string) returns (j: nat)
    requires Parts(o, open, close, before, block) && !FreeOf(o.key, Close(Contents))
    ensures j + |close| <= |o.key| && |before| + |o.key| <= |block| && FirstAt(block + rest, close, |before| + j)
  {
    KeySplit(o);
    SkipBefore(o.key + BehindKey(o) + rest);
    j := CloseInText(before, o.key, BehindKey(o), rest, close);
    FindIsFirst(block + rest, close, |before| + j);
  }

  lemma OpenAtLead(lead: seq<Token>, o: ObjectInfo, open: string, close: string, before: string, block: string, rest: string)
    requires Parts(o, open, close, before, block) && Clean(lead, Open(Contents)) && Without(lead, Open(Contents))
    ensures FirstAt(Render(lead) + (block + rest), open, |Render(lead)|)
  {
    FindOpen(lead, o, rest);
    FindIsFirst(Render(lead) + (block + rest), open, |Render(lead)|);
  }

  lemma SkipBefore(text: string)
    ensures Find(Render(BeforeKey()) + text, MarkText(Close(Contents))) == Shift(|Render(BeforeKey())|, Find(text, MarkText(Close(Contents))))
  {
    SkipTokens(BeforeKey(), text, Close(Contents), MarkText(Close(Contents)));
  }

  lemma CloseInText(before: string, key: string, behind: string, rest: string, close: string) returns (j: nat)
    requires Occurs(key, close)
    requires Find(before + (key + behind + rest), close) == Shift(|before|, Find(key + behind + rest, close))
    ensures j + |close| <= |key| && Find(before + (key + behind) + rest, close) == Some(|before| + j)
  {
    FindFront(key, behind + rest, close);
    j := Find(key, close).value;
    Regroup3(key, behind, rest);
    Regroup3(before, key + behind, rest);
  }

  lemma CutParts(before: string, key: string, n: nat, behind: string)
    requires n <= |key|
    ensures var block, end := before + (key + behind), |before| + n;
            end <= |block| && block[..end] == before + key[..n] && block[end..] == key[n..] + behind
  {}

  /** The block ends inside the key, whatever is done with it. */
  lemma CutKey(next: Next, add: Add, lead: seq<Token>, o: ObjectInfo, open: string, close: string, before: string, block: string, rest: string,
               objects: seq<Entry>) returns (n: nat)
    requires Clean(lead, Open(Contents)) && Without(lead, Open(Contents)) && !FreeOf(o.key, Close(Contents))
    requires Parts(o, open, close, before, block) && close != [] && next == BlockFinder(open, close)
    ensures 0 < n <= |o.key|
    ensures Blocks(next, add, Render(lead) + (block + rest), objects)
         == Blocks(next, add, o.key[n..] + BehindKey(o) + rest, add(objects, before + o.key[..n]))
  {
    var k;
    n, k := CutWhere(lead, o, open, close, before, block, rest);
    CutBlock(next, open, close, add, Render(lead), block, k, |before| + n, before + o.key[..n], o.key[n..] + BehindKey(o), rest, objects);
  }

  lemma CutWhere(lead: seq<Token>, o: ObjectInfo, open: string, close: string, before: string, block: string, rest: string) returns (n: nat, k: nat)
    requires Clean(lead, Open(Contents)) && Without(lead, Open(Contents)) && !FreeOf(o.key, Close(Contents)) && Parts(o, open, close, before, block)
    ensures 0 < n <= |o.key| && |before| + n == k + |close| <= |block|
    ensures block[..|before| + n] == before + o.key[..n] && block[|before| + n..] == o.key[n..] + BehindKey(o)
    ensures FirstAt(Render(lead) + (block + rest), open, |Render(lead)|) && FirstAt(block + rest, close, k)
  {
    var j := CloseInKey(o, open, close, before, block, rest);
    OpenAtLead(lead, o, open, close, before, block, rest);
    n, k := j + |close|, |before| + j;
    KeySplit(o);
    CutParts(before, o.key, n, BehindKey(o));
  }

  lemma CutBlock(next: Next, open: string, close: string, add: Add, lead: string, block: string, k: nat, n: nat, piece: string, more: string,
                 rest: string, objects: seq<Entry>)
    requires close != [] && next == BlockFinder(open, close) && n == k + |close| <= |block| && block[..n] == piece && block[n..] == more
    requires FirstAt(lead + (block + rest), open, |lead|) && FirstAt(block + rest, close, k)
    ensures Blocks(next, add, lead + (block + rest), objects) == Blocks(next, add, more + rest, add(objects, piece))
  {
    var all := lead + (block + rest);
    StepParts(lead, block, rest, n);
    NextAt(next, open, close, all, |lead|, block + rest, k, piece, |lead| + n);
    TakeBlock(next, add, all, Block(piece, |lead| + n), more + rest, objects);
  }

  lemma NextAt(next: Next, open: string, close: string, all: string, i: nat, body: string, k: nat, block: string, end: nat)
    requires close != [] && next == BlockFinder(open, close) && i <= end == i + k + |close| <= |all|
    requires all[i..] == body && all[i..end] == block && FirstAt(all, open, i) && FirstAt(body, close, k)
    ensures next(all) == Some(Block(block, end))
  {
    FindIsFirst(all, open, i);
    FindIsFirst(body, close, k);
    FoundAt(open, close, all, i, k, end);
  }

  lemma StepParts(lead: string, block: string, rest: string, n: nat)
    requires n <= |block|
    ensures var all := lead + (block + rest);
            all[|lead|..] == block + rest && all[|lead|..|lead| + n] == block[..n] && all[|lead| + n..] == block[n..] + rest
  {}

  // ---------- every key that can be taken is taken ----------

  lemma WholeTaken(lead: seq<Token>, o: ObjectInfo, others: string, rest: string, objects: seq<Entry>)
    requires Clean(lead, Open(Contents)) && Without(lead, Open(Contents)) && CleanButKey(o) && FreeOf(o.key, Close(Contents))
    ensures Blocks(ObjectBlocks(), AddBlock, Render(lead) + ((INDENT + BlockText(o) + others) + rest), objects)
         == Blocks(ObjectBlocks(), AddBlock, others + rest, AddBlock(objects, BlockText(o)))
  {
    LeadIndent(lead);
    RegroupObject(Render(lead), INDENT, BlockText(o), others, rest);
    BlocksCut(lead + [Text(INDENT)], o, others + rest, objects);
  }

  lemma LeadIndent(lead: seq<Token>)
    requires Clean(lead, Open(Contents)) && Without(lead, Open(Contents))
    ensures Clean(lead + [Text(INDENT)], Open(Contents)) && Without(lead + [Text(INDENT)], Open(Contents))
    ensures Render(lead + [Text(INDENT)]) == Render(lead) + INDENT
  {
    RenderAppend(lead, [Text(INDENT)]);
    RenderText(INDENT);
    CleanAppend(lead, [Text(INDENT)], Open(Contents));
  }

  lemma CutTaken(lead: seq<Token>, o: ObjectInfo, others: string, rest: string, objects: seq<Entry>) returns (n: nat, more: seq<Entry>)
    requires Clean(lead, Open(Contents)) && Without(lead, Open(Contents)) && !FreeOf(o.key, Close(Contents))
    ensures n <= |o.key|
    ensures Blocks(ObjectBlocks(), AddBlock, Render(lead) + ((INDENT + BlockText(o) + others) + rest), objects)
         == Blocks(ObjectBlocks(), AddBlock, o.key[n..] + BehindKey(o) + (others + rest), more)
  {
    LeadIndent(lead);
    RegroupObject(Render(lead), INDENT, BlockText(o), others, rest);
    n := CutKey(ObjectBlocks(), AddBlock, lead + [Text(INDENT)], o, MarkText(Open(Contents)), MarkText(Close(Contents)), Render(BeforeKey()), BlockText(o),
                others + rest, objects);
    more := AddBlock(objects, Render(BeforeKey()) + o.key[..n]);
  }

  lemma FirstHeld(lead: seq<Token>, o: ObjectInfo, others: string, rest: string, objects: seq<Entry>)
    requires Clean(lead, Open(Contents)) && Without(lead, Open(Contents)) && CleanButKey(o) && FreeKey(o.key)
    ensures HasKey(Blocks(ObjectBlocks(), AddBlock, Render(lead) + ((INDENT + BlockText(o) + others) + rest), objects), o.key)
  {
    WholeTaken(lead, o, others, rest, objects);
    var e := WholeBlock(objects, o);
    AddedKey(objects, e);
    HeldStays(ObjectBlocks(), others + rest, AddBlock(objects, BlockText(o)), o.key);
  }

  lemma AddedKey(objects: seq<Entry>, e: Entry)
    ensures HasKey(AddEntry(objects, e), e.key)
  {
    if !HasKey(objects, e.key) { assert (objects + [e])[|objects|].key == e.key; }
  }

  /** The client takes the key of object i, whatever the keys before it. */
  lemma {:induction false} Held(lead: seq<Token>, contents: seq<ObjectInfo>, rest: string, objects: seq<Entry>, i: nat)
    requires Clean(lead, Open(Contents)) && Without(lead, Open(Contents)) && i < |contents| && FreeKey(contents[i].key)
    requires forall j | 0 <= j < |contents| :: CleanButKey(contents[j])
    ensures HasKey(Blocks(ObjectBlocks(), AddBlock, Render(lead) + (ObjectsText(contents) + rest), objects), contents[i].key)
    decreases |contents|, 0, 0
  {
    var o, others := contents[0], contents[1..];
    if i == 0 {
      FirstHeld(lead, o, ObjectsText(others), rest, objects);
    } else if FreeOf(o.key, Close(Contents)) {
      WholeTaken(lead, o, ObjectsText(others), rest, objects);
      Held([], others, rest, AddBlock(objects, BlockText(o)), i - 1);
      assert Render([]) + (ObjectsText(others) + rest) == ObjectsText(others) + rest;
    } else {
      var n, more := CutTaken(lead, o, ObjectsText(others), rest, objects);
      HeldBehind(o.key[n..], o, others, rest, more, i - 1);
    }
  }

  /** The same from the middle of a key on: the block that the client finds there ends with the printed block or before. */
  lemma {:induction false} HeldBehind(text: string, o: ObjectInfo, contents: seq<ObjectInfo>, rest: string, objects: seq<Entry>, i: nat)
    requires CleanButKey(o) && i < |contents| && FreeKey(contents[i].key)
    requires forall j | 0 <= j < |contents| :: CleanButKey(contents[j])
    ensures HasKey(Blocks(ObjectBlocks(), AddBlock, text + BehindKey(o) + (ObjectsText(contents) + rest), objects), contents[i].key)
    decreases |contents|, 1, |text|
  {
    if FreeOf(text, Open(Contents)) {
      BehindText(text, o);
      Held([Text(text)] + AfterKey(o) + [Tag(Close(Contents))], contents, rest, objects, i);
    } else if FreeOf(FromOpen(text, MarkText(Open(Contents))), Close(Contents)) {
      var more := WholeFrom(text, o, ObjectsText(contents) + rest, objects);
      Held([], contents, rest, more, i);
      assert Render([]) + (ObjectsText(contents) + rest) == ObjectsText(contents) + rest;
    } else {
      var block, more := StepInside(MarkText(Open(Contents)), MarkText(Close(Contents)), AddBlock, text, BehindKey(o), ObjectsText(contents) + rest, objects);
      HeldBehind(more, o, contents, rest, AddBlock(objects, block), i);
    }
  }

  /** A block that starts inside the text and ends with the printed block. */
  lemma WholeFrom(text: string, o: ObjectInfo, rest: string, objects: seq<Entry>) returns (more: seq<Entry>)
    requires CleanButKey(o) && !FreeOf(text, Open(Contents)) && FreeOf(FromOpen(text, MarkText(Open(Contents))), Close(Contents))
    ensures Blocks(ObjectBlocks(), AddBlock, text + BehindKey(o) + rest, objects) == Blocks(ObjectBlocks(), AddBlock, rest, more)
  {
    var open := MarkText(Open(Contents));
    var inner := FromOpen(text, open);
    FindFront(text, BehindKey(o) + rest, open);
    Regroup3(text, BehindKey(o), rest);
    WholeEnd(text, Find(text, open).value, inner, o, rest, objects);
    more := AddBlock(objects, inner + BehindKey(o));
  }

  // ---------- all keys, in order ----------

  /** The printed keys added to those held, each one once. */
  function Taken(keys: seq<string>, contents: seq<ObjectInfo>): seq<string>
    decreases |contents|
  {
    if contents == [] then keys
    else Taken(if contents[0].key in keys then keys else keys + [contents[0].key], contents[1..])
  }

  lemma AddedKeys(objects: seq<Entry>, e: Entry)
    ensures Keys(AddEntry(objects, e)) == if e.key in Keys(objects) then Keys(objects) else Keys(objects) + [e.key]
  {
    KeysHave(objects, e.key);
  }

  lemma {:induction false} FreeBlocks(lead: seq<Token>, contents: seq<ObjectInfo>, tail: seq<Token>, objects: seq<Entry>)
    requires Clean(lead, Open(Contents)) && Without(lead, Open(Contents)) && Clean(tail, Open(Contents)) && Without(tail, Open(Contents))
    requires forall i | 0 <= i < |contents| :: CleanButKey(contents[i]) && FreeKey(contents[i].key)
    ensures Keys(Blocks(ObjectBlocks(), AddBlock, Render(lead) + (ObjectsText(contents) + Render(tail)), objects)) == Taken(Keys(objects), contents)
    decreases |contents|
  {
    if contents == [] {
      BlocksAll(lead, contents, tail, objects);
    } else {
      var o, others := contents[0], contents[1..];
      WholeTaken(lead, o, ObjectsText(others), Render(tail), objects);
      var e := WholeBlock(objects, o);
      AddedKeys(objects, e);
      FreeBlocks([], others, tail, AddBlock(objects, BlockText(o)));
      assert Render([]) + (ObjectsText(others) + Render(tail)) == ObjectsText(others) + Render(tail);
    }
  }

  lemma {:induction false} TakenDistinct(keys: seq<string>, contents: seq<ObjectInfo>)
    requires DistinctKeys(contents) && forall i | 0 <= i < |contents| :: contents[i].key !in keys
    ensures Taken(keys, contents) == keys + PrintedKeys(contents)
    decreases |contents|
  {
    if contents != [] {
      var rest := contents[1..];
      forall i | 0 <= i < |rest| ensures rest[i].key !in keys + [contents[0].key] { assert rest[i] == contents[i + 1]; }
      forall i, j | 0 <= i < j < |rest| ensures rest[i].key != rest[j].key { assert rest[i] == contents[i + 1] && rest[j] == contents[j + 1]; }
      TakenDistinct(keys + [contents[0].key], rest);
      assert PrintedKeys(contents) == [contents[0].key] + PrintedKeys(rest);
    }
  }

  // ---------- the whole listing ----------

  /** The key the first pass takes: the first one up to a closing tag in it. */
  function FirstRead(l: Listing): string
    requires l.contents != []
  {
    Cut(l.contents[0].key, MarkText(Close(Key)))
  }

  /** What the first pass makes of the first key. */
  lemma FirstKey(l: Listing) returns (e: Entry)
    requires CleanFrame(l) && l.contents != []
    ensures ReadEntry(Xml(l)) == Some(e) && e.key == FirstRead(l)
  {
    FirstExtracted(l, Xml(l));
    e := ReadEntry(Xml(l)).value;
  }

  lemma FirstExtracted(l: Listing, xml: string)
    requires CleanFrame(l) && l.contents != [] && xml == Xml(l)
    ensures ExtractValue(xml, ElementName(Key)) == Some(FirstRead(l))
  {
    var start, o := [Text(INDENT), Tag(Open(Contents))], l.contents[0];
    var rest := FirstText(l, start);
    StartQuiet(start);
    LeadQuiet(l, start);
    ExtractIn(FullHead(l) + start, DEEP, Key, o.key, DateField(o) + TagField(o) + SizeField(o) + ClassField(o), rest);
  }

  lemma FirstText(l: Listing, start: seq<Token>) returns (rest: string)
    requires l.contents != [] && start == [Text(INDENT), Tag(Open(Contents))]
    ensures var o := l.contents[0];
            Xml(l) == Render(FullHead(l) + start + KeyField(o) + (DateField(o) + TagField(o) + SizeField(o) + ClassField(o))) + rest
  {
    var more, tail := ObjectsText(l.contents[1..]), Render(TailTokens(l));
    XmlParts(l);
    FirstObjectText(FullHead(l), start, l.contents[0], more, tail);
    BlockOrder(FullHead(l) + start, l.contents[0]);
    rest := (INDENT + MarkText(Close(Contents))) + (more + tail);
  }

  /** The second pass from the start of a text. */
  ghost function SecondPass(text: string, objects: seq<Entry>): seq<Entry> {
    Blocks(ObjectBlocks(), AddBlock, text, objects)
  }

  lemma ParsedByScan(space: char -> bool, xml: string, first: seq<Entry>, truncated: bool)
    requires Scan(space, LinePatterns(), ReadEntry(xml), xml, false) == (first, truncated)
    ensures Parsed(space, xml) == ListResponse(SecondPass(xml, first), truncated)
  {}

  lemma ParsedFirst(space: char -> bool, l: Listing) returns (e: Entry)
    requires WhiteSpace(space) && CleanFrame(l) && l.contents != []
    ensures e.key == FirstRead(l) && Parsed(space, Xml(l)) == ListResponse(SecondPass(Xml(l), [e]), l.isTruncated)
  {
    e := FirstKey(l);
    ScanObjects(space, l, e);
    ParsedByScan(space, Xml(l), [e], l.isTruncated);
  }

  lemma HeldInListing(l: Listing, e: Entry, i: nat)
    requires AnyKeys(l) && i < |l.contents| && FreeKey(l.contents[i].key)
    ensures HasKey(SecondPass(Xml(l), [e]), l.contents[i].key)
  {
    XmlParts(l);
    FullHeadQuiet(l, Open(Contents));
    Held(FullHead(l), l.contents, Render(TailTokens(l)), [e], i);
  }

  /**
    Whatever the keys are, the client holds a printed key if and only if it contains neither its own closing tag
    nor that of a block, or it is what the first pass takes for the first key.
  */
  lemma KeyReadIff(space: char -> bool, l: Listing, i: nat)
    requires WhiteSpace(space) && AnyKeys(l) && i < |l.contents|
    ensures var key := l.contents[i].key; key in Keys(Parsed(space, Xml(l)).objects) <==> FreeKey(key) || key == FirstRead(l)
  {
    var key, r := l.contents[i].key, Parsed(space, Xml(l)).objects;
    var e := ParsedFirst(space, l);
    KeysHave(r, key);
    BlocksFree(Xml(l), [e], e.key);
    if key == e.key {
      assert [e][0].key == key;
      HeldStays(ObjectBlocks(), Xml(l), [e], key);
    }
    if FreeKey(key) { HeldInListing(l, e, i); }
  }

  /** So the first key is held if and only if it does not contain its own closing tag. */
  lemma FirstKeyReadIff(space: char -> bool, l: Listing)
    requires WhiteSpace(space) && AnyKeys(l) && l.contents != []
    ensures l.contents[0].key in Keys(Parsed(space, Xml(l)).objects) <==> FreeOf(l.contents[0].key, Close(Key))
  {
    KeyReadIff(space, l, 0);
    FirstWhole(l);
  }

  /**
    If the first key can be taken from a block, the client holds the printed keys, in order, if and only if
    all of them can be taken and are distinct; the truncation flag is right whatever the keys are.
  */
  lemma KeysReadIff(space: char -> bool, l: Listing)
    requires WhiteSpace(space) && AnyKeys(l) && l.contents != []
    ensures Parsed(space, Xml(l)).isTruncated == l.isTruncated
    ensures FreeKey(l.contents[0].key) ==>
              (Keys(Parsed(space, Xml(l)).objects) == PrintedKeys(l.contents)
               <==> DistinctKeys(l.contents) && forall i | 0 <= i < |l.contents| :: FreeKey(l.contents[i].key))
  {
    var e := ParsedFirst(space, l);
    if FreeKey(l.contents[0].key) {
      FirstWhole(l);
      if Keys(Parsed(space, Xml(l)).objects) == PrintedKeys(l.contents) {
        BlocksDistinct(ObjectBlocks(), Xml(l), [e]);
        PrintedDistinct(Parsed(space, Xml(l)).objects, l.contents);
        PrintedFree(space, l);
      }
      if DistinctKeys(l.contents) && forall i | 0 <= i < |l.contents| :: FreeKey(l.contents[i].key) { AllTaken(l, e); }
    }
  }

  lemma FirstWhole(l: Listing)
    requires l.contents != []
    ensures FirstRead(l) == l.contents[0].key <==> FreeOf(l.contents[0].key, Close(Key))
  {
    MarkHeaded(Close(Key));
    UntilClose(l.contents[0].key, MarkText(Close(Key)), "");
  }

  lemma PrintedFree(space: char -> bool, l: Listing)
    requires WhiteSpace(space) && AnyKeys(l) && l.contents != [] && FreeKey(l.contents[0].key)
    requires Keys(Parsed(space, Xml(l)).objects) == PrintedKeys(l.contents)
    ensures forall i | 0 <= i < |l.contents| :: FreeKey(l.contents[i].key)
  {
    FirstWhole(l);
    forall i | 0 <= i < |l.contents| ensures FreeKey(l.contents[i].key) {
      assert PrintedKeys(l.contents)[i] == l.contents[i].key;
      KeyReadIff(space, l, i);
    }
  }

  lemma PrintedDistinct(r: seq<Entry>, contents: seq<ObjectInfo>)
    requires Keys(r) == PrintedKeys(contents) && DistinctEntries(r)
    ensures DistinctKeys(contents)
  {
    forall i, j | 0 <= i < j < |contents| ensures contents[i].key != contents[j].key {
      assert Keys(r)[i] == PrintedKeys(contents)[i] && Keys(r)[j] == PrintedKeys(contents)[j];
    }
  }

  lemma AllTaken(l: Listing, e: Entry)
    requires AnyKeys(l) && l.contents != [] && e.key == l.contents[0].key && DistinctKeys(l.contents)
    requires forall i | 0 <= i < |l.contents| :: FreeKey(l.contents[i].key)
    ensures Keys(SecondPass(Xml(l), [e])) == PrintedKeys(l.contents)
  {
    XmlParts(l);
    FullHeadQuiet(l, Open(Contents));
    TailQuiet(l, Open(Contents));
    FreeBlocks(FullHead(l), l.contents, TailTokens(l), [e]);
    TakenDistinct([], l.contents);
    assert Keys([e]) == [e.key] && [] + [e.key] == [e.key];
    assert [] + PrintedKeys(l.contents) == PrintedKeys(l.contents);
  }

  // ---------- a listing that loses an object ----------

  function Plain(key: string): ObjectInfo { ObjectInfo(key, "", "", 0, "") }

  function TwoKeys(first: string, second: string): Listing {
    Listing("b", None, 1000, false, 2, [Plain(first), Plain(second)], [], None)
  }

  const LOST := "x</Contents>y"

  /** The second key contains the tag that ends a block: the client does not hold it. */
  lemma LostObject(space: char -> bool)
    requires WhiteSpace(space)
    ensures FreeOf(LOST, Close(Key))
    ensures LOST !in Keys(Parsed(space, Xml(TwoKeys("a", LOST))).objects)
  {
    var l := TwoKeys("a", LOST);
    PlainIsClean("");
    PlainIsClean("a");
    PlainIsClean("b");
    LostKey();
    assert l.contents[0] == Plain("a") && l.contents[1] == Plain(LOST);
    assert LOST != "a";
    KeyReadIff(space, l, 1);
    FirstWhole(l);
  }

  lemma LostKey()
    ensures FreeOf(LOST, Close(Key)) && !FreeOf(LOST, Close(Contents))
  {
    CloseText(Contents);
    CloseText(Key);
    HasContents();
    HasNoKey();
  }

  lemma HasContents()
    ensures Occurs(LOST, "</" + ElementName(Contents) + ">")
  {
    assert "</" + ElementName(Contents) + ">" == "</Contents>";
    assert LOST[1..12] == "</Contents>";
    assert OccursAt(LOST, "</Contents>", 1);
  }

  lemma HasNoKey()
    ensures !Occurs(LOST, "</" + ElementName(Key) + ">")
  {
    var p := "</" + ElementName(Key) + ">";
    assert p == "</Key>";
    forall i: nat ensures !OccursAt(LOST, p, i) {
      if i + 6 <= |LOST| {
        assert LOST[i..i + 6][0] == LOST[i] && LOST[i..i + 6][2] == LOST[i + 2];
        assert i != 1 ==> LOST[i] != '<';
      }
    }
  }
}
