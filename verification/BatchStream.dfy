/**
  The batching loop of `stream_batches` in cyxcloud-gateway/src/datastream.rs. What is fetched for each
  file, in the order of the file indices, is a parameter: None where the file could not be retrieved.
*/
module BatchStream {
  import opened Wrappers
  import opened Bytes
  import opened Sequences

  type Data = seq<Byte>

  datatype Batch = Batch(index: nat, items: seq<Data>, hashes: seq<Data>, batchHash: Data, totalBatches: nat, isLast: bool)

  function Max(a: int, b: int): int { if a < b then b else a }

  /** Files without data add nothing. */
  predicate HasItem(file: Option<Data>) { file.Some? && file.value != [] }

  function Taken(current: seq<Data>, file: Option<Data>): seq<Data> {
    if HasItem(file) then current + [file.value] else current
  }

  function MakeBatch(hash: Data -> Data, index: nat, items: seq<Data>, total: nat, isLast: bool): Batch {
    Batch(index, items, Mapped(hash, items), hash(Flatten(Mapped(hash, items))), total, isLast)
  }

  /** A batch goes out when it is full or after the last file, unless it is empty. */
  predicate Sends(items: seq<Data>, size: nat, isLast: bool) {
    (|items| >= size || isLast) && items != []
  }

  /** What is sent from file i on, with `current` waiting. */
  function From(hash: Data -> Data, files: seq<Option<Data>>, size: nat, total: nat, i: nat, current: seq<Data>, index: nat): seq<Batch>
    decreases |files| - i
  {
    if i >= |files| then []
    else
      var items := Taken(current, files[i]);
      var isLast := i == |files| - 1;
      if Sends(items, size, isLast)
      then [MakeBatch(hash, index, items, total, isLast)] + From(hash, files, size, total, i + 1, [], index + 1)
      else From(hash, files, size, total, i + 1, items, index)
  }

  /** The whole stream for a client that stays connected. */
  function Stream(hash: Data -> Data, files: seq<Option<Data>>, size: nat): seq<Batch>
    requires size > 0
  {
    From(hash, files, size, CeilDiv(|files|, size), 0, [], 0)
  }

  /** Adds a file's data, if it has any, and the hash of the data to the current batch. */
  method AddFile(hash: Data -> Data, items: seq<Data>, hashes: seq<Data>, file: Option<Data>)
    returns (items': seq<Data>, hashes': seq<Data>)
    requires hashes == Mapped(hash, items)
    ensures items' == Taken(items, file) && hashes' == Mapped(hash, items')
  {
    items', hashes' := items, hashes;
    HashesNext(hash, items, file);
    if HasItem(file) {
      items' := items + [file.value];
      hashes' := hashes + [hash(file.value)];
    }
  }

  /** Adds a file and makes a batch of what is waiting when it is time to send it. */
  method TakeFile(hash: Data -> Data, items: seq<Data>, hashes: seq<Data>, file: Option<Data>, size: nat, total: nat, isLast: bool, index: nat)
    returns (items': seq<Data>, hashes': seq<Data>, batch: Option<Batch>)
    requires hashes == Mapped(hash, items)
    ensures hashes' == Mapped(hash, items')
    ensures var all := Taken(items, file);
            if Sends(all, size, isLast) then items' == [] && batch == Some(MakeBatch(hash, index, all, total, isLast)) else items' == all && batch == None
  {
    items', hashes' := AddFile(hash, items, hashes, file);
    batch := None;
    if Sends(items', size, isLast) {
      batch := Some(Batch(index, items', hashes', hash(Flatten(hashes')), total, isLast));
      items', hashes' := [], [];
    }
  }

  /** The loop; the client hangs up before batch number `hangup`, if ever. */
  method StreamBatches(hash: Data -> Data, files: seq<Option<Data>>, batchSize: int, hangup: Option<nat>) returns (sent: seq<Batch>)
    ensures sent == Heard(Stream(hash, files, if batchSize >= 1 then batchSize else 1), hangup)
  {
    var size := Max(batchSize, 1);
    sent := SendAll(hash, files, size, CeilDiv(|files|, size), hangup);
  }

  method SendAll(hash: Data -> Data, files: seq<Option<Data>>, size: nat, total: nat, hangup: Option<nat>) returns (sent: seq<Batch>)
    ensures sent == Heard(From(hash, files, size, total, 0, [], 0), hangup)
  {
    ghost var all := From(hash, files, size, total, 0, [], 0);
    var index := 0;
    var items, hashes := [], [];
    sent := [];
    for i := 0 to |files|
      invariant |sent| == index && hashes == Mapped(hash, items)
      invariant hangup.Some? ==> index <= hangup.value
      invariant Going(hash, files, size, total, all, i, items, index, sent)
    {
      var isLast := i == |files| - 1;
      NextFile(hash, files, size, total, all, i, items, index, sent);
      var batch;
      items, hashes, batch := TakeFile(hash, items, hashes, files[i], size, total, isLast, index);
      if batch.Some? {
        if hangup == Some(index) { return; }
        sent := sent + [batch.value];
        index := index + 1;
      }
    }
  }

  /** What a client receives that hangs up before the given batch, if ever: the stream from the start. */
  function Heard(all: seq<Batch>, hangup: Option<nat>): (sent: seq<Batch>)
    ensures sent <= all && if hangup.Some? && hangup.value < |all| then |sent| == hangup.value else sent == all
  {
    if hangup.Some? && hangup.value < |all| then all[..hangup.value] else all
  }

  /** What was sent and what will be sent from file i on are the whole stream. */
  ghost predicate Going(hash: Data -> Data, files: seq<Option<Data>>, size: nat, total: nat, all: seq<Batch>, i: nat, items: seq<Data>, index: nat,
                        sent: seq<Batch>)
  {
    sent + From(hash, files, size, total, i, items, index) == all
  }

  lemma NextFile(hash: Data -> Data, files: seq<Option<Data>>, size: nat, total: nat, all: seq<Batch>, i: nat, current: seq<Data>, index: nat,
                 sent: seq<Batch>)
    requires i < |files| && Going(hash, files, size, total, all, i, current, index, sent)
    ensures var items := Taken(current, files[i]); var isLast := i == |files| - 1;
            if Sends(items, size, isLast)
            then && |sent| < |all| && all[..|sent|] == sent
                 && Going(hash, files, size, total, all, i + 1, [], index + 1, sent + [MakeBatch(hash, index, items, total, isLast)])
            else Going(hash, files, size, total, all, i + 1, items, index, sent)
  {
    var items, isLast := Taken(current, files[i]), i == |files| - 1;
    if Sends(items, size, isLast) {
      Regrouped(sent, MakeBatch(hash, index, items, total, isLast), From(hash, files, size, total, i + 1, [], index + 1));
    }
  }

  lemma Regrouped(sent: seq<Batch>, batch: Batch, more: seq<Batch>)
    ensures sent + ([batch] + more) == sent + [batch] + more
    ensures (sent + ([batch] + more))[..|sent|] == sent
  {}

  lemma HashesNext(hash: Data -> Data, items: seq<Data>, file: Option<Data>)
    ensures Mapped(hash, Taken(items, file)) == if HasItem(file) then Mapped(hash, items) + [hash(file.value)] else Mapped(hash, items)
    ensures Mapped(hash, []) == []
  {}

  // ---------- what is delivered ----------

  /** The data of the files that have any, in order. */
  function Retrieved(files: seq<Option<Data>>): seq<Data> {
    if files == [] then [] else (if HasItem(files[0]) then [files[0].value] else []) + Retrieved(files[1..])
  }

  /** Each file's data is among them as often as it is among the files, and empty data never. */
  lemma {:induction false} RetrievedExact(files: seq<Option<Data>>, x: Data)
    ensures multiset(Retrieved(files))[x] == if x == [] then 0 else multiset(files)[Some(x)]
  {
    if files != [] {
      RetrievedExact(files[1..], x);
      assert files == [files[0]] + files[1..];
    }
  }

  function Items(batches: seq<Batch>): (r: seq<seq<Data>>)
    ensures |r| == |batches|
  {
    seq(|batches|, i requires 0 <= i < |batches| => batches[i].items)
  }

  lemma RetrievedNext(files: seq<Option<Data>>, i: nat, current: seq<Data>)
    requires i < |files|
    ensures current + Retrieved(files[i..]) == Taken(current, files[i]) + Retrieved(files[i + 1..])
  {
    assert files[i..][0] == files[i] && files[i..][1..] == files[i + 1..];
  }

  lemma PiecesFirst<T>(first: seq<T>, rest: seq<T>, size: nat)
    requires size > 0 && |first| == size
    ensures Pieces(first + rest, size) == [first] + Pieces(rest, size)
  {
    var s := first + rest;
    if rest == [] {
      assert s == first;
    } else {
      assert s[..size] == first && s[size..] == rest;
    }
  }

  /** From any point of the loop, the items sent are the waiting and the remaining items, cut into pieces. */
  lemma {:induction false} FromItems(hash: Data -> Data, files: seq<Option<Data>>, size: nat, total: nat, i: nat, current: seq<Data>, index: nat)
    requires size > 0 && |current| < size && i <= |files| && (i == |files| ==> current == [])
    ensures Items(From(hash, files, size, total, i, current, index)) == Pieces(current + Retrieved(files[i..]), size)
    decreases |files| - i
  {
    if i == |files| {
      assert files[i..] == [];
    } else {
      var items, isLast := Taken(current, files[i]), i == |files| - 1;
      RetrievedNext(files, i, current);
      var rest := Retrieved(files[i + 1..]);
      if Sends(items, size, isLast) {
        FromItems(hash, files, size, total, i + 1, [], index + 1);
        assert [] + rest == rest;
        var more := From(hash, files, size, total, i + 1, [], index + 1);
        assert Items([MakeBatch(hash, index, items, total, isLast)] + more) == [items] + Items(more);
        if isLast {
          assert files[i + 1..] == [];
          assert items + rest == items;
        } else {
          PiecesFirst(items, rest, size);
        }
      } else if isLast {
        assert files[i + 1..] == [];
        assert items + rest == [];
        FromItems(hash, files, size, total, i + 1, [], index);
      } else {
        FromItems(hash, files, size, total, i + 1, items, index);
      }
    }
  }

  lemma {:induction false} FromNumbers(hash: Data -> Data, files: seq<Option<Data>>, size: nat, total: nat, i: nat, current: seq<Data>, index: nat, k: nat)
    requires k < |From(hash, files, size, total, i, current, index)|
    ensures var b := From(hash, files, size, total, i, current, index)[k];
            b.index == index + k && b.hashes == Mapped(hash, b.items) && b.batchHash == hash(Flatten(b.hashes)) && b.totalBatches == total
    decreases |files| - i
  {
    var items, isLast := Taken(current, files[i]), i == |files| - 1;
    if Sends(items, size, isLast) {
      if k > 0 { FromNumbers(hash, files, size, total, i + 1, [], index + 1, k - 1); }
    } else {
      FromNumbers(hash, files, size, total, i + 1, items, index, k);
    }
  }

  /**
    Every retrieved item is delivered exactly once and in order, in batches numbered from 0; every batch
    but the last is full and none is empty; each item and each batch carries its hash.
  */
  lemma DeliversAll(hash: Data -> Data, files: seq<Option<Data>>, size: nat, k: nat)
    requires size > 0
    ensures var batches := Stream(hash, files, size);
            && Flatten(Items(batches)) == Retrieved(files)
            && |batches| == CeilDiv(|Retrieved(files)|, size)
            && (k < |batches| ==>
                  && batches[k].index == k && 0 < |batches[k].items| <= size
                  && (k < |batches| - 1 ==> |batches[k].items| == size)
                  && batches[k].hashes == Mapped(hash, batches[k].items) && batches[k].batchHash == hash(Flatten(batches[k].hashes)))
  {
    FromItems(hash, files, size, CeilDiv(|files|, size), 0, [], 0);
    assert files[0..] == files && [] + Retrieved(files) == Retrieved(files);
    FlattenPieces(Retrieved(files), size);
    PiecesShape(Retrieved(files), size, k);
    PiecesNonEmpty(Retrieved(files), size);
    var batches := Stream(hash, files, size);
    if k < |batches| {
      FromNumbers(hash, files, size, CeilDiv(|files|, size), 0, [], 0, k);
      assert Items(batches)[k] == batches[k].items;
    }
  }

  // ---------- the end of the stream ----------

  lemma {:induction false} LastHasNothing(files: seq<Option<Data>>, i: nat)
    requires i < |files| && Retrieved(files[i..]) == []
    ensures !HasItem(files[|files| - 1])
    decreases |files| - i
  {
    assert files[i..][0] == files[i] && files[i..][1..] == files[i + 1..];
    if i < |files| - 1 { LastHasNothing(files, i + 1); }
  }

  lemma ModFull(rest: nat, size: nat)
    requires size > 0
    ensures (size + rest) % size == rest % size
  {
    var q, r := rest / size, rest % size;
    assert rest == q * size + r;
    assert size + rest == (q + 1) * size + r;
    DivUnique(size + rest, size, q + 1, r);
  }

  /** Only the final batch can be marked last, and it is exactly if something was waiting after the last file. */
  ghost predicate MarkedRight(batches: seq<Batch>, marked: bool) {
    && (forall k | 0 <= k < |batches| - 1 :: !batches[k].isLast)
    && (batches != [] ==> batches[|batches| - 1].isLast == marked)
  }

  /** The final batch is marked: n items are left over for batches of the given size. */
  ghost predicate Ends(files: seq<Option<Data>>, n: nat, size: nat)
    requires size > 0 && files != []
  {
    HasItem(files[|files| - 1]) || n % size != 0
  }

  lemma MarksAtEnd(hash: Data -> Data, files: seq<Option<Data>>, size: nat, total: nat, current: seq<Data>, index: nat)
    requires size > 0 && |current| < size && files != []
    ensures var i := |files| - 1;
            MarkedRight(From(hash, files, size, total, i, current, index), Ends(files, |Taken(current, files[i])|, size))
  {
    var i := |files| - 1;
    assert From(hash, files, size, total, i + 1, [], index + 1) == [];
    assert From(hash, files, size, total, i + 1, [], index) == [];
  }

  lemma MarksAfterBatch(first: Batch, more: seq<Batch>, files: seq<Option<Data>>, rest: nat, size: nat)
    requires size > 0 && files != [] && !first.isLast && MarkedRight(more, Ends(files, rest, size))
    requires more == [] ==> !Ends(files, rest, size)
    ensures MarkedRight([first] + more, Ends(files, size + rest, size))
  {
    ModFull(rest, size);
    var all := [first] + more;
    forall k | 0 <= k < |all| - 1 ensures !all[k].isLast { if k > 0 { assert all[k] == more[k - 1]; } }
  }

  lemma NothingEnds(hash: Data -> Data, files: seq<Option<Data>>, size: nat, total: nat, i: nat, index: nat)
    requires size > 0 && i < |files| && From(hash, files, size, total, i, [], index) == []
    ensures Retrieved(files[i..]) == [] && !Ends(files, 0, size)
  {
    FromItems(hash, files, size, total, i, [], index);
    var rest := Retrieved(files[i..]);
    assert [] + rest == rest;
    NoPieces(rest, size);
    LastHasNothing(files, i);
    DivUnique(0, size, 0, 0);
  }

  lemma MarksAfterFull(hash: Data -> Data, files: seq<Option<Data>>, size: nat, total: nat, i: nat, items: seq<Data>, index: nat, rest: seq<Data>)
    requires size > 0 && |items| == size && i + 1 < |files| && rest == Retrieved(files[i + 1..])
    requires MarkedRight(From(hash, files, size, total, i + 1, [], index + 1), Ends(files, |rest|, size))
    ensures MarkedRight([MakeBatch(hash, index, items, total, false)] + From(hash, files, size, total, i + 1, [], index + 1),
                        Ends(files, |items + rest|, size))
  {
    var more := From(hash, files, size, total, i + 1, [], index + 1);
    if more == [] { NothingEnds(hash, files, size, total, i + 1, index + 1); }
    MarksAfterBatch(MakeBatch(hash, index, items, total, false), more, files, |rest|, size);
  }

  lemma {:induction false} FromMarks(hash: Data -> Data, files: seq<Option<Data>>, size: nat, total: nat, i: nat, current: seq<Data>, index: nat)
    requires size > 0 && |current| < size && i < |files|
    ensures MarkedRight(From(hash, files, size, total, i, current, index), Ends(files, |current + Retrieved(files[i..])|, size))
    decreases |files| - i
  {
    var items := Taken(current, files[i]);
    RetrievedNext(files, i, current);
    var rest := Retrieved(files[i + 1..]);
    if i == |files| - 1 {
      MarksAtEnd(hash, files, size, total, current, index);
      assert files[i + 1..] == [];
      assert items + rest == items;
    } else if Sends(items, size, false) {
      FromMarks(hash, files, size, total, i + 1, [], index + 1);
      assert [] + rest == rest;
      MarksAfterFull(hash, files, size, total, i, items, index, rest);
    } else {
      FromMarks(hash, files, size, total, i + 1, items, index);
    }
  }

  lemma NoPieces<T>(s: seq<T>, size: nat)
    requires size > 0 && Pieces(s, size) == []
    ensures s == []
  {}

  /** Which streams end with a batch marked last: those whose last file has data or whose last batch is not full. */
  lemma EndIsMarked(hash: Data -> Data, files: seq<Option<Data>>, size: nat)
    requires size > 0 && files != []
    ensures MarkedRight(Stream(hash, files, size), Ends(files, |Retrieved(files)|, size))
  {
    assert files[0..] == files && [] + Retrieved(files) == Retrieved(files);
    FromMarks(hash, files, size, CeilDiv(|files|, size), 0, [], 0);
  }

  lemma {:induction false} AllRetrieved(files: seq<Option<Data>>)
    requires forall i | 0 <= i < |files| :: HasItem(files[i])
    ensures |Retrieved(files)| == |files|
  {
    if files != [] { AllRetrieved(files[1..]); }
  }

  /** If every file has data, the announced number of batches is right and exactly the final one is marked last. */
  lemma CompleteStream(hash: Data -> Data, files: seq<Option<Data>>, size: nat)
    requires size > 0 && files != [] && forall i | 0 <= i < |files| :: HasItem(files[i])
    ensures var batches := Stream(hash, files, size);
            && |batches| == CeilDiv(|files|, size) && batches != []
            && (forall k | 0 <= k < |batches| :: batches[k].totalBatches == |batches| && (batches[k].isLast <==> k == |batches| - 1))
  {
    var batches := Stream(hash, files, size);
    AllRetrieved(files);
    DeliversAll(hash, files, size, 0);
    EndIsMarked(hash, files, size);
    PiecesShape(Retrieved(files), size, 0);
    forall k | 0 <= k < |batches| ensures batches[k].totalBatches == |batches| {
      FromNumbers(hash, files, size, CeilDiv(|files|, size), 0, [], 0, k);
    }
  }

  /** Every batch announces the right number of batches if and only if the files with data fill as many batches as all files would. */
  lemma AnnouncedIff(hash: Data -> Data, files: seq<Option<Data>>, size: nat, k: nat)
    requires size > 0 && k < |Stream(hash, files, size)|
    ensures Stream(hash, files, size)[k].totalBatches == |Stream(hash, files, size)|
            <==> CeilDiv(|Retrieved(files)|, size) == CeilDiv(|files|, size)
  {
    DeliversAll(hash, files, size, k);
    FromNumbers(hash, files, size, CeilDiv(|files|, size), 0, [], 0, k);
  }

  /** A missing last file can leave the stream without any batch marked last. */
  lemma UnmarkedStream(hash: Data -> Data, item: Data)
    requires item != []
    ensures var batches := Stream(hash, [Some(item), None], 1); |batches| == 1 && batches[0].totalBatches == 2 && !batches[0].isLast
  {
    var files := [Some(item), None];
    assert files[1..] == [None] && files[1..][1..] == [];
    assert Retrieved(files[1..]) == [];
    assert Retrieved(files) == [item];
    CeilOne();
    DeliversAll(hash, files, 1, 0);
    EndIsMarked(hash, files, 1);
    FromNumbers(hash, files, 1, CeilDiv(2, 1), 0, [], 0, 0);
  }

  lemma CeilOne()
    ensures CeilDiv(1, 1) == 1 && CeilDiv(2, 1) == 2
  {}
}
