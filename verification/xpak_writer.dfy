/** The XPAK block as the TBZ2 writer lays it out: data offset before data length, and a
    length in the footer that counts the footer too. */
module XpakWriter {
  import opened Digraph
  import opened Xpak
  import opened XpakLayout

  // ----- records that tile a data section -----

  function TiledData(keys: seq<Bytes>, m: Entries): Bytes
    requires forall k :: k in keys ==> k in m
  {
    if keys == [] then [] else TiledData(keys[..|keys| - 1], m) + m[keys[|keys| - 1]]
  }

  /** `keys` lists the set `all`, each member once. */
  ghost predicate AreListed(keys: seq<Bytes>, all: set<Bytes>) {
    NoDup(keys) && Elems(keys) == all
  }

  /** The values of `keys` one after the other, and the records that point at them. */
  function Tiled(keys: seq<Bytes>, m: Entries): (records: seq<Record>)
    requires forall k :: k in keys ==> k in m
    ensures |records| == |keys|
  {
    if keys == [] then []
    else
      var before, key := keys[..|keys| - 1], keys[|keys| - 1];
      Tiled(before, m) + [Record(key, |TiledData(before, m)|, |m[key]|)]
  }

  /** The record's piece of `data` is the value of `key`. */
  ghost predicate PieceIs(r: Record, data: Bytes, key: Bytes, value: Bytes) {
    r.key == key && r.offset + r.length <= |data| && data[r.offset..r.offset + r.length] == value
  }

  lemma PieceStays(r: Record, data: Bytes, key: Bytes, value: Bytes, more: Bytes)
    requires PieceIs(r, data, key, value)
    ensures PieceIs(r, data + more, key, value)
  {
    assert (data + more)[r.offset..r.offset + r.length] == data[r.offset..r.offset + r.length];
  }

  /** The records start at the front of `data`, each starts where the one before ends, and
      the last ends where `data` does. */
  ghost predicate Adjacent(records: seq<Record>, data: Bytes) {
    if records == [] then data == []
    else
      && records[0].offset == 0
      && (forall i :: 0 < i < |records| ==> records[i].offset == records[i - 1].offset + records[i - 1].length)
      && records[|records| - 1].offset + records[|records| - 1].length == |data|
  }

  /** The records cut the data section into adjacent pieces, without gaps and to its end, and
      each piece is the value of its key. */
  lemma {:induction false} RecordsTile(keys: seq<Bytes>, m: Entries)
    requires forall k :: k in keys ==> k in m
    ensures Adjacent(Tiled(keys, m), TiledData(keys, m))
    ensures forall i :: 0 <= i < |keys| ==> PieceIs(Tiled(keys, m)[i], TiledData(keys, m), keys[i], m[keys[i]])
  {
    if keys != [] {
      var before, key := keys[..|keys| - 1], keys[|keys| - 1];
      RecordsTile(before, m);
      var records, data := Tiled(before, m), TiledData(before, m);
      var last := Record(key, |data|, |m[key]|);
      assert PieceIs(last, data + m[key], key, m[key]);
      AdjacentMore(records, data, last, m[key]);
      hide PieceIs, Adjacent;
      forall i | 0 <= i < |keys| ensures PieceIs(Tiled(keys, m)[i], TiledData(keys, m), keys[i], m[keys[i]]) {
        if i < |records| {
          PieceStays(records[i], data, keys[i], m[keys[i]], m[key]);
        }
      }
    }
  }

  lemma AdjacentMore(records: seq<Record>, data: Bytes, last: Record, value: Bytes)
    requires Adjacent(records, data) && last.offset == |data| && last.length == |value|
    ensures Adjacent(records + [last], data + value)
  {
  }

  lemma TiledStep(keys: seq<Bytes>, m: Entries, key: Bytes)
    requires (forall k :: k in keys ==> k in m) && key in m
    ensures Tiled(keys + [key], m) == Tiled(keys, m) + [Record(key, |TiledData(keys, m)|, |m[key]|)]
    ensures TiledData(keys + [key], m) == TiledData(keys, m) + m[key]
  {
    assert (keys + [key])[..|keys|] == keys;
  }

  /** Records without a repeated key say exactly what their pieces say. */
  lemma {:induction false} ValuesAre(records: seq<Record>, data: Bytes, entries: Entries, key: Bytes)
    requires forall r :: r in records ==> Fits(r, data)
    requires forall i, j :: 0 <= i < j < |records| ==> records[i].key != records[j].key
    ensures var values := Values(records, data, entries);
            && (key in values <==> key in entries || exists i :: 0 <= i < |records| && records[i].key == key)
            && (forall i :: 0 <= i < |records| && records[i].key == key ==>
                  Fits(records[i], data) && key in values && values[key] == data[records[i].offset..records[i].offset + records[i].length])
            && (key in values && (forall i :: 0 <= i < |records| ==> records[i].key != key) ==> key in entries && values[key] == entries[key])
    decreases |records|
  {
    if records != [] {
      var r := records[0];
      assert Fits(r, data);
      var more := entries[r.key := data[r.offset..r.offset + r.length]];
      ValuesAre(records[1..], data, more, key);
      assert forall i :: 0 < i < |records| ==> records[i] == records[1..][i - 1];
      assert forall i :: 0 <= i < |records| ==> Fits(records[i], data);
    }
  }

  lemma ValueAt(records: seq<Record>, data: Bytes, i: nat)
    requires forall r :: r in records ==> Fits(r, data)
    requires forall i, j :: 0 <= i < j < |records| ==> records[i].key != records[j].key
    requires i < |records|
    ensures var r, values := records[i], Values(records, data, map[]);
            Fits(r, data) && r.key in values && values[r.key] == data[r.offset..r.offset + r.length]
  {
    hide Values;
    ValuesAre(records, data, map[], records[i].key);
  }

  /** A map laid out as the parser reads it, in any order of its keys, is parsed back exactly. */
  lemma MapRoundTrip(prefix: Bytes, keys: seq<Bytes>, m: Entries)
    requires AreListed(keys, m.Keys)
    requires |Block(Tiled(keys, m), TiledData(keys, m))| < WORD && forall k :: k in keys ==> |k| < WORD
    ensures Parsed(Archive(prefix, Tiled(keys, m), TiledData(keys, m))) == Done(m)
  {
    hide Parsed, Archive, Block, Tiled, TiledData, Values;
    var records, data := Tiled(keys, m), TiledData(keys, m);
    RecordsTile(keys, m);
    assert forall i :: 0 <= i < |records| ==> Fits(records[i], data);
    ParserReadsLayout(prefix, records, data);
    hide AreListed, PieceIs, Adjacent, Fits;
    forall key ensures (key in Values(records, data, map[]) <==> key in m)
               ensures key in m ==> Values(records, data, map[])[key] == m[key]
    {
      ValueOfTiled(keys, m, records, data, key);
    }
    assert Values(records, data, map[]) == m;
  }

  lemma ValueOfTiled(keys: seq<Bytes>, m: Entries, records: seq<Record>, data: Bytes, key: Bytes)
    requires AreListed(keys, m.Keys) && |records| == |keys|
    requires forall r :: r in records ==> Fits(r, data)
    requires forall i :: 0 <= i < |keys| ==> keys[i] in m && PieceIs(records[i], data, keys[i], m[keys[i]])
    ensures key in Values(records, data, map[]) <==> key in m
    ensures key in m ==> Values(records, data, map[])[key] == m[key]
  {
    hide Values;
    ValuesAre(records, data, map[], key);
    if key in m {
      assert key in Elems(keys);
      var i :| 0 <= i < |keys| && keys[i] == key;
      assert records[i].key == key;
    }
    if i :| 0 <= i < |records| && records[i].key == key {
      assert keys[i] in Elems(keys);
    }
  }

  // ----- the writer -----

  function Swapped(r: Record): Record {
    Record(r.key, r.length, r.offset)
  }

  function AllSwapped(records: seq<Record>): (s: seq<Record>)
    ensures |s| == |records|
  {
    if records == [] then [] else AllSwapped(records[..|records| - 1]) + [Swapped(records[|records| - 1])]
  }

  /** The writer's index: that of the parser with the two numbers of each record exchanged. */
  function WrittenIndex(keys: seq<Bytes>, m: Entries): Bytes
    requires forall k :: k in keys ==> k in m
  {
    Index(AllSwapped(Tiled(keys, m)))
  }

  function WrittenBlock(keys: seq<Bytes>, m: Entries): Bytes
    requires forall k :: k in keys ==> k in m
  {
    MAGIC + WrittenIndex(keys, m) + TiledData(keys, m)
  }

  function Written(keys: seq<Bytes>, m: Entries): Bytes
    requires forall k :: k in keys ==> k in m
  {
    var block := WrittenBlock(keys, m);
    block + Footer(|WrittenIndex(keys, m)|, |TiledData(keys, m)|, |block| + FOOTER)
  }

  lemma {:induction false} IndexMore(records: seq<Record>, r: Record)
    ensures Index(records + [r]) == Index(records) + RecordBytes(r)
  {
    if records != [] {
      assert (records + [r])[1..] == records[1..] + [r];
      IndexMore(records[1..], r);
    }
  }

  lemma WrittenIndexStep(keys: seq<Bytes>, m: Entries, key: Bytes)
    requires (forall k :: k in keys ==> k in m) && key in m
    ensures WrittenIndex(keys + [key], m)
            == WrittenIndex(keys, m) + PutWord(|key|) + key + PutWord(|TiledData(keys, m)|) + PutWord(|m[key]|)
  {
    hide PutWord, Index;
    TiledStep(keys, m, key);
    var records, r := Tiled(keys, m), Record(key, |TiledData(keys, m)|, |m[key]|);
    assert (records + [r])[..|records|] == records;
    IndexMore(AllSwapped(records), Swapped(r));
  }

  ghost predicate WrittenInSomeOrder(bytes: Bytes, m: Entries) {
    exists keys :: AreListed(keys, m.Keys) && (forall k :: k in keys ==> k in m) && bytes == Written(keys, m)
  }

  /** Writes the entries in whatever order the map yields its keys. Every 32-bit number is
      written modulo 2^32. */
  method EncodeXPAK(entries: Entries) returns (bytes: Bytes)
    ensures WrittenInSomeOrder(bytes, entries)
  {
    hide PutWord, TiledData, WrittenIndex, NoDup, Elems, Written;
    var indexBuf: Bytes, dataBuf: Bytes := [], [];
    var dataOffset := 0;
    var left := entries.Keys;
    ghost var keys: seq<Bytes> := [];
    NothingWritten(entries);
    while left != {}
      invariant left <= entries.Keys && AreListed(keys, entries.Keys - left)
      invariant indexBuf == WrittenIndex(keys, entries) && dataBuf == TiledData(keys, entries)
      invariant dataOffset == |dataBuf|
      decreases |left|
    {
      var key :| key in left;
      ListMore(keys, entries.Keys - left, key);
      assert entries.Keys - (left - {key}) == entries.Keys - left + {key};
      left := left - {key};
      var value := entries[key];
      WrittenIndexStep(keys, entries, key);
      TiledStep(keys, entries, key);
      keys := keys + [key];
      indexBuf := indexBuf + PutWord(|key|);
      indexBuf := indexBuf + key;
      indexBuf := indexBuf + PutWord(dataOffset);
      indexBuf := indexBuf + PutWord(|value|);
      dataBuf := dataBuf + value;
      dataOffset := dataOffset + |value|;
    }
    assert entries.Keys - left == entries.Keys;
    var buf := MAGIC + indexBuf + dataBuf;
    var xpakLen := 8 + |indexBuf| + |dataBuf| + 20;
    bytes := buf + (PutWord(|indexBuf|) + PutWord(|dataBuf|) + PutWord(xpakLen) + STOP);
    WrittenIs(keys, entries);
  }

  lemma WrittenIs(keys: seq<Bytes>, m: Entries)
    requires AreListed(keys, m.Keys)
    ensures forall k :: k in keys ==> k in m
    ensures var i, d := WrittenIndex(keys, m), TiledData(keys, m);
            Written(keys, m) == MAGIC + i + d + (PutWord(|i|) + PutWord(|d|) + PutWord(8 + |i| + |d| + 20) + STOP)
  {
    hide WrittenIndex, TiledData, PutWord;
  }

  lemma NothingWritten(m: Entries)
    ensures WrittenIndex([], m) == [] && TiledData([], m) == [] && AreListed([], m.Keys - m.Keys)
  {
  }

  lemma ListMore(keys: seq<Bytes>, all: set<Bytes>, key: Bytes)
    requires AreListed(keys, all) && key !in all
    ensures AreListed(keys + [key], all + {key})
    ensures forall k :: k in keys ==> k in all
  {
  }

  // ----- what reading back what was written gives -----

  lemma WrittenFooter(prefix: Bytes, keys: seq<Bytes>, m: Entries)
    requires forall k :: k in keys ==> k in m
    ensures var file := prefix + Written(keys, m);
            var footer := file[|file| - FOOTER..];
            && |file| == |prefix| + |WrittenBlock(keys, m)| + FOOTER
            && footer[12..] == STOP
            && Word(footer[..4]) == Wrap(|WrittenIndex(keys, m)|)
            && Word(footer[4..8]) == Wrap(|TiledData(keys, m)|)
            && Word(footer[8..12]) == Wrap(|WrittenBlock(keys, m)| + FOOTER)
  {
    hide Word, Footer, WrittenBlock, WrittenIndex, TiledData, Wrap;
    FooterAtEnd(prefix, WrittenBlock(keys, m), |WrittenIndex(keys, m)|, |TiledData(keys, m)|, |WrittenBlock(keys, m)| + FOOTER);
  }

  lemma FooterAtEnd(prefix: Bytes, block: Bytes, i: nat, d: nat, x: nat)
    ensures var file := prefix + (block + Footer(i, d, x));
            var footer := file[|file| - FOOTER..];
            && footer[12..] == STOP
            && Word(footer[..4]) == Wrap(i) && Word(footer[4..8]) == Wrap(d) && Word(footer[8..12]) == Wrap(x)
  {
    FooterRead(i, d, x);
    hide Word, Footer, Wrap;
    LastPart(prefix, block, Footer(i, d, x));
  }

  lemma LastPart(a: Bytes, b: Bytes, c: Bytes)
    ensures var all := a + (b + c); all[|all| - |c|..] == c
  {
  }

  /** The parser refuses everything the writer writes, because it expects a length without the
      footer. */
  lemma WrittenIsNeverParsed(prefix: Bytes, keys: seq<Bytes>, m: Entries)
    requires forall k :: k in keys ==> k in m
    ensures Parsed(prefix + Written(keys, m)) == Failed
  {
    hide Written, WrittenBlock, WrittenIndex, TiledData, Parsed, Word, Wrap;
    BlockSize(keys, m);
    WrittenFooter(prefix, keys, m);
    LengthsDiffer(|WrittenIndex(keys, m)|, |TiledData(keys, m)|);
    RefusedLength(prefix + Written(keys, m));
  }

  lemma BlockSize(keys: seq<Bytes>, m: Entries)
    requires forall k :: k in keys ==> k in m
    ensures |WrittenBlock(keys, m)| == 8 + |WrittenIndex(keys, m)| + |TiledData(keys, m)|
  {
    hide WrittenIndex, TiledData;
  }

  /** And the block is found where it starts less the size of the footer, twenty bytes too
      early. */
  lemma WrittenIsFoundTooEarly(prefix: Bytes, keys: seq<Bytes>, m: Entries)
    requires forall k :: k in keys ==> k in m
    requires |WrittenBlock(keys, m)| + FOOTER < WORD
    ensures var file := prefix + Written(keys, m);
            |file| >= FOOTER && |file| - FOOTER - Word(file[|file| - FOOTER..][8..12]) == |prefix| - FOOTER
  {
    WrittenFooter(prefix, keys, m);
    hide Word, Written, WrittenBlock;
  }

  lemma RefusedLength(file: Bytes)
    requires |file| >= FOOTER
    requires var footer := file[|file| - FOOTER..]; Word(footer[8..12]) != Wrap(Word(footer[..4]) + Word(footer[4..8]) + 8)
    ensures Parsed(file) == Failed
  {
    hide Word, Wrap, ParsedBlock;
  }

  lemma LengthsDiffer(i: nat, d: nat)
    ensures Wrap(Wrap(i) + Wrap(d) + 8) != Wrap(8 + i + d + FOOTER)
  {
    var a, b := i / 0x1_0000_0000, d / 0x1_0000_0000;
    assert i == a * 0x1_0000_0000 + Wrap(i) && d == b * 0x1_0000_0000 + Wrap(d);
    WrapMultiple(Wrap(i) + Wrap(d) + 8 + FOOTER, a + b);
    assert 8 + i + d + FOOTER == Wrap(i) + Wrap(d) + 8 + FOOTER + (a + b) * 0x1_0000_0000;
  }

  lemma WrapMultiple(n: nat, k: nat)
    ensures Wrap(n + k * 0x1_0000_0000) == Wrap(n)
  {
  }

  // ----- with the footer corrected -----

  /** The written block under a footer that does not count itself, as the parser expects it. */
  function Refooted(prefix: Bytes, keys: seq<Bytes>, m: Entries): Bytes
    requires forall k :: k in keys ==> k in m
  {
    prefix + WrittenBlock(keys, m) + Footer(|WrittenIndex(keys, m)|, |TiledData(keys, m)|, |WrittenBlock(keys, m)|)
  }

  /** Each record carries its key, and the numbers of its piece the other way round. */
  ghost predicate SwappedPiece(r: Record, piece: Record, data: Bytes) {
    r == Swapped(piece) && Fits(r, data)
  }

  lemma {:induction false} SwappedAt(records: seq<Record>, i: nat)
    requires i < |records|
    ensures AllSwapped(records)[i] == Swapped(records[i])
  {
    if i < |records| - 1 {
      SwappedAt(records[..|records| - 1], i);
    }
  }

  lemma {:induction false} IndexHoldsKey(records: seq<Record>, i: nat)
    requires i < |records|
    ensures |records[i].key| < |Index(records)|
  {
    if i > 0 {
      IndexHoldsKey(records[1..], i - 1);
    }
  }

  lemma SwappedFits(keys: seq<Bytes>, m: Entries, i: nat)
    requires (forall k :: k in keys ==> k in m) && |WrittenBlock(keys, m)| < WORD && i < |keys|
    ensures SwappedPiece(AllSwapped(Tiled(keys, m))[i], Tiled(keys, m)[i], TiledData(keys, m))
  {
    hide Tiled, TiledData, AllSwapped, Index;
    RecordsTile(keys, m);
    SwappedAt(Tiled(keys, m), i);
    IndexHoldsKey(AllSwapped(Tiled(keys, m)), i);
  }

  /** What the parser then reads under a key: from an offset that is the value's length, as
      many bytes as stand before the value. */
  lemma RefootedValue(prefix: Bytes, keys: seq<Bytes>, m: Entries, i: nat)
    requires AreListed(keys, m.Keys) && (forall k :: k in keys ==> k in m)
    requires |WrittenBlock(keys, m)| < WORD && i < |keys|
    ensures var r := Parsed(Refooted(prefix, keys, m));
            var piece, data := Tiled(keys, m)[i], TiledData(keys, m);
            && piece.length == |m[keys[i]]| && piece.offset + piece.length <= |data|
            && r.Done? && keys[i] in r.value
            && r.value[keys[i]] == data[piece.length..piece.length + piece.offset]
  {
    var data, records, piece := TiledData(keys, m), AllSwapped(Tiled(keys, m)), Tiled(keys, m)[i];
    RefootedReads(prefix, keys, m);
    assert PieceIs(piece, data, keys[i], m[keys[i]]) by { RecordsTile(keys, m); }
    assert records[i] == Swapped(piece) by { SwappedAt(Tiled(keys, m), i); }
    hide Tiled, TiledData, AllSwapped, Values, Parsed, Refooted, WrittenBlock, AreListed;
    ValueAt(records, data, i);
  }

  lemma RefootedIsArchive(prefix: Bytes, keys: seq<Bytes>, m: Entries)
    requires (forall k :: k in keys ==> k in m) && |WrittenBlock(keys, m)| < WORD
    ensures var records, data := AllSwapped(Tiled(keys, m)), TiledData(keys, m);
            Refooted(prefix, keys, m) == Archive(prefix, records, data) && |Block(records, data)| < WORD
  {
    hide Tiled, TiledData, AllSwapped, Index, Footer;
  }

  lemma SwappedKey(keys: seq<Bytes>, m: Entries, i: nat)
    requires (forall k :: k in keys ==> k in m) && |WrittenBlock(keys, m)| < WORD && i < |keys|
    ensures var r := AllSwapped(Tiled(keys, m))[i]; r.key == keys[i] && Fits(r, TiledData(keys, m))
  {
    hide Tiled, TiledData, AllSwapped, WrittenBlock, Adjacent, Fits;
    RecordsTile(keys, m);
    assert PieceIs(Tiled(keys, m)[i], TiledData(keys, m), keys[i], m[keys[i]]);
    SwappedFits(keys, m, i);
  }

  lemma RefootedReads(prefix: Bytes, keys: seq<Bytes>, m: Entries)
    requires AreListed(keys, m.Keys) && (forall k :: k in keys ==> k in m) && |WrittenBlock(keys, m)| < WORD
    ensures var records, data := AllSwapped(Tiled(keys, m)), TiledData(keys, m);
            && (forall r :: r in records ==> Fits(r, data))
            && (forall i :: 0 <= i < |keys| ==> records[i].key == keys[i])
            && (forall i, j :: 0 <= i < j < |records| ==> records[i].key != records[j].key)
            && Parsed(Refooted(prefix, keys, m)) == Done(Values(records, data, map[]))
  {
    var records, data := AllSwapped(Tiled(keys, m)), TiledData(keys, m);
    RefootedIsArchive(prefix, keys, m);
    hide Tiled, TiledData, AllSwapped, Parsed, Values, Refooted, Archive, WrittenBlock, Block, Fits;
    forall i | 0 <= i < |keys| ensures records[i].key == keys[i] && Fits(records[i], data) {
      SwappedKey(keys, m, i);
    }
    hide Word;
    ParserReadsLayout(prefix, records, data);
  }

  /** Adjacent pieces as long as what stands before them are all empty. */
  lemma {:induction false} NothingBefore(records: seq<Record>, data: Bytes, i: nat)
    requires Adjacent(records, data) && i < |records|
    requires forall j :: 0 <= j < |records| ==> records[j].offset == records[j].length
    ensures records[i].length == 0
  {
    if i > 0 {
      NothingBefore(records, data, i - 1);
    }
  }

  lemma {:induction false} EmptyData(keys: seq<Bytes>, m: Entries)
    requires forall k :: k in keys ==> k in m && m[k] == []
    ensures TiledData(keys, m) == []
  {
    if keys != [] {
      EmptyData(keys[..|keys| - 1], m);
    }
  }

  lemma RefootedKeys(prefix: Bytes, keys: seq<Bytes>, m: Entries, key: Bytes)
    requires AreListed(keys, m.Keys) && (forall k :: k in keys ==> k in m) && |WrittenBlock(keys, m)| < WORD
    ensures var r := Parsed(Refooted(prefix, keys, m)); r.Done? && (key in r.value <==> key in m)
  {
    RefootedReads(prefix, keys, m);
    hide Tiled, TiledData, AllSwapped, Parsed, Refooted, WrittenBlock, Values, Fits, NoDup;
    ValuesAre(AllSwapped(Tiled(keys, m)), TiledData(keys, m), map[], key);
    if key in m {
      assert key in Elems(keys);
      var i :| 0 <= i < |keys| && keys[i] == key;
      assert AllSwapped(Tiled(keys, m))[i].key == key;
    }
    if i :| 0 <= i < |keys| && AllSwapped(Tiled(keys, m))[i].key == key {
      assert keys[i] in Elems(keys);
    }
  }

  lemma BackMeansEqual(prefix: Bytes, keys: seq<Bytes>, m: Entries, i: nat)
    requires AreListed(keys, m.Keys) && (forall k :: k in keys ==> k in m) && |WrittenBlock(keys, m)| < WORD
    requires Parsed(Refooted(prefix, keys, m)) == Done(m) && i < |keys|
    ensures Tiled(keys, m)[i].offset == Tiled(keys, m)[i].length == |m[keys[i]]|
  {
    hide Tiled, TiledData, Parsed, Refooted, WrittenBlock, AreListed;
    RefootedValue(prefix, keys, m, i);
  }

  lemma MapBackIsEmpty(prefix: Bytes, keys: seq<Bytes>, m: Entries, i: nat)
    requires AreListed(keys, m.Keys) && (forall k :: k in keys ==> k in m) && |WrittenBlock(keys, m)| < WORD
    requires Parsed(Refooted(prefix, keys, m)) == Done(m) && i < |keys|
    ensures m[keys[i]] == []
  {
    var records, data := Tiled(keys, m), TiledData(keys, m);
    RecordsTile(keys, m);
    hide Tiled, TiledData, Parsed, Refooted, WrittenBlock, Adjacent, AreListed, PieceIs;
    forall j | 0 <= j < |records| ensures records[j].offset == records[j].length {
      BackMeansEqual(prefix, keys, m, j);
    }
    BackMeansEqual(prefix, keys, m, i);
    NothingBefore(records, data, i);
  }

  lemma EmptyComesBack(prefix: Bytes, keys: seq<Bytes>, m: Entries, k: Bytes)
    requires AreListed(keys, m.Keys) && (forall k :: k in keys ==> k in m) && |WrittenBlock(keys, m)| < WORD
    requires (forall k :: k in m ==> m[k] == []) && k in m
    ensures var r := Parsed(Refooted(prefix, keys, m)); r.Done? && k in r.value && r.value[k] == []
  {
    EmptyData(keys, m);
    var i := IndexOfKey(keys, m, k);
    hide Tiled, TiledData, Parsed, Refooted, WrittenBlock, AreListed;
    RefootedValue(prefix, keys, m, i);
  }

  lemma IndexOfKey(keys: seq<Bytes>, m: Entries, k: Bytes) returns (i: nat)
    requires AreListed(keys, m.Keys) && k in m
    ensures i < |keys| && keys[i] == k
  {
    assert k in Elems(keys);
    i :| 0 <= i < |keys| && keys[i] == k;
  }

  /** Correcting the footer is not enough: the parser then reads the written block, but gets
      the map back only when every value in it is empty. */
  lemma FooterAloneIsNotEnough(prefix: Bytes, keys: seq<Bytes>, m: Entries)
    requires AreListed(keys, m.Keys) && (forall k :: k in keys ==> k in m) && |WrittenBlock(keys, m)| < WORD
    ensures Parsed(Refooted(prefix, keys, m)).Done?
    ensures Parsed(Refooted(prefix, keys, m)) == Done(m) <==> forall k :: k in m ==> m[k] == []
  {
    hide Parsed, Refooted, WrittenBlock, AreListed;
    var read := Parsed(Refooted(prefix, keys, m));
    forall key ensures read.Done? && (key in read.value <==> key in m) {
      RefootedKeys(prefix, keys, m, key);
    }
    assert read.Done? by { RefootedKeys(prefix, keys, m, []); }
    if read == Done(m) {
      forall k | k in m ensures m[k] == [] {
        var i := IndexOfKey(keys, m, k);
        MapBackIsEmpty(prefix, keys, m, i);
      }
    }
    if forall k :: k in m ==> m[k] == [] {
      forall k | k in m ensures read.value[k] == m[k] {
        EmptyComesBack(prefix, keys, m, k);
      }
      assert read.value == m;
    }
  }

  // ----- the order of the keys shows -----

  predicate Storable(r: Record) {
    |r.key| < WORD && r.offset < WORD && r.length < WORD
  }

  lemma {:induction false} IndexInjective(a: seq<Record>, b: seq<Record>)
    requires Index(a) == Index(b)
    requires (forall r :: r in a ==> Storable(r)) && (forall r :: r in b ==> Storable(r))
    ensures a == b
  {
    hide RecordBytes, HoldsRecord, FirstKey, FirstLength, FirstOffset, Storable;
    if a == [] || b == [] {
      RecordIsLong(a);
      RecordIsLong(b);
    } else {
      assert Storable(a[0]) && Storable(b[0]);
      FirstRecord(a[0], Index(a[1..]), b[0], Index(b[1..]));
      IndexInjective(a[1..], b[1..]);
    }
  }

  lemma RecordIsLong(records: seq<Record>)
    ensures Index(records) == [] <==> records == []
  {
  }

  lemma FirstRecord(a: Record, restA: Bytes, b: Record, restB: Bytes)
    requires RecordBytes(a) + restA == RecordBytes(b) + restB && Storable(a) && Storable(b)
    ensures a == b && restA == restB
  {
    hide RecordBytes, HoldsRecord, FirstKey, FirstLength, FirstOffset;
    RecordRead(a, restA);
    RecordRead(b, restB);
  }

  /** The index and the key order can be read off the written bytes. */
  lemma IndexOfWritten(keys: seq<Bytes>, m: Entries)
    requires (forall k :: k in keys ==> k in m) && |WrittenBlock(keys, m)| < WORD
    ensures var bytes := Written(keys, m);
            && |bytes| >= FOOTER && Word(bytes[|bytes| - FOOTER..][..4]) == |WrittenIndex(keys, m)|
            && |bytes| >= 8 + |WrittenIndex(keys, m)| && bytes[8..8 + |WrittenIndex(keys, m)|] == WrittenIndex(keys, m)
  {
    var index, data := WrittenIndex(keys, m), TiledData(keys, m);
    assert Word(Written(keys, m)[|Written(keys, m)| - FOOTER..][..4]) == |index| by {
      WrittenFooter([], keys, m);
      hide Word, Written, WrittenBlock, WrittenIndex, TiledData;
      assert [] + Written(keys, m) == Written(keys, m);
    }
    hide Word, WrittenIndex, TiledData, Footer, Index;
    IndexInside(index, data, Footer(|index|, |data|, |WrittenBlock(keys, m)| + FOOTER));
  }

  lemma IndexInside(index: Bytes, data: Bytes, footer: Bytes)
    ensures (MAGIC + index + data + footer)[8..8 + |index|] == index
  {
    Thirds(MAGIC, index, data + footer);
    assert MAGIC + index + data + footer == MAGIC + index + (data + footer);
  }

  lemma WrittenStorable(keys: seq<Bytes>, m: Entries)
    requires (forall k :: k in keys ==> k in m) && |WrittenBlock(keys, m)| < WORD
    ensures forall r :: r in AllSwapped(Tiled(keys, m)) ==> Storable(r)
  {
    var records := AllSwapped(Tiled(keys, m));
    assert |TiledData(keys, m)| < WORD;
    hide Tiled, TiledData, AllSwapped, WrittenBlock;
    forall i | 0 <= i < |records| ensures Storable(records[i]) {
      SwappedFits(keys, m, i);
    }
  }

  /** Two orders of the keys are written as different bytes, so the output is that of a sorted
      index only if the map happens to yield its keys in that order. */
  lemma DifferentOrdersShow(keys: seq<Bytes>, others: seq<Bytes>, m: Entries)
    requires (forall k :: k in keys ==> k in m) && (forall k :: k in others ==> k in m)
    requires |WrittenBlock(keys, m)| < WORD && |WrittenBlock(others, m)| < WORD
    ensures Written(keys, m) == Written(others, m) <==> keys == others
  {
    if Written(keys, m) == Written(others, m) {
      IndexOfWritten(keys, m);
      IndexOfWritten(others, m);
      assert WrittenIndex(keys, m) == WrittenIndex(others, m);
      WrittenStorable(keys, m);
      WrittenStorable(others, m);
      hide Written, Tiled, AllSwapped, Index, WrittenBlock, Word;
      IndexInjective(AllSwapped(Tiled(keys, m)), AllSwapped(Tiled(others, m)));
      RecordsTile(keys, m);
      RecordsTile(others, m);
      forall i | 0 <= i < |keys| ensures i < |others| && keys[i] == others[i] {
        SwappedAt(Tiled(keys, m), i);
        SwappedAt(Tiled(others, m), i);
      }
    }
  }
}
