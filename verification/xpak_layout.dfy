/** The layout that the parser reads, and the proof that it reads nothing else. */
module XpakLayout {
  import opened Xpak

  datatype Record = Record(key: Bytes, offset: nat, length: nat)

  function RecordBytes(r: Record): Bytes {
    PutWord(|r.key|) + r.key + PutWord(r.length) + PutWord(r.offset)
  }

  function Index(records: seq<Record>): Bytes {
    if records == [] then [] else RecordBytes(records[0]) + Index(records[1..])
  }

  function Footer(indexLen: nat, dataLen: nat, xpakLen: nat): (f: Bytes)
    ensures |f| == FOOTER
  {
    PutWord(indexLen) + PutWord(dataLen) + PutWord(xpakLen) + STOP
  }

  function Block(records: seq<Record>, data: Bytes): Bytes {
    MAGIC + Index(records) + data
  }

  /** Anything, then the block, then a footer with the three lengths. */
  function Archive(prefix: Bytes, records: seq<Record>, data: Bytes): Bytes {
    prefix + Block(records, data) + Footer(|Index(records)|, |data|, |Block(records, data)|)
  }

  predicate Fits(r: Record, data: Bytes) {
    |r.key| < WORD && r.offset + r.length <= |data|
  }

  predicate WellLaid(records: seq<Record>, data: Bytes) {
    (forall r :: r in records ==> Fits(r, data)) && |Block(records, data)| < WORD
  }

  /** What the records say on top of `entries`; a later record of a key wins. */
  function Values(records: seq<Record>, data: Bytes, entries: Entries): Entries
    requires forall r :: r in records ==> Fits(r, data)
  {
    if records == [] then entries
    else
      var r := records[0];
      assert r in records && Fits(r, data);
      Values(records[1..], data, entries[r.key := data[r.offset..r.offset + r.length]])
  }

  // ----- the parser reads the layout -----

  lemma RecordRead(r: Record, rest: Bytes)
    requires |r.key| < WORD && r.offset < WORD && r.length < WORD
    ensures var index := RecordBytes(r) + rest;
            && HoldsRecord(index) && KeyLength(index) == |r.key|
            && FirstKey(index) == r.key && FirstLength(index) == r.length && FirstOffset(index) == r.offset
            && index[12 + KeyLength(index)..] == rest
  {
    hide Word, PutWord;
    var index := RecordBytes(r) + rest;
    var n := |r.key|;
    WordOfPut(n);
    WordOfPut(r.length);
    WordOfPut(r.offset);
    assert index[..4] == PutWord(n);
    assert index[4..4 + n] == r.key;
    assert index[4 + n..8 + n] == PutWord(r.length);
    assert index[8 + n..12 + n] == PutWord(r.offset);
    assert index[12 + n..] == rest;
  }

  lemma {:induction false} EntriesOfIndex(records: seq<Record>, data: Bytes, entries: Entries)
    requires (forall r :: r in records ==> Fits(r, data)) && |data| < WORD
    ensures ParsedEntries(Index(records), data, entries) == Done(Values(records, data, entries))
  {
    hide ParsedEntries, RecordBytes, HoldsRecord, KeyLength, FirstKey, FirstLength, FirstOffset, Wrap;
    if records == [] {
      EntriesNone(data, entries);
    } else {
      var r, rest := records[0], Index(records[1..]);
      assert Fits(r, data);
      RecordRead(r, rest);
      var index := RecordBytes(r) + rest;
      EntriesStep(index, data, entries, r.key, r.offset, r.length);
      var more := entries[r.key := data[r.offset..r.offset + r.length]];
      assert ParsedEntries(index, data, entries) == ParsedEntries(rest, data, more);
      EntriesOfIndex(records[1..], data, more);
    }
  }

  lemma FooterRead(i: nat, d: nat, x: nat)
    ensures var f := Footer(i, d, x);
            Word(f[..4]) == Wrap(i) && Word(f[4..8]) == Wrap(d) && Word(f[8..12]) == Wrap(x) && f[12..] == STOP
  {
    hide Word, PutWord, Wrap;
    WordOfPut(i);
    WordOfPut(d);
    WordOfPut(x);
    var f := Footer(i, d, x);
    assert f[..4] == PutWord(i) && f[4..8] == PutWord(d) && f[8..12] == PutWord(x);
  }

  /** What the parser makes of any file that ends in a block and a matching footer. */
  lemma ParsedSplit(prefix: Bytes, block: Bytes, footer: Bytes)
    requires |footer| == FOOTER && footer[12..] == STOP
    requires Word(footer[8..12]) == |block| == Wrap(Word(footer[..4]) + Word(footer[4..8]) + 8)
    ensures Parsed(prefix + block + footer) == ParsedBlock(block, Word(footer[..4]), Word(footer[4..8]))
  {
    hide Word, Wrap, ParsedBlock;
    var file := prefix + block + footer;
    assert file[|file| - FOOTER..] == footer;
    assert file[|prefix|..|prefix| + |block|] == block;
  }

  lemma BlockRead(records: seq<Record>, data: Bytes)
    requires WellLaid(records, data)
    ensures ParsedBlock(Block(records, data), |Index(records)|, |data|) == Done(Values(records, data, map[]))
  {
    hide Index, ParsedEntries, Fits, Values, Wrap;
    var index := Index(records);
    BlockSplit(index, data);
    EntriesOfIndex(records, data, map[]);
  }

  lemma BlockSplit(index: Bytes, data: Bytes)
    requires 8 + |index| + |data| < WORD
    ensures ParsedBlock(MAGIC + index + data, |index|, |data|) == ParsedEntries(index, data, map[])
  {
    Thirds(MAGIC, index, data);
    hide Wrap;
    BlockParts(MAGIC + index + data, index, data);
  }

  lemma BlockParts(block: Bytes, index: Bytes, data: Bytes)
    requires |block| == 8 + |index| + |data| < WORD && block[..8] == MAGIC
    requires block[8..8 + |index|] == index && block[8 + |index|..8 + |index| + |data|] == data
    ensures ParsedBlock(block, |index|, |data|) == ParsedEntries(index, data, map[])
  {
    hide ParsedEntries, Wrap;
  }

  lemma Thirds(a: Bytes, b: Bytes, c: Bytes)
    ensures var all := a + b + c;
            all[..|a|] == a && all[|a|..|a| + |b|] == b && all[|a| + |b|..|a| + |b| + |c|] == c
  {
  }

  /** The parser returns exactly what the records say, whatever precedes the block, and the
      block is found where it starts. */
  lemma ParserReadsLayout(prefix: Bytes, records: seq<Record>, data: Bytes)
    requires WellLaid(records, data)
    ensures var file := Archive(prefix, records, data);
            && Parsed(file) == Done(Values(records, data, map[]))
            && |file| >= FOOTER && |file| - FOOTER - Word(file[|file| - FOOTER..][8..12]) == |prefix|
  {
    var index, block := Index(records), Block(records, data);
    var footer := Footer(|index|, |data|, |block|);
    assert |block| == 8 + |index| + |data|;
    FooterRead(|index|, |data|, |block|);
    BlockRead(records, data);
    hide Word, Footer, Index, Block, ParsedBlock, Parsed, Values;
    ParsedSplit(prefix, block, footer);
    var file := Archive(prefix, records, data);
    assert file[|file| - FOOTER..] == footer;
  }

  // ----- and nothing else -----

  lemma RecordSplit(index: Bytes)
    requires HoldsRecord(index)
    ensures index == RecordBytes(Record(FirstKey(index), FirstOffset(index), FirstLength(index))) + index[12 + KeyLength(index)..]
    ensures |FirstKey(index)| < WORD
  {
    var n := KeyLength(index);
    PutOfWord(index[..4]);
    PutOfWord(index[4 + n..8 + n]);
    PutOfWord(index[8 + n..12 + n]);
    hide Word, PutWord;
    assert index == index[..4] + index[4..4 + n] + index[4 + n..8 + n] + index[8 + n..12 + n] + index[12 + n..];
  }

  lemma {:induction false} EntriesAreLaidOut(index: Bytes, data: Bytes, entries: Entries) returns (records: seq<Record>)
    requires ParsedEntries(index, data, entries).Done? && |data| < WORD
    ensures index == Index(records) && forall r :: r in records ==> Fits(r, data)
    ensures ParsedEntries(index, data, entries) == Done(Values(records, data, entries))
    decreases |index|
  {
    if index == [] {
      records := [];
    } else {
      hide Wrap;
      var r := Record(FirstKey(index), FirstOffset(index), FirstLength(index));
      var rest := index[12 + KeyLength(index)..];
      var end := Wrap(r.offset + r.length);
      assert end == r.offset + r.length by { NoWrap(r.offset, r.length); }
      RecordSplit(index);
      var more := EntriesAreLaidOut(rest, data, entries[r.key := data[r.offset..end]]);
      records := [r] + more;
      assert records[1..] == more;
    }
  }

  /** A sum that wraps around falls below its terms. */
  lemma NoWrap(offset: nat, length: nat)
    requires offset < WORD && length < WORD && offset <= Wrap(offset + length)
    ensures Wrap(offset + length) == offset + length
  {
  }

  ghost predicate LaidOut(file: Bytes, entries: Entries) {
    exists prefix, records, data :: WellLaid(records, data) && file == Archive(prefix, records, data)
                                    && entries == Values(records, data, map[])
  }

  /** Parsing succeeds with `entries` exactly if the file is an archive in the parser's layout
      that says so. */
  lemma ParsesExactlyLayouts(file: Bytes, entries: Entries)
    ensures Parsed(file) == Done(entries) <==> LaidOut(file, entries)
  {
    hide Archive, Values, Parsed, Fits, Block;
    if LaidOut(file, entries) {
      var prefix, records, data :| WellLaid(records, data) && file == Archive(prefix, records, data)
                                   && entries == Values(records, data, map[]);
      ParserReadsLayout(prefix, records, data);
    }
    if Parsed(file) == Done(entries) {
      var prefix, records, data := ParsedIsLaidOut(file);
      assert LaidOut(file, entries);
    }
  }

  lemma BlockIsLaidOut(block: Bytes, indexLen: nat, dataLen: nat) returns (records: seq<Record>, data: Bytes)
    requires indexLen < WORD && dataLen < WORD && |block| == Wrap(8 + indexLen + dataLen)
    requires ParsedBlock(block, indexLen, dataLen).Done?
    ensures WellLaid(records, data) && block == Block(records, data)
    ensures |Index(records)| == indexLen && |data| == dataLen
    ensures ParsedBlock(block, indexLen, dataLen) == Done(Values(records, data, map[]))
  {
    hide ParsedEntries, Values;
    BlockLengths(indexLen, dataLen);
    hide Wrap;
    var index := block[8..8 + indexLen];
    data := block[8 + indexLen..];
    assert block[8 + indexLen..8 + indexLen + dataLen] == data;
    records := EntriesAreLaidOut(index, data, map[]);
    hide Index;
    assert block == MAGIC + index + data;
  }

  lemma ParsedIsLaidOut(file: Bytes) returns (prefix: Bytes, records: seq<Record>, data: Bytes)
    requires Parsed(file).Done?
    ensures WellLaid(records, data) && file == Archive(prefix, records, data)
    ensures Parsed(file) == Done(Values(records, data, map[]))
  {
    hide Word, ParsedBlock, Wrap;
    var footer := file[|file| - FOOTER..];
    var indexLen, dataLen, xpakLen := Word(footer[..4]), Word(footer[4..8]), Word(footer[8..12]);
    var start := |file| - FOOTER - xpakLen;
    prefix := file[..start];
    var block := file[start..|file| - FOOTER];
    records, data := BlockIsLaidOut(block, indexLen, dataLen);
    hide Parsed, Values, WellLaid, Block, Footer;
    FooterSplit(footer);
    assert file == prefix + block + footer;
  }

  lemma BlockLengths(indexLen: nat, dataLen: nat)
    requires indexLen < WORD && dataLen < WORD
    requires 8 <= Wrap(8 + indexLen) <= Wrap(8 + indexLen + dataLen)
    ensures Wrap(8 + indexLen) == 8 + indexLen && Wrap(8 + indexLen + dataLen) == 8 + indexLen + dataLen
  {
  }

  lemma FooterSplit(footer: Bytes)
    requires |footer| == FOOTER && footer[12..] == STOP
    ensures footer == Footer(Word(footer[..4]), Word(footer[4..8]), Word(footer[8..12]))
  {
    PutOfWord(footer[..4]);
    PutOfWord(footer[4..8]);
    PutOfWord(footer[8..12]);
    hide Word, PutWord;
    assert footer == footer[..4] + footer[4..8] + footer[8..12] + footer[12..];
  }
}
