/** When the XPAK parser panics: 32-bit sums that wrap around, in the footer or in a record. */
module XpakPanics {
  import opened Xpak
  import opened XpakLayout

  // ----- records -----

  /** The first record's offset and length wrap around to an end inside the data section. */
  predicate WrappingRecord(index: Bytes, data: Bytes) {
    HoldsRecord(index) && WORD <= FirstOffset(index) + FirstLength(index) <= WORD + |data|
  }

  ghost predicate LeadsToWrap(index: Bytes, data: Bytes, records: seq<Record>, rest: Bytes) {
    index == Index(records) + rest && (forall r :: r in records ==> Fits(r, data)) && WrappingRecord(rest, data)
  }

  /** After records that fit, one that wraps around. */
  ghost predicate EntriesWrap(index: Bytes, data: Bytes) {
    exists records, rest :: LeadsToWrap(index, data, records, rest)
  }

  /** A wrapped sum is below both of its terms. */
  lemma SumCases(offset: nat, length: nat)
    requires offset < WORD && length < WORD
    ensures offset + length < WORD ==> Wrap(offset + length) == offset + length
    ensures offset + length >= WORD ==> Wrap(offset + length) == offset + length - WORD < offset
  {
  }

  lemma FirstPanics(index: Bytes, data: Bytes, entries: Entries)
    requires WrappingRecord(index, data) && |data| < WORD
    ensures ParsedEntries(index, data, entries) == Panics
  {
    SumCases(FirstOffset(index), FirstLength(index));
    hide ParsedEntries, Wrap, Word;
    EntriesStep(index, data, entries, FirstKey(index), FirstOffset(index), FirstLength(index));
  }

  /** A panic comes from the first record, or from the records after one that fits. */
  lemma PanicCases(index: Bytes, data: Bytes, entries: Entries) returns (r: Record, rest: Bytes, more: Entries)
    requires ParsedEntries(index, data, entries) == Panics && |data| < WORD
    ensures !WrappingRecord(index, data) ==>
              && Fits(r, data) && index == RecordBytes(r) + rest
              && |rest| < |index| && ParsedEntries(rest, data, more) == Panics
  {
    r := Record(FirstKey(index), FirstOffset(index), FirstLength(index));
    SumCases(r.offset, r.length);
    hide Wrap, Word;
    rest := index[12 + KeyLength(index)..];
    if WrappingRecord(index, data) {
      more := entries;
    } else {
      RecordSplit(index);
      more := entries[r.key := data[r.offset..Wrap(r.offset + r.length)]];
    }
  }

  lemma {:induction false} PanicHasWrap(index: Bytes, data: Bytes, entries: Entries) returns (records: seq<Record>, rest: Bytes)
    requires ParsedEntries(index, data, entries) == Panics && |data| < WORD
    ensures LeadsToWrap(index, data, records, rest)
    decreases |index|
  {
    var r, after, more := PanicCases(index, data, entries);
    hide WrappingRecord, RecordBytes, ParsedEntries, Fits;
    if WrappingRecord(index, data) {
      records, rest := [], index;
      assert index == Index(records) + rest;
    } else {
      var others: seq<Record>;
      others, rest := PanicHasWrap(after, data, more);
      records := [r] + others;
      assert records[1..] == others;
      assert index == Index(records) + rest;
    }
  }

  lemma {:induction false} WrapPanics(records: seq<Record>, rest: Bytes, data: Bytes, entries: Entries)
    requires (forall r :: r in records ==> Fits(r, data)) && WrappingRecord(rest, data) && |data| < WORD
    ensures ParsedEntries(Index(records) + rest, data, entries).Panics?
  {
    hide ParsedEntries, RecordBytes, HoldsRecord, KeyLength, FirstKey, FirstLength, FirstOffset, Wrap;
    if records == [] {
      assert Index(records) + rest == rest;
      FirstPanics(rest, data, entries);
    } else {
      var r, after := records[0], Index(records[1..]) + rest;
      assert Fits(r, data);
      RecordRead(r, after);
      var index := RecordBytes(r) + after;
      assert r.offset + r.length < WORD && Wrap(r.offset + r.length) == r.offset + r.length by { SumCases(r.offset, r.length); }
      EntriesStep(index, data, entries, r.key, r.offset, r.length);
      WrapPanics(records[1..], rest, data, entries[r.key := data[r.offset..r.offset + r.length]]);
      assert Index(records) + rest == index;
    }
  }

  lemma EntriesPanicExactly(index: Bytes, data: Bytes, entries: Entries)
    requires |data| < WORD
    ensures ParsedEntries(index, data, entries).Panics? <==> EntriesWrap(index, data)
  {
    hide ParsedEntries, WrappingRecord, Fits, Index;
    if ParsedEntries(index, data, entries).Panics? {
      var records, rest := PanicHasWrap(index, data, entries);
    }
    if EntriesWrap(index, data) {
      var records, rest :| LeadsToWrap(index, data, records, rest);
      WrapPanics(records, rest, data, entries);
    }
  }

  // ----- the block and the file -----

  /** A block too short for its magic number, lengths that wrap around, or records that do. */
  ghost predicate BlockWraps(block: Bytes, indexLen: nat, dataLen: nat) {
    || |block| < 8
    || (block[..8] == MAGIC
        && (8 + indexLen + dataLen >= WORD
            || (8 + indexLen + dataLen <= |block|
                && EntriesWrap(block[8..8 + indexLen], block[8 + indexLen..8 + indexLen + dataLen]))))
  }

  lemma LengthCases(indexLen: nat, dataLen: nat)
    requires indexLen < WORD && dataLen < WORD
    ensures 8 + indexLen + dataLen < WORD <==> 8 <= Wrap(8 + indexLen) <= Wrap(8 + indexLen + dataLen)
  {
  }

  lemma BlockPanicsExactly(block: Bytes, indexLen: nat, dataLen: nat)
    requires indexLen < WORD && dataLen < WORD && |block| == Wrap(8 + indexLen + dataLen)
    ensures ParsedBlock(block, indexLen, dataLen).Panics? <==> BlockWraps(block, indexLen, dataLen)
  {
    LengthCases(indexLen, dataLen);
    hide Wrap, EntriesWrap, ParsedEntries;
    if 8 + indexLen + dataLen < WORD {
      EntriesPanicExactly(block[8..8 + indexLen], block[8 + indexLen..8 + indexLen + dataLen], map[]);
    }
  }

  /** The checks before the block pass: the stop mark, the sum of the lengths, the file size. */
  predicate ReachesBlock(file: Bytes) {
    |file| >= FOOTER &&
    var footer := file[|file| - FOOTER..];
    && footer[12..] == STOP
    && Word(footer[8..12]) == Wrap(Word(footer[..4]) + Word(footer[4..8]) + 8)
    && Word(footer[8..12]) + FOOTER <= |file|
  }

  /** Which files make the parser panic. */
  lemma PanicsExactly(file: Bytes)
    ensures Parsed(file).Panics? <==>
            && ReachesBlock(file)
            && var footer := file[|file| - FOOTER..];
               BlockWraps(file[|file| - FOOTER - Word(footer[8..12])..|file| - FOOTER], Word(footer[..4]), Word(footer[4..8]))
  {
    hide Word, Wrap, ParsedBlock, BlockWraps;
    if ReachesBlock(file) {
      var footer := file[|file| - FOOTER..];
      BlockPanicsExactly(file[|file| - FOOTER - Word(footer[8..12])..|file| - FOOTER], Word(footer[..4]), Word(footer[4..8]));
    }
  }

  // ----- both kinds happen -----

  /** A file that is only a footer: an index of 2^32 - 8 bytes makes the block's size wrap
      around to zero. */
  lemma FooterPanics()
    ensures Parsed(Footer(WORD - 8, 0, 0)).Panics?
  {
    var footer := Footer(WORD - 8, 0, 0);
    FooterRead(WORD - 8, 0, 0);
    ParsedSplit([], [], footer);
    assert [] + [] + footer == footer;
  }

  /** An archive with correct lengths whose one record begins at 2^32 - 1. */
  lemma RecordPanics()
    ensures Parsed(Archive([], [Record([], WORD - 1, 1)], [])).Panics?
  {
    var r := Record([], WORD - 1, 1);
    var index := RecordBytes(r);
    assert Index([r]) == index + Index([]) == index;
    OneRecordPanics(r, index);
    hide Word, Wrap, Footer, Parsed, RecordBytes, ParsedBlock, ParsedEntries;
    FooterRead(12, 0, 20);
    BlockSplit(index, []);
    assert MAGIC + index + [] == Block([r], []);
    ParsedSplit([], Block([r], []), Footer(12, 0, 20));
  }

  lemma OneRecordPanics(r: Record, index: Bytes)
    requires r == Record([], WORD - 1, 1) && index == RecordBytes(r)
    ensures |index| == 12 && ParsedEntries(index, [], map[]).Panics?
  {
    RecordRead(r, []);
    hide RecordBytes, ParsedEntries, FirstKey, FirstOffset, FirstLength;
    assert index + [] == index;
    SumCases(r.offset, r.length);
    EntriesStep(index, [], map[], [], WORD - 1, 1);
  }
}
