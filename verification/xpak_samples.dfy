/** The format byte by byte: one file as the parser reads it, and one as the writer writes it. */
module XpakSamples {
  import opened Xpak
  import opened XpakLayout
  import opened XpakWriter

  predicate Reads(bytes: Bytes, text: string) {
    |bytes| == |text| && forall i :: 0 <= i < |text| ==> bytes[i] == text[i] as int
  }

  lemma Marks()
    ensures Reads(MAGIC, "XPAKPACK") && Reads(STOP, "XPAKSTOP")
  {
  }

  /** Words are written with the highest byte first. */
  lemma BigEndian(a: byte, b: byte, c: byte, d: byte)
    ensures Word([a, b, c, d]) == a * 0x100_0000 + b * 0x1_0000 + c * 0x100 + d
    ensures PutWord(a * 0x100_0000 + b * 0x1_0000 + c * 0x100 + d) == [a, b, c, d]
  {
    PutOfWord([a, b, c, d]);
  }

  /** The key "A" for the last two of three bytes: its length before its offset, and in the footer
      the length of the index, of the data and of the whole block. */
  lemma ParserSample()
    ensures Parsed(MAGIC + [0, 0, 0, 1] + [65] + [0, 0, 0, 2] + [0, 0, 0, 1] + [120, 121, 122]
                   + [0, 0, 0, 13] + [0, 0, 0, 3] + [0, 0, 0, 24] + STOP)
            == Done(map[[65] := [121, 122]])
  {
    var index: Bytes, data: Bytes := [0, 0, 0, 1] + [65] + [0, 0, 0, 2] + [0, 0, 0, 1], [120, 121, 122];
    SampleIsParsed(index, data);
    hide Parsed;
    SmallWords();
    assert Footer(13, 3, 24) == [0, 0, 0, 13] + [0, 0, 0, 3] + [0, 0, 0, 24] + STOP;
    hide Footer, PutWord;
    assert MAGIC + [0, 0, 0, 1] + [65] + [0, 0, 0, 2] + [0, 0, 0, 1] + [120, 121, 122] + [0, 0, 0, 13] + [0, 0, 0, 3] + [0, 0, 0, 24] + STOP
           == MAGIC + index + data + Footer(13, 3, 24);
  }

  lemma SampleIsParsed(index: Bytes, data: Bytes)
    requires index == [0, 0, 0, 1] + [65] + [0, 0, 0, 2] + [0, 0, 0, 1] && data == [120, 121, 122]
    ensures Parsed(MAGIC + index + data + Footer(13, 3, 24)) == Done(map[[65] := [121, 122]])
  {
    var r := Record([65], 1, 2);
    SmallWords();
    OneRecord(r);
    assert Index([r]) == index;
    hide PutWord, Footer, RecordBytes, Index, Parsed;
    assert |index| == 13;
    SampleArchive(r, index, data);
    ParserReadsLayout([], [r], data);
    SampleValues(r, data);
  }

  lemma SampleArchive(r: Record, index: Bytes, data: Bytes)
    requires Index([r]) == index && |index| == 13 && |data| == 3
    ensures Archive([], [r], data) == MAGIC + index + data + Footer(13, 3, 24)
  {
    hide Footer, Index;
    assert [] + (MAGIC + index + data) == MAGIC + index + data;
  }

  lemma SampleValues(r: Record, data: Bytes)
    requires r == Record([65], 1, 2) && data == [120, 121, 122]
    ensures (forall x :: x in [r] ==> Fits(x, data)) && Values([r], data, map[]) == map[[65] := [121, 122]]
  {
    assert Fits(r, data);
    assert data[1..3] == [121, 122];
    var one: Entries := map[[65] := [121, 122]];
    assert [r][1..] == [];
    assert Values([], data, one) == one;
  }

  lemma SmallWords()
    ensures forall n: nat :: n < 256 ==> PutWord(n) == [0, 0, 0, n]
  {
  }

  lemma OneRecord(r: Record)
    ensures Index([r]) == RecordBytes(r)
  {
    assert Index([r]) == RecordBytes(r) + Index([]);
  }

  /** The writer puts the offset before the length, and counts the footer in the last word. */
  lemma WriterSample()
    ensures var m: Entries := map[[65] := [121, 122]];
            Written([[65]], m) == MAGIC + [0, 0, 0, 1] + [65] + [0, 0, 0, 0] + [0, 0, 0, 2] + [121, 122]
                                  + [0, 0, 0, 13] + [0, 0, 0, 2] + [0, 0, 0, 43] + STOP
  {
    var m: Entries := map[[65] := [121, 122]];
    var key: Bytes := [65];
    SmallWords();
    NothingWritten(m);
    WrittenIndexStep([], m, key);
    TiledStep([], m, key);
    assert [] + [key] == [key];
    hide PutWord, WrittenIndex, TiledData, Tiled;
    var index: Bytes := [0, 0, 0, 1] + [65] + [0, 0, 0, 0] + [0, 0, 0, 2];
    assert WrittenIndex([key], m) == index && TiledData([key], m) == [121, 122];
    assert |index| == 13;
    assert Written([key], m) == MAGIC + index + [121, 122] + Footer(13, 2, 43);
  }
}
