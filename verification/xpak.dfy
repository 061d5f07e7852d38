/** The XPAK metadata block at the end of a TBZ2 package, as the parser reads it. Sizes are
    32-bit unsigned and wrap around. */
module Xpak {
  import opened Wrappers

  type byte = x: int | 0 <= x < 256

  type Bytes = seq<byte>

  const WORD := 0x1_0000_0000
  const FOOTER := 20

  /** Arithmetic on 32-bit unsigned words. */
  function Wrap(n: nat): (w: nat)
    ensures w < WORD
    ensures n < WORD ==> w == n
  {
    n % 0x1_0000_0000
  }

  const MAGIC: Bytes := [88, 80, 65, 75, 80, 65, 67, 75]   // XPAKPACK
  const STOP: Bytes := [88, 80, 65, 75, 83, 84, 79, 80]    // XPAKSTOP

  /** A Go function returns a value, returns an error, or panics on a slice out of range. */
  datatype Outcome<+T> = Done(value: T) | Failed | Panics

  // ----- big-endian words -----

  function Word(b: Bytes): (n: nat)
    requires |b| == 4
    ensures n < WORD
  {
    var b0: int, b1: int, b2: int, b3: int := b[0], b[1], b[2], b[3];
    b0 * 0x100_0000 + b1 * 0x1_0000 + b2 * 0x100 + b3
  }

  function PutWord(n: nat): (b: Bytes)
    ensures |b| == 4
  {
    [n / 0x100_0000 % 256, n / 0x1_0000 % 256, n / 0x100 % 256, n % 256]
  }

  lemma Shifts(n: nat)
    ensures n / 0x1_0000 == n / 0x100 / 0x100
    ensures n / 0x100_0000 == n / 0x1_0000 / 0x100
  {
  }

  lemma Remainder(n: nat, high: nat, low: nat)
    requires n == high * 0x1_0000_0000 + low && low < WORD
    ensures Wrap(n) == low
  {
  }

  lemma WordOfPut(n: nat)
    ensures Word(PutWord(n)) == Wrap(n)
  {
    var n1, n2, n3 := n / 0x100, n / 0x1_0000, n / 0x100_0000;
    Shifts(n);
    hide Wrap;
    assert n == n1 * 256 + n % 256;
    assert n1 == n2 * 256 + n1 % 256;
    assert n2 == n3 * 256 + n2 % 256;
    Remainder(n, n3 / 256, Word(PutWord(n)));
  }

  lemma PutOfWord(b: Bytes)
    requires |b| == 4
    ensures PutWord(Word(b)) == b
  {
    var n := Word(b);
    var b0: int, b1: int, b2: int, b3: int := b[0], b[1], b[2], b[3];
    assert n / 0x100 == b0 * 0x1_0000 + b1 * 0x100 + b2;
    assert n / 0x1_0000 == b0 * 0x100 + b1;
    assert n / 0x100_0000 == b0;
  }

  // ----- what the parser does, on values -----

  type Entries = map<Bytes, Bytes>

  /** One record of the index: key length, key, data length, data offset. */
  function KeyLength(index: Bytes): nat
    requires |index| >= 4
  {
    Word(index[..4])
  }

  predicate HoldsRecord(index: Bytes) {
    |index| >= 4 && |index| >= 12 + KeyLength(index)
  }

  function FirstKey(index: Bytes): Bytes
    requires HoldsRecord(index)
  {
    index[4..4 + KeyLength(index)]
  }

  function FirstLength(index: Bytes): nat
    requires HoldsRecord(index)
  {
    Word(index[4 + KeyLength(index)..8 + KeyLength(index)])
  }

  function FirstOffset(index: Bytes): nat
    requires HoldsRecord(index)
  {
    Word(index[8 + KeyLength(index)..12 + KeyLength(index)])
  }

  function ParsedEntries(index: Bytes, data: Bytes, entries: Entries): Outcome<Entries>
    decreases |index|
  {
    if index == [] then Done(entries)
    else if !HoldsRecord(index) then Failed
    else
      var offset, length := FirstOffset(index), FirstLength(index);
      var end := Wrap(offset + length);
      if end > |data| then Failed
      else if offset > end then Panics
      else ParsedEntries(index[12 + KeyLength(index)..], data, entries[FirstKey(index) := data[offset..end]])
  }

  function ParsedBlock(block: Bytes, indexLen: nat, dataLen: nat): Outcome<Entries> {
    var indexEnd := Wrap(8 + indexLen);
    var dataEnd := Wrap(8 + indexLen + dataLen);
    if |block| < 8 then Panics
    else if block[..8] != MAGIC then Failed
    else if !(8 <= indexEnd <= dataEnd <= |block|) then Panics
    else ParsedEntries(block[8..indexEnd], block[indexEnd..dataEnd], map[])
  }

  function Parsed(file: Bytes): Outcome<Entries> {
    if |file| < FOOTER then Failed
    else
      var footer := file[|file| - FOOTER..];
      var indexLen, dataLen, xpakLen := Word(footer[..4]), Word(footer[4..8]), Word(footer[8..12]);
      if footer[12..] != STOP then Failed
      else if xpakLen != Wrap(indexLen + dataLen + 8) then Failed
      else if xpakLen + FOOTER > |file| then Failed
      else ParsedBlock(file[|file| - FOOTER - xpakLen..|file| - FOOTER], indexLen, dataLen)
  }

  // ----- the parser -----

  /** Reads the next `n` bytes after the cursor `at`; it is an error to find fewer. */
  method ReadFull(bytes: Bytes, at: nat, n: nat) returns (b: Option<Bytes>, next: nat)
    requires at <= |bytes|
    ensures at <= next <= |bytes|
    ensures |bytes| - at >= n ==> b == Some(bytes[at..][..n]) && bytes[next..] == bytes[at..][n..]
    ensures |bytes| - at < n ==> b == None
  {
    if |bytes| - at < n {
      return None, at;
    }
    next := at + n;
    assert bytes[at..][..n] == bytes[at..next] && bytes[at..][n..] == bytes[next..];
    b := Some(bytes[at..next]);
  }

  method ReadWord(bytes: Bytes, at: nat) returns (w: Option<nat>, next: nat)
    requires at <= |bytes|
    ensures at <= next <= |bytes|
    ensures |bytes| - at >= 4 ==> w == Some(Word(bytes[at..][..4])) && bytes[next..] == bytes[at..][4..]
    ensures |bytes| - at < 4 ==> w == None
  {
    hide Word;
    var b: Option<Bytes>;
    b, next := ReadFull(bytes, at, 4);
    w := if b.None? then None else Some(Word(b.value));
  }

  datatype RawRecord = RawRecord(key: Bytes, dataLen: nat, dataOffset: nat)

  /** One record: key length, key, data length, data offset. */
  method ReadRecord(bytes: Bytes, at: nat) returns (r: Option<RawRecord>, next: nat)
    requires at <= |bytes|
    ensures at <= next <= |bytes|
    ensures r.Some? <==> HoldsRecord(bytes[at..])
    ensures HoldsRecord(bytes[at..]) ==>
              && r == Some(RawRecord(FirstKey(bytes[at..]), FirstLength(bytes[at..]), FirstOffset(bytes[at..])))
              && bytes[next..] == bytes[at..][12 + KeyLength(bytes[at..])..]
              && next >= at + 12
  {
    hide Word;
    var keyLen, dataLen, dataOffset: Option<nat>;
    var key: Option<Bytes>;
    ghost var index := bytes[at..];
    r := None;
    keyLen, next := ReadWord(bytes, at);
    if keyLen.None? {
      return;
    }
    key, next := ReadFull(bytes, next, keyLen.value);
    if key.None? {
      return;
    }
    dataLen, next := ReadWord(bytes, next);
    if dataLen.None? {
      return;
    }
    dataOffset, next := ReadWord(bytes, next);
    if dataOffset.None? {
      return;
    }
    ReadsRecord(index);
    return Some(RawRecord(key.value, dataLen.value, dataOffset.value)), next;
  }

  method ParseXPAKEntries(indexData: Bytes, dataArea: Bytes) returns (r: Outcome<Entries>)
    ensures r == ParsedEntries(indexData, dataArea, map[])
  {
    hide HoldsRecord, FirstKey, FirstLength, FirstOffset, KeyLength, ParsedEntries, Wrap;
    var entries: Entries := map[];
    var at := 0;
    assert indexData[0..] == indexData;
    while at < |indexData|
      invariant at <= |indexData|
      invariant ParsedEntries(indexData[at..], dataArea, entries) == ParsedEntries(indexData, dataArea, map[])
      decreases |indexData| - at
    {
      ghost var index := indexData[at..];
      var record, next := ReadRecord(indexData, at);
      if record.None? {
        EntriesCut(index, dataArea, entries);
        return Failed;
      }
      var RawRecord(key, dataLen, dataOffset) := record.value;
      EntriesStep(index, dataArea, entries, key, dataOffset, dataLen);
      var end := Wrap(dataOffset + dataLen);
      if end > |dataArea| {
        return Failed;
      }
      if dataOffset > end {
        return Panics;
      }
      entries := entries[key := dataArea[dataOffset..end]];
      at := next;
    }
    assert indexData[at..] == [];
    EntriesNone(dataArea, entries);
    return Done(entries);
  }

  lemma EntriesCut(index: Bytes, data: Bytes, entries: Entries)
    requires index != [] && !HoldsRecord(index)
    ensures ParsedEntries(index, data, entries) == Failed
  {
  }

  lemma EntriesStep(index: Bytes, data: Bytes, entries: Entries, key: Bytes, offset: nat, length: nat)
    requires HoldsRecord(index)
    requires key == FirstKey(index) && offset == FirstOffset(index) && length == FirstLength(index)
    ensures 12 <= 12 + KeyLength(index) <= |index|
    ensures Wrap(offset + length) > |data| ==> ParsedEntries(index, data, entries) == Failed
    ensures Wrap(offset + length) <= |data| && offset > Wrap(offset + length) ==> ParsedEntries(index, data, entries) == Panics
    ensures offset <= Wrap(offset + length) <= |data| ==>
              ParsedEntries(index, data, entries)
              == ParsedEntries(index[12 + KeyLength(index)..], data, entries[key := data[offset..Wrap(offset + length)]])
  {
  }

  lemma EntriesNone(data: Bytes, entries: Entries)
    ensures ParsedEntries([], data, entries) == Done(entries)
  {
  }

  lemma ReadsRecord(index: Bytes)
    requires HoldsRecord(index)
    ensures var n := KeyLength(index);
            && index[4..][..n] == FirstKey(index)
            && Word(index[4..][n..][..4]) == FirstLength(index)
            && Word(index[4..][n..][4..][..4]) == FirstOffset(index)
            && index[4..][n..][4..][4..] == index[12 + n..]
  {
    var n := KeyLength(index);
    assert index[4..][n..] == index[4 + n..];
    assert index[4 + n..][..4] == index[4 + n..8 + n];
    assert index[4 + n..][4..] == index[8 + n..];
    assert index[8 + n..][..4] == index[8 + n..12 + n];
    assert index[8 + n..][4..] == index[12 + n..];
  }

  method ParseXPAK(file: Bytes) returns (r: Outcome<Entries>)
    ensures r == Parsed(file)
  {
    hide Word, Wrap, ParsedEntries;
    if |file| < FOOTER {
      return Failed;
    }
    var footer := file[|file| - FOOTER..];
    if footer[12..20] != STOP {
      return Failed;
    }
    var indexLen := Word(footer[0..4]);
    var dataLen := Word(footer[4..8]);
    var xpakLen := Word(footer[8..12]);
    var expectedLen := Wrap(indexLen + dataLen + 8);
    if xpakLen != expectedLen {
      return Failed;
    }
    var xpakStart := |file| - (xpakLen + FOOTER);
    if xpakStart < 0 {
      return Failed;
    }
    var xpakData := file[xpakStart..xpakStart + xpakLen];
    if |xpakData| < 8 {
      return Panics;
    }
    if xpakData[0..8] != MAGIC {
      return Failed;
    }
    var indexEnd := Wrap(8 + indexLen);
    var dataEnd := Wrap(8 + indexLen + dataLen);
    if !(8 <= indexEnd <= |xpakData|) || !(indexEnd <= dataEnd <= |xpakData|) {
      return Panics;
    }
    r := ParseXPAKEntries(xpakData[8..indexEnd], xpakData[indexEnd..dataEnd]);
  }

  /** Where the block starts, from the length in the footer alone. */
  method FindXPAKOffset(file: Bytes) returns (r: Option<int>)
    ensures r == if |file| < FOOTER then None
                 else Some(|file| - FOOTER - Word(file[|file| - FOOTER..][8..12]))
  {
    if |file| < FOOTER {
      return None;
    }
    var footer := file[|file| - FOOTER..];
    var xpakLen := (footer[8] as int) * 0x100_0000;
    xpakLen := xpakLen + (footer[9] as int) * 0x1_0000;
    xpakLen := xpakLen + (footer[10] as int) * 0x100;
    xpakLen := xpakLen + (footer[11] as int);
    return Some(|file| - xpakLen - FOOTER);
  }
}
