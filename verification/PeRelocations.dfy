/** Decoding the base relocation blocks of a PE image ("The .reloc Section" of the Microsoft PE
    format): the loop runs on the bytes remaining, block after block. */
module PeRelocations {
  import opened Words
  import opened SectionBytes

  const BLOCK_HEADER := 8

  datatype RelocationEntry = RelocationEntry(offset: nat, kind: nat, pageRva: nat)

  // ---------------------------------------------------------------- decoding

  function EntryOf(raw: nat, page: nat): RelocationEntry {
    RelocationEntry(raw % 0x1000, raw / 0x1000, page)
  }

  function ShortAt(buf: seq<Byte>, o: int): nat {
    LeBetween(buf, o, o + 2)
  }

  /** The entries of one block from index `i` on, after those already found. */
  function EntriesFrom(
    buf: seq<Byte>, at: int, page: nat, i: nat, n: nat, found: seq<RelocationEntry>): seq<RelocationEntry>
    requires i <= n
    decreases n - i
  {
    if i == n then found else EntriesFrom(buf, at, page, i + 1, n, found + [EntryOf(ShortAt(buf, at + i * 2), page)])
  }

  /** The blocks from `at` on, `parsed` bytes into a directory of `size` bytes. None for a
      block shorter than its header, whose entry count wraps around to about 2^63: no list holds as many. */
  function BlocksFrom(buf: seq<Byte>, at: int, parsed: nat, size: nat, found: seq<RelocationEntry>)
    : Option<seq<RelocationEntry>>
    decreases size - parsed
  {
    if parsed >= size then Some(found)
    else
      var page, blockSize := DwordAt(buf, at), DwordAt(buf, at + 4);
      if blockSize < BLOCK_HEADER then None
      else
        var n := (blockSize - BLOCK_HEADER) / 2;
        BlocksFrom(buf, at + blockSize, parsed + blockSize, size,
                   EntriesFrom(buf, at + BLOCK_HEADER, page, 0, n, found))
  }

  method ReadRelocations(buf: seq<Byte>, size: nat) returns (r: Option<seq<RelocationEntry>>)
    ensures r == BlocksFrom(buf, 0, 0, size, [])
  {
    var relocations: seq<RelocationEntry> := [];
    var at := 0;
    var parsed := 0;
    while parsed < size
      invariant BlocksFrom(buf, 0, 0, size, []) == BlocksFrom(buf, at, parsed, size, relocations)
      decreases size - parsed
    {
      var page, blockSize := DwordAt(buf, at), DwordAt(buf, at + 4);
      if blockSize < BLOCK_HEADER {
        return None;
      }
      var n := (blockSize - BLOCK_HEADER) / 2;
      ghost var before := relocations;
      for i := 0 to n
        invariant EntriesFrom(buf, at + BLOCK_HEADER, page, 0, n, before)
               == EntriesFrom(buf, at + BLOCK_HEADER, page, i, n, relocations)
      {
        var raw := ShortAt(buf, at + BLOCK_HEADER + i * 2);
        relocations := relocations + [RelocationEntry(raw % 0x1000, raw / 0x1000, page)];
      }
      parsed := parsed + blockSize;
      at := at + blockSize;
    }
    return Some(relocations);
  }

  // ---------------------------------------------------------------- encoding

  datatype RawRelocation = RawRelocation(kind: nat, offset: nat)

  datatype Block = Block(page: nat, entries: seq<RawRelocation>)

  // What the fields of the format can hold.
  predicate Encodable(b: Block) {
    && b.page < UINT32_LIMIT && BlockSize(b) < UINT32_LIMIT
    && forall i | 0 <= i < |b.entries| :: b.entries[i].kind < 0x10 && b.entries[i].offset < 0x1000
  }

  function BlockSize(b: Block): nat {
    BLOCK_HEADER + 2 * |b.entries|
  }

  function EncodeEntries(es: seq<RawRelocation>): (r: seq<Byte>)
    ensures |r| == 2 * |es|
  {
    if es == [] then []
    else
      var last := es[|es| - 1];
      EncodeEntries(es[..|es| - 1]) + LeBytes(last.kind * 0x1000 + last.offset, 2)
  }

  function EncodeBlock(b: Block): (r: seq<Byte>)
    ensures |r| == BlockSize(b)
  {
    LeBytes(b.page, 4) + LeBytes(BlockSize(b), 4) + EncodeEntries(b.entries)
  }

  function Encode(blocks: seq<Block>): seq<Byte> {
    if blocks == [] then [] else EncodeBlock(blocks[0]) + Encode(blocks[1..])
  }

  function EntriesOf(b: Block): (r: seq<RelocationEntry>)
    ensures |r| == |b.entries|
  {
    seq(|b.entries|, i requires 0 <= i < |b.entries| =>
      RelocationEntry(b.entries[i].offset, b.entries[i].kind, b.page))
  }

  function AllEntries(blocks: seq<Block>): seq<RelocationEntry> {
    if blocks == [] then [] else EntriesOf(blocks[0]) + AllEntries(blocks[1..])
  }

  // ---------------------------------------------------------------- decoding undoes encoding

  lemma {:induction false} EntryEncoded(es: seq<RawRelocation>, i: nat)
    requires i < |es|
    ensures EncodeEntries(es)[2 * i..2 * i + 2] == LeBytes(es[i].kind * 0x1000 + es[i].offset, 2)
  {
    var n := |es| - 1;
    if i < n {
      EntryEncoded(es[..n], i);
      assert EncodeEntries(es)[2 * i..2 * i + 2] == EncodeEntries(es[..n])[2 * i..2 * i + 2];
    }
  }

  lemma EntryDecoded(buf: seq<Byte>, at: nat, b: Block, i: nat)
    requires Encodable(b) && i < |b.entries|
    requires at + 2 * |b.entries| <= |buf| && buf[at..at + 2 * |b.entries|] == EncodeEntries(b.entries)
    ensures EntryOf(ShortAt(buf, at + i * 2), b.page) == EntriesOf(b)[i]
  {
    var e := b.entries[i];
    EntryEncoded(b.entries, i);
    SliceOfSlice(buf, at, 2 * |b.entries|, 2 * i, 2 * i + 2);
    WordFits();
    RawParts(e.kind, e.offset);
    DecodesTo(buf, at + i * 2, e.kind * 0x1000 + e.offset, 2);
  }

  lemma {:induction false} EntriesDecoded(
    buf: seq<Byte>, at: nat, b: Block, i: nat, found: seq<RelocationEntry>)
    requires Encodable(b) && i <= |b.entries|
    requires at + 2 * |b.entries| <= |buf| && buf[at..at + 2 * |b.entries|] == EncodeEntries(b.entries)
    ensures EntriesFrom(buf, at, b.page, i, |b.entries|, found) == found + EntriesOf(b)[i..]
    decreases |b.entries| - i
  {
    if i < |b.entries| {
      EntryDecoded(buf, at, b, i);
      EntriesDecoded(buf, at, b, i + 1, found + [EntriesOf(b)[i]]);
      assert EntriesOf(b)[i..] == [EntriesOf(b)[i]] + EntriesOf(b)[i + 1..];
    } else {
      assert found + EntriesOf(b)[i..] == found;
    }
  }

  lemma RawParts(kind: nat, offset: nat)
    requires kind < 0x10 && offset < 0x1000
    ensures (kind * 0x1000 + offset) % 0x1000 == offset && (kind * 0x1000 + offset) / 0x1000 == kind
    ensures kind * 0x1000 + offset < 0x1_0000
  {
  }

  lemma HeaderDecoded(buf: seq<Byte>, at: nat, b: Block)
    requires Encodable(b) && at + BlockSize(b) <= |buf| && buf[at..at + BlockSize(b)] == EncodeBlock(b)
    ensures DwordAt(buf, at) == b.page && DwordAt(buf, at + 4) == BlockSize(b)
    ensures buf[at + BLOCK_HEADER..at + BLOCK_HEADER + 2 * |b.entries|] == EncodeEntries(b.entries)
  {
    WordFits();
    SliceOfSlice(buf, at, BlockSize(b), 0, 4);
    SliceOfSlice(buf, at, BlockSize(b), 4, 8);
    SliceOfSlice(buf, at, BlockSize(b), 8, BlockSize(b));
    assert EncodeBlock(b)[0..4] == LeBytes(b.page, 4) && EncodeBlock(b)[4..8] == LeBytes(BlockSize(b), 4);
    assert EncodeBlock(b)[8..BlockSize(b)] == EncodeEntries(b.entries);
    DecodesTo(buf, at, b.page, 4);
    DecodesTo(buf, at + 4, BlockSize(b), 4);
  }

  // The section holds the encoded blocks at `at`.
  ghost predicate ChainAt(buf: seq<Byte>, at: nat, blocks: seq<Block>) {
    && (forall b :: b in blocks ==> Encodable(b))
    && at + |Encode(blocks)| <= |buf| && buf[at..at + |Encode(blocks)|] == Encode(blocks)
  }

  lemma ChainTail(buf: seq<Byte>, at: nat, blocks: seq<Block>)
    requires ChainAt(buf, at, blocks) && blocks != []
    ensures ChainAt(buf, at + BlockSize(blocks[0]), blocks[1..])
    ensures |Encode(blocks)| == BlockSize(blocks[0]) + |Encode(blocks[1..])|
    ensures Encodable(blocks[0]) && buf[at..at + BlockSize(blocks[0])] == EncodeBlock(blocks[0])
  {
    FirstBlock(buf, at, blocks);
    assert blocks[0] in blocks && forall c :: c in blocks[1..] ==> c in blocks;
  }

  lemma {:induction false} BlocksDecoded(
    buf: seq<Byte>, at: nat, parsed: nat, size: nat, blocks: seq<Block>, found: seq<RelocationEntry>)
    requires ChainAt(buf, at, blocks) && size == parsed + |Encode(blocks)|
    ensures BlocksFrom(buf, at, parsed, size, found) == Some(found + AllEntries(blocks))
    decreases |blocks|
  {
    hide ChainAt, BlocksFrom, EncodeBlock, EntriesFrom;
    if blocks == [] {
      NoBlocks(buf, at, parsed, size, found);
      assert found + AllEntries(blocks) == found;
    } else {
      var b, rest := blocks[0], blocks[1..];
      ChainTail(buf, at, blocks);
      var found1 := found + EntriesOf(b);
      assert found1 + AllEntries(rest) == found + AllEntries(blocks) by {
        Reassociate(found, EntriesOf(b), AllEntries(rest));
      }
      assert BlocksFrom(buf, at + BlockSize(b), parsed + BlockSize(b), size, found1)
        == Some(found + AllEntries(blocks)) by {
        BlocksDecoded(buf, at + BlockSize(b), parsed + BlockSize(b), size, rest, found1);
      }
      BlockDecoded(buf, at, parsed, size, b, found);
    }
  }

  lemma NoBlocks(buf: seq<Byte>, at: nat, parsed: nat, size: nat, found: seq<RelocationEntry>)
    requires parsed >= size
    ensures BlocksFrom(buf, at, parsed, size, found) == Some(found)
  {
  }

  lemma Reassociate<T>(a: seq<T>, b: seq<T>, c: seq<T>)
    ensures a + b + c == a + (b + c)
  {
  }

  lemma BlockDecoded(buf: seq<Byte>, at: nat, parsed: nat, size: nat, b: Block, found: seq<RelocationEntry>)
    requires Encodable(b) && at + BlockSize(b) <= |buf| && buf[at..at + BlockSize(b)] == EncodeBlock(b)
    requires parsed < size
    ensures BlocksFrom(buf, at, parsed, size, found)
         == BlocksFrom(buf, at + BlockSize(b), parsed + BlockSize(b), size, found + EntriesOf(b))
  {
    HeaderDecoded(buf, at, b);
    EntriesDecoded(buf, at + BLOCK_HEADER, b, 0, found);
    assert EntriesOf(b)[0..] == EntriesOf(b);
  }

  lemma FirstBlock(buf: seq<Byte>, at: nat, blocks: seq<Block>)
    requires blocks != [] && at + |Encode(blocks)| <= |buf| && buf[at..at + |Encode(blocks)|] == Encode(blocks)
    ensures |Encode(blocks)| == BlockSize(blocks[0]) + |Encode(blocks[1..])|
    ensures buf[at..at + BlockSize(blocks[0])] == EncodeBlock(blocks[0])
    ensures buf[at + BlockSize(blocks[0])..at + BlockSize(blocks[0]) + |Encode(blocks[1..])|] == Encode(blocks[1..])
  {
    var n, k := |Encode(blocks)|, BlockSize(blocks[0]);
    SliceOfSlice(buf, at, n, 0, k);
    SliceOfSlice(buf, at, n, k, n);
    assert Encode(blocks)[0..k] == EncodeBlock(blocks[0]) && Encode(blocks)[k..n] == Encode(blocks[1..]);
  }

  /** For any chain of blocks, whatever follows them in the section, the loop ends with every entry of
      every block in order, each with its own page. */
  lemma RelocationsRoundTrip(blocks: seq<Block>, tail: seq<Byte>)
    requires forall b :: b in blocks ==> Encodable(b)
    ensures BlocksFrom(Encode(blocks) + tail, 0, 0, |Encode(blocks)|, []) == Some(AllEntries(blocks))
  {
    var buf := Encode(blocks) + tail;
    assert buf[0..0 + |Encode(blocks)|] == Encode(blocks);
    BlocksDecoded(buf, 0, 0, |Encode(blocks)|, blocks, []);
    assert [] + AllEntries(blocks) == AllEntries(blocks);
  }
}
