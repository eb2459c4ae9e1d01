// The chain file: magic, network id, then length-prefixed blocks.
module Store {
  import opened Prelude
  import opened Encode
  import opened Tx
  import opened Codec
  import opened CodecMethods

  // "SUMPCHN1"
  const MAGIC: Bytes := [0x53, 0x55, 0x4D, 0x50, 0x43, 0x48, 0x4E, 0x31]

  datatype LoadError = NotAChainFile | Damaged(reason: DecodeError)

  datatype Saved = Saved(network: byte, blocks: seq<RawBlock>)

  function FrameBytes(b: RawBlock): Bytes {
    U32Bytes(|BlockBytes(b)| % TWO_32) + BlockBytes(b)
  }

  function FileBytes(f: Saved): Bytes {
    MAGIC + [f.network] + U32Bytes(|f.blocks| % TWO_32) + ListBytes(FrameBytes, f.blocks)
  }

  function ParseFrame(s: Bytes): Parsed<RawBlock> {
    var len :- ParseU32(s);
    var raw :- ParseBytes(len.rest, len.value);
    var b :- ParseAll(ParseBlock, raw.value);
    Ok(Read(b, raw.rest))
  }

  function ParseFrames(s: Bytes): Parsed<seq<RawBlock>> {
    var n :- ParseU32(s);
    ParseList(ParseFrame, n.rest, n.value)
  }

  // Bytes after the last block are ignored.
  function LoadBytes(s: Bytes): Result<Saved, LoadError> {
    if |s| < 13 || s[..8] != MAGIC then Err(NotAChainFile)
    else
      var blocks := ParseFrames(s[9..]);
      if blocks.Err? then Err(Damaged(blocks.error)) else Ok(Saved(s[8], blocks.value.value))
  }

  predicate FitsFrame(b: RawBlock) {
    FitsBlock(b) && BlockSize(b) < TWO_32
  }

  predicate FitsFile(f: Saved) {
    |f.blocks| < TWO_32 && forall b :: b in f.blocks ==> FitsFrame(b)
  }

  lemma FrameRoundTrip(b: RawBlock, suffix: Bytes)
    requires FitsFrame(b)
    ensures ParseFrame(FrameBytes(b) + suffix) == Ok(Read(b, suffix))
  {
    hide BlockBytes, ParseBlock, FitsBlock, BlockSize, U32Bytes, ParseU32;
    var raw := BlockBytes(b);
    BlockLength(b);
    U32RoundTrip(|raw|, raw + suffix);
    BytesRoundTrip(raw, suffix);
    DecodeAllBlock(raw, b);
    assert FrameBytes(b) + suffix == U32Bytes(|raw|) + (raw + suffix);
  }

  lemma FrameCanonical(s: Bytes)
    ensures ParseFrame(s).Ok? ==>
              FitsFrame(ParseFrame(s).value.value)
              && s == FrameBytes(ParseFrame(s).value.value) + ParseFrame(s).value.rest
  {
    hide BlockBytes, ParseBlock, FitsBlock, BlockSize, U32Bytes, ParseU32;
    if ParseFrame(s).Ok? {
      var b := ParseFrame(s).value.value;
      var len := ParseU32(s).value;
      U32Canonical(s);
      DecodeAllBlock(len.rest[..len.value], b);
      BlockLength(b);
      assert len.rest == len.rest[..len.value] + len.rest[len.value..];
    }
  }

  lemma FrameInverse()
    ensures Inverse(ParseFrame, FrameBytes, FitsFrame)
  {
    hide ParseFrame, FrameBytes, FitsFrame;
    forall b, suffix | FitsFrame(b) ensures ParseFrame(FrameBytes(b) + suffix) == Ok(Read(b, suffix)) {
      FrameRoundTrip(b, suffix);
    }
    forall s | ParseFrame(s).Ok?
      ensures FitsFrame(ParseFrame(s).value.value) && s == FrameBytes(ParseFrame(s).value.value) + ParseFrame(s).value.rest {
      FrameCanonical(s);
    }
  }

  // Loading what was saved gives it back, whatever follows in the file.
  lemma LoadSaved(f: Saved, trailing: Bytes)
    requires FitsFile(f)
    ensures LoadBytes(FileBytes(f) + trailing) == Ok(f)
  {
    hide ListBytes, ParseU32, ParseList, FitsFrame, Inverse;
    var s := FileBytes(f) + trailing;
    var frames := ListBytes(FrameBytes, f.blocks) + trailing;
    FrameInverse();
    U32RoundTrip(|f.blocks|, frames);
    ListRoundTrip(ParseFrame, FrameBytes, FitsFrame, f.blocks, trailing);
    assert s[9..] == U32Bytes(|f.blocks|) + frames;
    assert s[..8] == MAGIC;
  }

  // And every file that loads is what saving its content writes, up to such a tail.
  lemma LoadedWasSaved(s: Bytes) returns (trailing: Bytes)
    requires LoadBytes(s).Ok?
    ensures FitsFile(LoadBytes(s).value) && s == FileBytes(LoadBytes(s).value) + trailing
  {
    hide U32Bytes, ListBytes, ParseU32, ParseList, FitsFrame, Inverse;
    FrameInverse();
    var n := ParseU32(s[9..]).value;
    U32Canonical(s[9..]);
    ListCanonical(ParseFrame, FrameBytes, FitsFrame, n.rest, n.value);
    trailing := ParseList(ParseFrame, n.rest, n.value).value.rest;
    assert s == s[..8] + [s[8]] + s[9..];
  }

  // So a saved file gives its blocks back exactly when they are within the decoder's
  // limits, which the consensus rules alone do not ensure.
  lemma LoadsExactly(f: Saved, trailing: Bytes)
    ensures LoadBytes(FileBytes(f) + trailing) == Ok(f) <==> FitsFile(f)
  {
    hide LoadBytes, FileBytes, FitsFile;
    if FitsFile(f) {
      LoadSaved(f, trailing);
    } else if LoadBytes(FileBytes(f) + trailing) == Ok(f) {
      var rest := LoadedWasSaved(FileBytes(f) + trailing);
    }
  }

  method Save(network: byte, blocks: seq<RawBlock>) returns (out: Bytes)
    ensures out == FileBytes(Saved(network, blocks))
  {
    hide FrameBytes, U32Bytes;
    var w := new Writer();
    w.Put(MAGIC);
    w.PutU8(network);
    w.PutU32(|blocks| % TWO_32);
    ghost var head := w.out;
    for i := 0 to |blocks|
      invariant w.out == head + ListBytes(FrameBytes, blocks[..i])
    {
      assert blocks[..i + 1] == blocks[..i] + [blocks[i]];
      ListBytesSnoc(FrameBytes, blocks[..i], blocks[i]);
      PutFrame(blocks[i], w);
    }
    assert blocks[..|blocks|] == blocks;
    return w.out;
  }

  method PutFrame(b: RawBlock, w: Writer)
    modifies w
    ensures w.out == old(w.out) + FrameBytes(b)
  {
    hide BlockBytes, U32Bytes;
    var enc := EncodeBlock(b);
    w.PutU32(|enc| % TWO_32);
    w.Put(enc);
  }

  method ReadFrame(r: Reader) returns (b: Result<RawBlock, DecodeError>)
    requires r.Valid()
    modifies r
    ensures r.Valid() && Agrees(ParseFrame(old(r.Rest())), b, r.Rest())
  {
    hide ParseU32, ParseBlock;
    var len :- r.ReadU32();
    var raw :- r.ReadBytes(len);
    b := DecodeAllBlocks(raw);
  }

  method Load(bytes: Bytes) returns (r: Result<Saved, LoadError>)
    ensures r == LoadBytes(bytes)
  {
    hide ParseU32, ParseFrame;
    if |bytes| < 13 || bytes[..8] != MAGIC {
      return Err(NotAChainFile);
    }
    var network := bytes[8];
    var reader := new Reader(bytes[9..]);
    var count := reader.ReadU32();
    if count.Err? {
      return Err(Damaged(count.error));
    }
    ghost var start := reader.Rest();
    var blocks: seq<RawBlock> := [];
    ListStart(ParseList(ParseFrame, start, count.value));
    for i := 0 to count.value
      invariant reader.Valid()
      invariant ParseList(ParseFrame, start, count.value) == Onward(blocks, ParseList(ParseFrame, reader.Rest(), count.value - i))
    {
      ListStep(ParseFrame, blocks, reader.Rest(), count.value - i);
      var block := ReadFrame(reader);
      if block.Err? {
        return Err(Damaged(block.error));
      }
      blocks := blocks + [block.value];
    }
    assert blocks + [] == blocks;
    return Ok(Saved(network, blocks));
  }
}
