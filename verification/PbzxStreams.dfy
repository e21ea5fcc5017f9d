/**
 Which streams the pbzx filter reads to their end, byte by byte: the four signatures, the
 eight bytes of each number, and what a block holds, without reference to the parser.
 */
module PbzxStreams {
  import opened PbzxFormat

  // ---------- bytes ----------

  /** "pbzz", "pbzx", "pbz4" and "pbze". */
  const SIGNATURES: set<seq<Byte>> :=
    {[112, 98, 122, 122], [112, 98, 122, 120], [112, 98, 122, 52], [112, 98, 122, 101]}

  /** The eight bytes of a number, the most significant one first. */
  function NumberBytes(v: nat): seq<Byte> {
    [v / 0x100_0000_0000_0000 % 256, v / 0x1_0000_0000_0000 % 256, v / 0x100_0000_0000 % 256, v / 0x1_0000_0000 % 256,
     v / 0x100_0000 % 256, v / 0x1_0000 % 256, v / 0x100 % 256, v % 256]
  }

  /** The block: what its declared size is, how many bytes it carries, and these bytes. */
  function BlockBytes(b: Block): seq<Byte> {
    NumberBytes(b.declared) + NumberBytes(|b.payload|) + b.payload
  }

  function BlocksBytes(blocks: seq<Block>): seq<Byte> {
    if blocks == [] then [] else BlocksBytes(blocks[..|blocks| - 1]) + BlockBytes(blocks[|blocks| - 1])
  }

  lemma SignatureBytes(bs: seq<Byte>)
    requires |bs| == 4
    ensures IsMagic(bs) <==> bs in SIGNATURES
  {
    assert bs == [bs[0], bs[1], bs[2], bs[3]];
    assert bs[..3] == [bs[0], bs[1], bs[2]];
  }

  lemma ToBigEndianStep(v: nat, n: nat)
    requires n > 0
    ensures ToBigEndian(v, n) == ToBigEndian(v / 256, n - 1) + [v % 256]
  {
  }

  lemma NumberIsBigEndian(v: nat)
    ensures ToBigEndian(v, 8) == NumberBytes(v)
  {
    var v1 := v / 256;
    var v2 := v1 / 256;
    var v3 := v2 / 256;
    var v4 := v3 / 256;
    var v5 := v4 / 256;
    var v6 := v5 / 256;
    var v7 := v6 / 256;
    Divisions(v);
    ToBigEndianStep(v, 8);
    ToBigEndianStep(v1, 7);
    ToBigEndianStep(v2, 6);
    ToBigEndianStep(v3, 5);
    ToBigEndianStep(v4, 4);
    ToBigEndianStep(v5, 3);
    ToBigEndianStep(v6, 2);
    ToBigEndianStep(v7, 1);
  }

  lemma Divisions(v: nat)
    ensures v / 256 / 256 == v / 0x1_0000 && v / 256 / 256 / 256 == v / 0x100_0000
    ensures v / 256 / 256 / 256 / 256 == v / 0x1_0000_0000
    ensures v / 256 / 256 / 256 / 256 / 256 == v / 0x100_0000_0000
    ensures v / 256 / 256 / 256 / 256 / 256 / 256 == v / 0x1_0000_0000_0000
    ensures v / 256 / 256 / 256 / 256 / 256 / 256 / 256 == v / 0x100_0000_0000_0000
  {
  }

  lemma {:induction false} FramedBytes(blocks: seq<Block>)
    ensures FrameBlocks(blocks) == BlocksBytes(blocks)
  {
    if blocks != [] {
      var init, last := blocks[..|blocks| - 1], blocks[|blocks| - 1];
      FramedBytes(init);
      NumberIsBigEndian(last.declared);
      NumberIsBigEndian(|last.payload|);
      assert blocks == init + [last];
      FrameLast(init, last);
    }
  }

  lemma {:induction false} FrameLast(init: seq<Block>, last: Block)
    ensures FrameBlocks(init + [last]) == FrameBlocks(init) + FrameBlock(last)
  {
    var all := init + [last];
    if init == [] {
      assert all[0] == last && all[1..] == [];
    } else {
      assert all[0] == init[0] && all[1..] == init[1..] + [last];
      FrameLast(init[1..], last);
      assert FrameBlock(init[0]) + (FrameBlocks(init[1..]) + FrameBlock(last))
          == FrameBlock(init[0]) + FrameBlocks(init[1..]) + FrameBlock(last);
    }
  }

  // ---------- which streams are read to a clean end ----------

  /** Blocks of 64-bit sizes, none of which declares more than the block size, unless that is zero. */
  ghost predicate GoodBlocks(blocks: seq<Block>, blockSize: nat) {
    forall b :: b in blocks ==>
      && b.declared < 0x1_0000_0000_0000_0000 && |b.payload| < 0x1_0000_0000_0000_0000
      && (blockSize != 0 ==> b.declared <= blockSize)
  }

  lemma GoodBlocksFit(blocks: seq<Block>, blockSize: nat)
    ensures GoodBlocks(blocks, blockSize) <==> Encodable(blocks) && AllFit(blocks, blockSize)
  {
    assert forall i :: 0 <= i < |blocks| ==> blocks[i] in blocks;
  }

  /** The stream's bytes: a signature, the block size and the blocks. */
  ghost predicate IsStream(bs: seq<Byte>, blockSize: nat, blocks: seq<Block>) {
    && blockSize < 0x1_0000_0000_0000_0000 && GoodBlocks(blocks, blockSize)
    && exists signature :: signature in SIGNATURES && bs == signature + NumberBytes(blockSize) + BlocksBytes(blocks)
  }

  ghost predicate Framed(bs: seq<Byte>, magic: seq<Byte>, blockSize: nat, blocks: seq<Block>) {
    && |magic| == 4 && IsMagic(magic) && blockSize < UINT64_LIMIT && Encodable(blocks) && AllFit(blocks, blockSize)
    && bs == FrameStream(magic, blockSize, blocks)
  }

  lemma StreamIsFramed(bs: seq<Byte>, blockSize: nat, blocks: seq<Block>)
    ensures IsStream(bs, blockSize, blocks) <==> exists magic :: Framed(bs, magic, blockSize, blocks)
  {
    GoodBlocksFit(blocks, blockSize);
    NumberIsBigEndian(blockSize);
    FramedBytes(blocks);
    if IsStream(bs, blockSize, blocks) {
      var signature :| signature in SIGNATURES && bs == signature + NumberBytes(blockSize) + BlocksBytes(blocks);
      SignatureLength(signature);
      SignatureBytes(signature);
      assert Framed(bs, signature, blockSize, blocks);
    }
    if magic :| Framed(bs, magic, blockSize, blocks) {
      SignatureBytes(magic);
    }
  }

  lemma SignatureLength(signature: seq<Byte>)
    requires signature in SIGNATURES
    ensures |signature| == 4
  {
  }

  /** A stream is read to a clean end exactly if it is one of these; then its payloads are delivered. */
  lemma ReadExactly(bs: seq<Byte>)
    ensures DecodeStream(bs, true).ok <==> exists blockSize: nat, blocks: seq<Block> :: IsStream(bs, blockSize, blocks)
  {
    AcceptedIffFramed(bs);
    if DecodeStream(bs, true).ok {
      var magic: seq<Byte>, blockSize: nat, blocks: seq<Block> :|
        |magic| == 4 && IsMagic(magic) && blockSize < UINT64_LIMIT && Encodable(blocks) &&
        AllFit(blocks, blockSize) && bs == FrameStream(magic, blockSize, blocks);
      assert Framed(bs, magic, blockSize, blocks);
      StreamIsFramed(bs, blockSize, blocks);
    }
    if blockSize: nat, blocks: seq<Block> :| IsStream(bs, blockSize, blocks) {
      PayloadsDelivered(bs, blockSize, blocks);
    }
  }

  lemma PayloadsDelivered(bs: seq<Byte>, blockSize: nat, blocks: seq<Block>)
    requires IsStream(bs, blockSize, blocks)
    ensures DecodeStream(bs, true) == Outcome(Payloads(blocks), true)
  {
    StreamIsFramed(bs, blockSize, blocks);
    var magic: seq<Byte> :| Framed(bs, magic, blockSize, blocks);
    DecodeUndoesFraming(magic, blockSize, blocks);
  }

  /** Any other first four bytes are fatal, whatever follows, and nothing is delivered. */
  lemma OtherSignatureIsFatal(bs: seq<Byte>, eof: bool)
    requires |bs| < 4 || bs[..4] !in SIGNATURES
    ensures DecodeStream(bs, eof) == Outcome([], false)
  {
    if |bs| >= 4 {
      SignatureBytes(bs[..4]);
    }
  }

  /** The usual signature, a block size of zero and no block. */
  lemma EmptyStream()
    ensures DecodeStream([0x70, 0x62, 0x7A, 0x78, 0, 0, 0, 0, 0, 0, 0, 0], true) == Outcome([], true)
  {
    var signature: seq<Byte> := [112, 98, 122, 120];
    assert signature in SIGNATURES;
    assert NumberBytes(0) == [0, 0, 0, 0, 0, 0, 0, 0];
    var bs: seq<Byte> := [0x70, 0x62, 0x7A, 0x78, 0, 0, 0, 0, 0, 0, 0, 0];
    assert bs == signature + NumberBytes(0) + BlocksBytes([]);
    PayloadsDelivered(bs, 0, []);
  }

  lemma OneBlockBytes(b: Block)
    ensures BlocksBytes([b]) == BlockBytes(b)
  {
    assert [b][..0] == [];
  }

  lemma OnePayload(b: Block)
    ensures Payloads([b]) == b.payload
    ensures forall size: nat :: FittingPrefix([b], size) == if Fits(b, size) then [b] else []
  {
    assert [b][1..] == [];
  }

  /** A single block is delivered, or refused if it declares more than the block size allows. */
  lemma OneBlockStream(signature: seq<Byte>, size: nat, b: Block)
    requires signature in SIGNATURES && size < 0x1_0000_0000_0000_0000
    requires b.declared < 0x1_0000_0000_0000_0000 && |b.payload| < 0x1_0000_0000_0000_0000
    ensures DecodeStream(signature + NumberBytes(size) + BlockBytes(b), true) ==
      if size == 0 || b.declared <= size then Outcome(b.payload, true) else Outcome([], false)
  {
    SignatureLength(signature);
    SignatureBytes(signature);
    OneBlockBytes(b);
    FramedBytes([b]);
    NumberIsBigEndian(size);
    DecodeUndoesFraming(signature, size, [b]);
    assert AllFit([b], size) <==> Fits([b][0], size);
    OnePayload(b);
    assert Payloads([]) == [];
  }

  /** A block of two bytes that declares five: read with a block size of five, refused with four. */
  lemma DeclaresFive(size: Byte)
    requires size == 4 || size == 5
    ensures DecodeStream([0x70, 0x62, 0x7A, 0x34, 0, 0, 0, 0, 0, 0, 0, size]
                         + [0, 0, 0, 0, 0, 0, 0, 5, 0, 0, 0, 0, 0, 0, 0, 2, 7, 9], true)
         == if size == 5 then Outcome([7, 9], true) else Outcome([], false)
  {
    var signature: seq<Byte>, b := [112, 98, 122, 52], Block(5, [7, 9]);
    assert signature in SIGNATURES;
    OneBlockStream(signature, size, b);
    SmallNumber(size);
    TwoBytesDeclaringFive(b);
    assert [0x70, 0x62, 0x7A, 0x34, 0, 0, 0, 0, 0, 0, 0, size] == signature + NumberBytes(size);
  }

  lemma SmallNumber(v: Byte)
    ensures NumberBytes(v) == [0, 0, 0, 0, 0, 0, 0, v]
  {
  }

  lemma TwoBytesDeclaringFive(b: Block)
    requires b == Block(5, [7, 9])
    ensures BlockBytes(b) == [0, 0, 0, 0, 0, 0, 0, 5, 0, 0, 0, 0, 0, 0, 0, 2, 7, 9]
  {
    SmallNumber(5);
    SmallNumber(2);
  }

  // ---------- when reading breaks off ----------

  /** A read error after the last byte is fatal, and does not change what has been delivered. */
  lemma BrokenOff(bs: seq<Byte>)
    ensures DecodeStream(bs, false) == Outcome(DecodeStream(bs, true).output, false)
  {
    if |bs| >= 12 {
      BlocksBrokenOff(bs[12..], BigEndian(bs[4..12]));
    }
  }

  lemma {:induction false} BlocksBrokenOff(bs: seq<Byte>, blockSize: nat)
    ensures DecodeBlocks(bs, blockSize, false) == Outcome(DecodeBlocks(bs, blockSize, true).output, false)
    decreases |bs|
  {
    if |bs| >= 16 {
      var data, size := bs[16..], BigEndian(bs[8..16]);
      if size <= |data| {
        BlocksBrokenOff(data[size..], blockSize);
      }
    }
  }
}
