/**
 The pbzx container as a format: how blocks are framed, and what a one-shot
 parser makes of a whole byte stream. Nothing here knows about chunks or state.
 */
module PbzxFormat {

  type Byte = b: int | 0 <= b < 256

  const UINT64_LIMIT: nat := 0x1_0000_0000_0000_0000

  // ---------- big-endian numbers ----------

  function Pow256(n: nat): (p: nat)
    ensures p >= 1
  {
    if n == 0 then 1 else 256 * Pow256(n - 1)
  }

  /** The value of a big-endian byte string; archive_be64dec is the case of eight bytes. */
  function BigEndian(bs: seq<Byte>): nat {
    if bs == [] then 0 else 256 * BigEndian(bs[..|bs| - 1]) + bs[|bs| - 1]
  }

  function ToBigEndian(v: nat, n: nat): (bs: seq<Byte>)
    ensures |bs| == n
  {
    if n == 0 then [] else ToBigEndian(v / 256, n - 1) + [v % 256]
  }

  lemma {:induction false} BigEndianBound(bs: seq<Byte>)
    ensures BigEndian(bs) < Pow256(|bs|)
  {
    if bs != [] {
      BigEndianBound(bs[..|bs| - 1]);
    }
  }

  lemma {:induction false} BigEndianRoundTrip(v: nat, n: nat)
    requires v < Pow256(n)
    ensures BigEndian(ToBigEndian(v, n)) == v
  {
    if n != 0 {
      BigEndianRoundTrip(v / 256, n - 1);
      assert ToBigEndian(v, n)[..n - 1] == ToBigEndian(v / 256, n - 1);
    }
  }

  lemma {:induction false} ToBigEndianRoundTrip(bs: seq<Byte>)
    ensures ToBigEndian(BigEndian(bs), |bs|) == bs
  {
    if bs != [] {
      ToBigEndianRoundTrip(bs[..|bs| - 1]);
      assert bs == bs[..|bs| - 1] + [bs[|bs| - 1]];
    }
  }

  lemma Pow256Of8()
    ensures Pow256(8) == UINT64_LIMIT
  {
    assert Pow256(4) == 0x1_0000_0000;
    assert Pow256(8) == 256 * (256 * (256 * (256 * Pow256(4))));
  }

  // ---------- framing ----------

  /** A block: the uncompressed size its header declares, and the bytes it carries. */
  datatype Block = Block(declared: nat, payload: seq<Byte>)

  predicate IsMagic(bs: seq<Byte>)
    requires |bs| == 4
  {
    // 'p' 'b' 'z', then one of 'z' 'x' '4' 'e'
    bs[..3] == [0x70, 0x62, 0x7A] &&
    (bs[3] == 0x7A || bs[3] == 0x78 || bs[3] == 0x34 || bs[3] == 0x65)
  }

  /** Both sizes of a block header are unsigned 64-bit numbers. */
  predicate Encodable(blocks: seq<Block>) {
    forall i :: 0 <= i < |blocks| ==>
      blocks[i].declared < UINT64_LIMIT && |blocks[i].payload| < UINT64_LIMIT
  }

  /** A block size of zero accepts every declared size. */
  predicate Fits(b: Block, blockSize: nat) {
    blockSize == 0 || b.declared <= blockSize
  }

  predicate AllFit(blocks: seq<Block>, blockSize: nat) {
    forall i :: 0 <= i < |blocks| ==> Fits(blocks[i], blockSize)
  }

  function FrameBlock(b: Block): (bs: seq<Byte>)
    ensures |bs| == 16 + |b.payload|
  {
    ToBigEndian(b.declared, 8) + ToBigEndian(|b.payload|, 8) + b.payload
  }

  function FrameBlocks(blocks: seq<Block>): seq<Byte> {
    if blocks == [] then [] else FrameBlock(blocks[0]) + FrameBlocks(blocks[1..])
  }

  function FrameStream(magic: seq<Byte>, blockSize: nat, blocks: seq<Block>): seq<Byte> {
    magic + ToBigEndian(blockSize, 8) + FrameBlocks(blocks)
  }

  function Payloads(blocks: seq<Block>): seq<Byte> {
    if blocks == [] then [] else blocks[0].payload + Payloads(blocks[1..])
  }

  /** The blocks before the first one whose declared size is too large. */
  function FittingPrefix(blocks: seq<Block>, blockSize: nat): seq<Block> {
    if blocks == [] || !Fits(blocks[0], blockSize) then []
    else [blocks[0]] + FittingPrefix(blocks[1..], blockSize)
  }

  // ---------- the one-shot parser ----------

  /** What a reader has delivered when it stops, and whether it stopped cleanly. */
  datatype Outcome = Outcome(output: seq<Byte>, ok: bool)

  /**
   Parses a whole stream. `eof` tells what follows the last byte: the end of the
   input, or a read error reported by the layer below.
   */
  function DecodeStream(bs: seq<Byte>, eof: bool): Outcome {
    if |bs| < 12 || !IsMagic(bs[..4]) then Outcome([], false)
    else DecodeBlocks(bs[12..], BigEndian(bs[4..12]), eof)
  }

  function DecodeBlocks(bs: seq<Byte>, blockSize: nat, eof: bool): Outcome
    decreases |bs|, 0
  {
    if bs == [] then Outcome([], eof)
    else if |bs| < 16 then Outcome([], false)
    else if blockSize != 0 && BigEndian(bs[..8]) > blockSize then Outcome([], false)
    else DecodeData(bs[16..], BigEndian(bs[8..16]), blockSize, eof)
  }

  /** Parses from inside a block that still has `remaining` payload bytes to come. */
  function DecodeData(bs: seq<Byte>, remaining: nat, blockSize: nat, eof: bool): Outcome
    decreases |bs|, 1
  {
    if |bs| < remaining then Outcome(bs, false)
    else
      var rest := DecodeBlocks(bs[remaining..], blockSize, eof);
      Outcome(bs[..remaining] + rest.output, rest.ok)
  }

  // ---------- decoding undoes framing ----------

  lemma HeaderRoundTrip(b: Block, rest: seq<Byte>)
    requires b.declared < UINT64_LIMIT && |b.payload| < UINT64_LIMIT
    ensures var s := FrameBlock(b) + rest;
      BigEndian(s[..8]) == b.declared && BigEndian(s[8..16]) == |b.payload| &&
      s[16..] == b.payload + rest
  {
    var s := FrameBlock(b) + rest;
    Pow256Of8();
    BigEndianRoundTrip(b.declared, 8);
    BigEndianRoundTrip(|b.payload|, 8);
    assert s[..8] == ToBigEndian(b.declared, 8);
    assert s[8..16] == ToBigEndian(|b.payload|, 8);
  }

  lemma {:induction false} DecodeFramedBlocks(blocks: seq<Block>, blockSize: nat)
    requires Encodable(blocks)
    ensures DecodeBlocks(FrameBlocks(blocks), blockSize, true)
         == Outcome(Payloads(FittingPrefix(blocks, blockSize)), AllFit(blocks, blockSize))
  {
    if blocks != [] {
      var s := FrameBlocks(blocks);
      var tail := FrameBlocks(blocks[1..]);
      HeaderRoundTrip(blocks[0], tail);
      if Fits(blocks[0], blockSize) {
        DecodeFramedBlocks(blocks[1..], blockSize);
        assert (blocks[0].payload + tail)[|blocks[0].payload|..] == tail;
        assert AllFit(blocks, blockSize) == AllFit(blocks[1..], blockSize) by {
          assert forall i :: 0 < i < |blocks| ==> blocks[i] == blocks[1..][i - 1];
        }
      }
    }
  }

  lemma StreamParts(magic: seq<Byte>, blockSize: nat, tail: seq<Byte>)
    requires |magic| == 4 && blockSize < UINT64_LIMIT
    ensures var s := magic + ToBigEndian(blockSize, 8) + tail;
      s[..4] == magic && BigEndian(s[4..12]) == blockSize && s[12..] == tail
  {
    var s := magic + ToBigEndian(blockSize, 8) + tail;
    Pow256Of8();
    BigEndianRoundTrip(blockSize, 8);
    assert s[4..12] == ToBigEndian(blockSize, 8);
  }

  /**
   Reading a framed stream gives the payloads, concatenated, up to the first block
   whose declared size exceeds the block size; it ends cleanly iff there is none.
   */
  lemma DecodeUndoesFraming(magic: seq<Byte>, blockSize: nat, blocks: seq<Block>)
    requires |magic| == 4 && IsMagic(magic) && blockSize < UINT64_LIMIT && Encodable(blocks)
    ensures DecodeStream(FrameStream(magic, blockSize, blocks), true)
         == Outcome(Payloads(FittingPrefix(blocks, blockSize)), AllFit(blocks, blockSize))
    ensures AllFit(blocks, blockSize) ==> FittingPrefix(blocks, blockSize) == blocks
  {
    StreamParts(magic, blockSize, FrameBlocks(blocks));
    DecodeFramedBlocks(blocks, blockSize);
    if AllFit(blocks, blockSize) {
      AllFitIsWhole(blocks, blockSize);
    }
  }

  lemma {:induction false} AllFitIsWhole(blocks: seq<Block>, blockSize: nat)
    requires AllFit(blocks, blockSize)
    ensures FittingPrefix(blocks, blockSize) == blocks
  {
    if blocks != [] {
      AllFitIsWhole(blocks[1..], blockSize);
      assert blocks == [blocks[0]] + blocks[1..];
    }
  }

  // ---------- only framed streams are accepted ----------

  lemma {:induction false} AcceptedBlocks(bs: seq<Byte>, blockSize: nat) returns (blocks: seq<Block>)
    requires DecodeBlocks(bs, blockSize, true).ok
    ensures Encodable(blocks) && AllFit(blocks, blockSize) && bs == FrameBlocks(blocks)
    decreases |bs|
  {
    if bs == [] {
      blocks := [];
    } else {
      var declared, size := BigEndian(bs[..8]), BigEndian(bs[8..16]);
      var payload := bs[16..][..size];
      Pow256Of8();
      BigEndianBound(bs[..8]);
      BigEndianBound(bs[8..16]);
      ToBigEndianRoundTrip(bs[..8]);
      ToBigEndianRoundTrip(bs[8..16]);
      var rest := AcceptedBlocks(bs[16..][size..], blockSize);
      blocks := [Block(declared, payload)] + rest;
      assert bs == FrameBlock(blocks[0]) + bs[16..][size..];
    }
  }

  /** A stream is read to a clean end iff it is the framing of blocks that all fit. */
  lemma AcceptedIffFramed(bs: seq<Byte>)
    ensures DecodeStream(bs, true).ok <==>
      exists magic: seq<Byte>, blockSize: nat, blocks: seq<Block> ::
        |magic| == 4 && IsMagic(magic) && blockSize < UINT64_LIMIT && Encodable(blocks) &&
        AllFit(blocks, blockSize) && bs == FrameStream(magic, blockSize, blocks)
  {
    if DecodeStream(bs, true).ok {
      var blockSize := BigEndian(bs[4..12]);
      var blocks := AcceptedBlocks(bs[12..], blockSize);
      Pow256Of8();
      BigEndianBound(bs[4..12]);
      ToBigEndianRoundTrip(bs[4..12]);
      assert bs == FrameStream(bs[..4], blockSize, blocks);
    } else {
      forall magic: seq<Byte>, blockSize: nat, blocks: seq<Block> |
        |magic| == 4 && IsMagic(magic) && blockSize < UINT64_LIMIT && Encodable(blocks) && AllFit(blocks, blockSize)
        ensures bs != FrameStream(magic, blockSize, blocks)
      {
        DecodeUndoesFraming(magic, blockSize, blocks);
      }
    }
  }

  // ---------- truncation ----------

  /** The offsets, within framed blocks, at which a block header starts or the stream ends. */
  ghost predicate AtHeaderBoundary(blocks: seq<Block>, k: nat) {
    exists j :: 0 <= j <= |blocks| && k == |FrameBlocks(blocks[..j])|
  }

  lemma BoundaryStep(blocks: seq<Block>, k: nat)
    requires blocks != [] && k >= 16 + |blocks[0].payload|
    ensures AtHeaderBoundary(blocks, k) <==> AtHeaderBoundary(blocks[1..], k - 16 - |blocks[0].payload|)
  {
    var skip := 16 + |blocks[0].payload|;
    forall j | 0 < j <= |blocks|
      ensures |FrameBlocks(blocks[..j])| == skip + |FrameBlocks(blocks[1..][..j - 1])|
    {
      assert blocks[..j][1..] == blocks[1..][..j - 1];
    }
    if AtHeaderBoundary(blocks, k) {
      var j :| 0 <= j <= |blocks| && k == |FrameBlocks(blocks[..j])|;
      assert k - skip == |FrameBlocks(blocks[1..][..j - 1])|;
    }
    if AtHeaderBoundary(blocks[1..], k - skip) {
      var j :| 0 <= j <= |blocks[1..]| && k - skip == |FrameBlocks(blocks[1..][..j])|;
      assert k == |FrameBlocks(blocks[..j + 1])|;
    }
  }

  lemma BoundaryInsideFirst(blocks: seq<Block>, k: nat)
    requires blocks != [] && 0 < k < 16 + |blocks[0].payload|
    ensures !AtHeaderBoundary(blocks, k)
  {
    forall j | 0 < j <= |blocks|
      ensures |FrameBlocks(blocks[..j])| >= 16 + |blocks[0].payload|
    {
      assert blocks[..j][0] == blocks[0];
    }
  }

  lemma {:induction false} TruncatedBlocks(blocks: seq<Block>, k: nat, blockSize: nat)
    requires Encodable(blocks) && AllFit(blocks, blockSize) && k <= |FrameBlocks(blocks)|
    ensures DecodeBlocks(FrameBlocks(blocks)[..k], blockSize, true).ok <==> AtHeaderBoundary(blocks, k)
  {
    var s := FrameBlocks(blocks);
    if k == 0 {
      assert |FrameBlocks(blocks[..0])| == 0;
    } else {
      var tail := FrameBlocks(blocks[1..]);
      var size := |blocks[0].payload|;
      HeaderRoundTrip(blocks[0], tail);
      assert Fits(blocks[0], blockSize);
      if k >= 16 {
        assert s[..k][..8] == s[..8] && s[..k][8..16] == s[8..16];
      }
      if k < 16 + size {
        BoundaryInsideFirst(blocks, k);
      } else {
        BoundaryStep(blocks, k);
        TruncatedBlocks(blocks[1..], k - 16 - size, blockSize);
        assert s[..k][16..][size..] == tail[..k - 16 - size];
      }
    }
  }

  /**
   Cutting a good stream short gives a clean end exactly when the cut falls on a
   block-header boundary; any other cut, inside the 12-byte preamble included, is fatal.
   */
  lemma TruncationIsFatalUnlessAtBoundary(magic: seq<Byte>, blockSize: nat, blocks: seq<Block>, k: nat)
    requires |magic| == 4 && IsMagic(magic) && blockSize < UINT64_LIMIT
    requires Encodable(blocks) && AllFit(blocks, blockSize)
    requires k <= |FrameStream(magic, blockSize, blocks)|
    ensures DecodeStream(FrameStream(magic, blockSize, blocks)[..k], true).ok <==>
            k >= 12 && AtHeaderBoundary(blocks, k - 12)
  {
    var s := FrameStream(magic, blockSize, blocks);
    StreamParts(magic, blockSize, FrameBlocks(blocks));
    if k >= 12 {
      assert s[..k][..4] == s[..4] && s[..k][4..12] == s[4..12];
      assert s[..k][12..] == s[12..][..k - 12];
      TruncatedBlocks(blocks, k - 12, blockSize);
    }
  }

  // ---------- more input never retracts output ----------

  lemma {:induction false} BlocksMonotone(bs: seq<Byte>, k: nat, blockSize: nat, eof: bool, eof': bool)
    requires k <= |bs|
    ensures DecodeBlocks(bs[..k], blockSize, eof).output <= DecodeBlocks(bs, blockSize, eof').output
    decreases |bs|
  {
    if k >= 16 {
      assert bs[..k][..8] == bs[..8] && bs[..k][8..16] == bs[8..16];
      assert bs[..k][16..] == bs[16..][..k - 16];
      var size := BigEndian(bs[8..16]);
      var data := bs[16..];
      if size <= k - 16 {
        BlocksMonotone(data[size..], k - 16 - size, blockSize, eof, eof');
        assert data[..k - 16][size..] == data[size..][..k - 16 - size];
        assert data[..k - 16][..size] == data[..size];
      }
    }
  }

  /** For every byte stream, what a prefix of it delivers is a prefix of what all of it delivers. */
  lemma OutputIsMonotone(bs: seq<Byte>, k: nat, eof: bool, eof': bool)
    requires k <= |bs|
    ensures DecodeStream(bs[..k], eof).output <= DecodeStream(bs, eof').output
  {
    if k >= 12 {
      assert bs[..k][..4] == bs[..4] && bs[..k][4..12] == bs[4..12];
      assert bs[..k][12..] == bs[12..][..k - 12];
      BlocksMonotone(bs[12..], k - 12, BigEndian(bs[4..12]), eof, eof');
    }
  }
}
