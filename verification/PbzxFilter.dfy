/**
 The streaming pbzx read filter: a four-state machine over an upstream that hands
 out its bytes in pieces of any size. Proved equal to the one-shot parser.
 */
module PbzxFilter {
  import opened PbzxFormat

  /** The read-ahead interface of the filter below, reduced to what the pbzx filter uses. */
  class Upstream {
    var unread: seq<Byte>
    // What follows the last byte: the end of the input, or a read error.
    const eof: bool

    constructor (bytes: seq<Byte>, eof: bool)
      ensures unread == bytes && this.eof == eof
    {
      unread := bytes;
      this.eof := eof;
    }

    /**
     Looks at the next bytes without consuming them. How many are shown is up to the
     upstream, as long as there is at least one; `[]` is the null pointer, with
     `avail` then zero at the end of the input and negative after a read error.
     */
    method Ahead() returns (b: seq<Byte>, avail: int)
      ensures unread != [] ==> b != [] && b <= unread && avail == |b|
      ensures unread == [] ==> b == [] && (if eof then avail == 0 else avail < 0)
    {
      if unread != [] {
        avail :| 1 <= avail <= |unread|;
        b := unread[..avail];
      } else {
        b := [];
        avail := if eof then 0 else -30;
      }
    }

    method Consume(n: nat)
      requires n <= |unread|
      modifies this`unread
      ensures unread == old(unread)[n..]
    {
      unread := unread[n..];
    }

    /** Copies exactly `out.Length` bytes, in as many pieces as upstream makes of them. */
    method ReadBytes(out: array<Byte>) returns (ok: bool)
      modifies this`unread, out
      ensures ok <==> old(|unread|) >= out.Length
      ensures ok ==> out[..] == old(unread)[..out.Length] && unread == old(unread)[out.Length..]
      ensures !ok ==> unread == []
    {
      var filled := 0;
      while filled < out.Length
        invariant 0 <= filled <= out.Length
        invariant filled <= old(|unread|) && unread == old(unread)[filled..]
        invariant out[..filled] == old(unread)[..filled]
      {
        var b, avail := Ahead();
        if b == [] {
          return false;
        }
        if avail > out.Length - filled {
          avail := out.Length - filled;
        }
        forall i | 0 <= i < avail {
          out[filled + i] := b[i];
        }
        Consume(avail);
        filled := filled + avail;
      }
      return true;
    }

    method ReadU64() returns (ok: bool, v: nat)
      modifies this`unread
      ensures ok <==> old(|unread|) >= 8
      ensures ok ==> v == BigEndian(old(unread)[..8]) && v < UINT64_LIMIT && unread == old(unread)[8..]
      ensures !ok ==> unread == []
    {
      var buf := new Byte[8];
      ok := ReadBytes(buf);
      v := 0;
      if ok {
        v := BigEndian(buf[..]);
        Pow256Of8();
        BigEndianBound(buf[..]);
      }
    }
  }

  datatype State = Signature | BlockHeader | BlockData | Done

  /** What one call of the filter's read returns. */
  datatype ReadResult = Bytes(data: seq<Byte>) | End | Fatal

  class PbzxFilter {
    const upstream: Upstream
    var blockSize: nat
    var remaining: nat
    var uncompressedSize: nat
    var compressedSize: nat
    var state: State
    // Bookkeeping for the conservation law: bytes handed out, and compressed sizes accepted.
    ghost var delivered: nat
    ghost var accepted: nat

    ghost predicate Valid()
      reads this, upstream
    {
      && blockSize < UINT64_LIMIT && remaining < UINT64_LIMIT
      && uncompressedSize < UINT64_LIMIT && compressedSize < UINT64_LIMIT
      && delivered + remaining == accepted
      && (!state.BlockData? ==> remaining == 0)
      && (state.Done? ==> upstream.unread == [])
    }

    /** Everything that reading on from here will deliver, and how it will end. */
    ghost function Future(): Outcome
      reads this, upstream
    {
      match state
      case Signature => DecodeStream(upstream.unread, upstream.eof)
      case BlockHeader => DecodeBlocks(upstream.unread, blockSize, upstream.eof)
      case BlockData => DecodeData(upstream.unread, remaining, blockSize, upstream.eof)
      case Done => Outcome([], true)
    }

    constructor (upstream: Upstream)
      ensures Valid() && fresh(this) && this.upstream == upstream
      ensures Future() == DecodeStream(upstream.unread, upstream.eof)
      ensures delivered == 0
    {
      this.upstream := upstream;
      blockSize, remaining, uncompressedSize, compressedSize := 0, 0, 0, 0;
      state := Signature;
      delivered, accepted := 0, 0;
    }

    method ReadSignature() returns (ok: bool)
      requires Valid() && state.Signature?
      modifies this, upstream`unread
      ensures Valid() && delivered == old(delivered)
      ensures ok ==> state.BlockHeader? && Future() == old(Future()) && |upstream.unread| < old(|upstream.unread|)
      ensures !ok ==> state.Signature? && old(Future()) == Outcome([], false)
    {
      var magic := new Byte[4];
      ghost var stream := upstream.unread;
      ok := upstream.ReadBytes(magic);
      if !ok {
        return;
      }
      if !IsMagic(magic[..]) {
        return false;
      }
      assert stream[..4] == magic[..];
      assert |stream| >= 12 ==> stream[4..][..8] == stream[4..12];
      var size;
      ok, size := upstream.ReadU64();
      if !ok {
        return;
      }
      assert stream[4..][8..] == stream[12..];
      blockSize := size;
      state := BlockHeader;
    }

    method ReadHeader() returns (ok: bool)
      requires Valid() && state.BlockHeader? && upstream.unread != []
      modifies this, upstream`unread
      ensures Valid() && delivered == old(delivered)
      ensures ok ==> state.BlockData? && Future() == old(Future()) && |upstream.unread| < old(|upstream.unread|)
      ensures !ok ==> state.BlockHeader? && old(Future()) == Outcome([], false)
    {
      ghost var stream := upstream.unread;
      ghost var eof := upstream.eof;
      var size;
      ok, size := upstream.ReadU64();
      if !ok {
        return;
      }
      uncompressedSize := size;
      ok, size := upstream.ReadU64();
      if !ok {
        return;
      }
      compressedSize := size;
      assert stream[8..][..8] == stream[8..16] && stream[8..][8..] == stream[16..];
      if blockSize != 0 && uncompressedSize > blockSize {
        return false;
      }
      assert DecodeBlocks(stream, blockSize, eof) == DecodeData(stream[16..], compressedSize, blockSize, eof);
      remaining := compressedSize;
      accepted := accepted + compressedSize;
      state := BlockData;
    }

    method ReadData() returns (r: ReadResult)
      requires Valid() && state.BlockData? && remaining > 0
      modifies this, upstream`unread
      ensures Valid() && state.BlockData?
      ensures r.Bytes? ==>
        && r.data != []
        && old(Future()) == Outcome(r.data + Future().output, Future().ok)
        && delivered == old(delivered) + |r.data|
        && |upstream.unread| < old(|upstream.unread|)
      ensures !r.Bytes? ==> r.Fatal? && old(Future()) == Outcome([], false) && delivered == old(delivered)
    {
      var b, avail := upstream.Ahead();
      if b == [] {
        return Fatal;
      }
      var n := avail;
      if n > remaining {
        n := remaining;
      }
      ghost var stream, before := upstream.unread, remaining;
      DataStep(stream, before, n, blockSize, upstream.eof);
      var data := b[..n];
      assert data == stream[..n];
      upstream.Consume(n);
      remaining := remaining - n;
      delivered := delivered + n;
      assert Future() == DecodeData(stream[n..], before - n, blockSize, upstream.eof);
      return Bytes(data);
    }

    /**
     One call of the filter's read. Whatever pieces upstream hands out, the bytes
     returned now followed by everything read later are what was to come before.
     */
    method Read() returns (r: ReadResult)
      requires Valid()
      modifies this, upstream`unread
      ensures Valid()
      ensures match r
        case Bytes(data) =>
          && data != []
          && old(Future()) == Outcome(data + Future().output, Future().ok)
          && delivered == old(delivered) + |data|
          && |upstream.unread| < old(|upstream.unread|)
        case End => old(Future()) == Outcome([], true) && state.Done? && delivered == old(delivered)
        case Fatal => old(Future()) == Outcome([], false) && delivered == old(delivered)
      ensures r.End? <==> state.Done?
    {
      while true
        invariant Valid() && Future() == old(Future()) && delivered == old(delivered)
        invariant |upstream.unread| <= old(|upstream.unread|)
        invariant state.Done? ==> old(state).Done?
        decreases |upstream.unread|, if state.BlockData? then 1 else 0
      {
        match state {
          case Signature =>
            var ok := ReadSignature();
            if !ok {
              return Fatal;
            }
          case BlockHeader =>
            var b, avail := upstream.Ahead();
            if b == [] {
              if avail < 0 {
                return Fatal;
              }
              state := Done;
              return End;
            }
            var ok := ReadHeader();
            if !ok {
              return Fatal;
            }
          case BlockData =>
            if remaining == 0 {
              assert upstream.unread[0..] == upstream.unread;
              state := BlockHeader;
            } else {
              r := ReadData();
              return;
            }
          case Done =>
            return End;
        }
      }
    }

    /** Calls Read until it stops returning bytes, as a consumer of the filter does. */
    method ReadToEnd() returns (output: seq<Byte>, ok: bool)
      requires Valid()
      modifies this, upstream`unread
      ensures Outcome(output, ok) == old(Future())
      ensures Valid() && delivered == old(delivered) + |output|
      ensures ok <==> state.Done?
    {
      output := [];
      while true
        invariant Valid()
        invariant old(Future()) == Outcome(output + Future().output, Future().ok)
        invariant delivered == old(delivered) + |output|
        decreases |upstream.unread|
      {
        var r := Read();
        match r {
          case Bytes(data) => output := output + data;
          case End => return output, true;
          case Fatal => return output, false;
        }
      }
    }
  }

  /** Delivering the first n payload bytes leaves the rest of the block, and of the stream, to come. */
  lemma DataStep(bs: seq<Byte>, remaining: nat, n: nat, blockSize: nat, eof: bool)
    requires n <= |bs| && n <= remaining
    ensures var later := DecodeData(bs[n..], remaining - n, blockSize, eof);
      DecodeData(bs, remaining, blockSize, eof) == Outcome(bs[..n] + later.output, later.ok)
  {
    if |bs| >= remaining {
      assert bs[n..][remaining - n..] == bs[remaining..];
    }
  }

  /**
   For every byte stream and every way upstream splits it, what the filter delivers
   and how it ends are those of the one-shot parser.
   */
  method FilterStream(bytes: seq<Byte>, eof: bool) returns (output: seq<Byte>, ok: bool)
    ensures Outcome(output, ok) == DecodeStream(bytes, eof)
  {
    var upstream := new Upstream(bytes, eof);
    var filter := new PbzxFilter(upstream);
    output, ok := filter.ReadToEnd();
  }
}
