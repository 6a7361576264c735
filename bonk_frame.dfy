/**
 * The Bonk frame layer of nebula-common/src/net/bonk/message.rs: a frame is
 * a 4-byte big-endian `u32` length followed by that many payload bytes.
 * The reader is a finite byte stream with a read position; the writer
 * appends to an output buffer, and which of its write calls fail is fixed
 * in advance by the caller.
 */
module BonkFrame {
  import opened Wrappers
  import opened BonkMessage

  /** 2^32: one more than the largest `u32`. */
  const U32_LIMIT: nat := 0x1_0000_0000

  /** The size of a frame header, in bytes. */
  const HEADER_LEN: nat := 4

  /** 256^k, the number of values `k` big-endian bytes can hold. */
  function Pow256(k: nat): (p: nat)
    ensures p >= 1
  {
    if k == 0 then 1 else 256 * Pow256(k - 1)
  }

  /** The unsigned value of a big-endian byte sequence, most significant byte first. */
  function FromBigEndian(b: seq<u8>): (n: nat)
    ensures n < Pow256(|b|)
  {
    if b == [] then 0 else FromBigEndian(b[..|b| - 1]) * 256 + b[|b| - 1] as nat
  }

  /** `u32::from_be_bytes`: the header value, first byte most significant. */
  lemma FourByteValue(b: seq<u8>)
    requires |b| == 4
    ensures FromBigEndian(b) == b[0] as nat * 0x100_0000 + b[1] as nat * 0x1_0000 + b[2] as nat * 0x100 + b[3] as nat
    ensures FromBigEndian(b) < U32_LIMIT
  {
    var b1, b2, b3 := b[..1], b[..2], b[..3];
    assert b1[..0] == [] && b2[..1] == b1 && b3[..2] == b2 && b[..3] == b3;
    assert FromBigEndian(b1) == b[0] as nat;
    assert FromBigEndian(b2) == b[0] as nat * 0x100 + b[1] as nat;
    assert FromBigEndian(b3) == b[0] as nat * 0x1_0000 + b[1] as nat * 0x100 + b[2] as nat;
  }

  /** `u32::to_be_bytes`: the 4-byte header for `length`. */
  function U32ToBeBytes(length: nat): (b: seq<u8>)
    requires length < U32_LIMIT
    ensures |b| == HEADER_LEN && FromBigEndian(b) == length
  {
    var q1 := length / 0x100;
    var q2 := q1 / 0x100;
    var q3 := q2 / 0x100;
    var b := [q3 as u8, (q2 % 0x100) as u8, (q1 % 0x100) as u8, (length % 0x100) as u8];
    assert FromBigEndian(b[..1]) == q3 by { assert b[..1][..0] == []; }
    assert FromBigEndian(b[..2]) == q2 by { assert b[..2][..1] == b[..1]; }
    assert FromBigEndian(b[..3]) == q1 by { assert b[..3][..2] == b[..2]; }
    assert b[..4][..3] == b[..3] && b[..4] == b;
    b
  }

  /** Decoding a header and encoding the value again gives the same 4 bytes: distinct headers carry distinct lengths. */
  lemma HeaderOfValue(b: seq<u8>)
    requires |b| == HEADER_LEN
    ensures FromBigEndian(b) < U32_LIMIT
    ensures U32ToBeBytes(FromBigEndian(b)) == b
  {
    FourByteValue(b);
    var n := FromBigEndian(b);
    assert b[..4] == b && b[..4][..3] == b[..3] && b[..3][..2] == b[..2] && b[..2][..1] == b[..1] && b[..1][..0] == [];
    assert n / 0x100 == FromBigEndian(b[..3]);
    assert n / 0x100 / 0x100 == FromBigEndian(b[..2]);
    assert n / 0x100 / 0x100 / 0x100 == FromBigEndian(b[..1]);
  }

  /** The bytes `write_framed` emits for `data`, when both writes complete: the header carries `data.len() as u32`, which wraps modulo 2^32. */
  function EncodeFrame(data: seq<u8>): (frame: seq<u8>)
    ensures |frame| == 4 + |data|
    ensures FromBigEndian(frame[..4]) == |data| % U32_LIMIT
    ensures frame[4..] == data
  {
    U32ToBeBytes(|data| % U32_LIMIT) + data
  }

  /** A successfully read frame: its payload and the number of stream bytes it took. */
  datatype Decoded = Decoded(payload: seq<u8>, consumed: nat)

  /**
   * What `read_framed` makes of the bytes remaining in a stream: the payload
   * of the first frame and the bytes it took, or `MalformedFrame` when the
   * header or the payload is cut short.
   */
  function DecodeFrame(s: seq<u8>): (r: Result<Decoded, BonkError>)
    ensures r.Success? <==> |s| >= 4 && 4 + FromBigEndian(s[..4]) <= |s|
    ensures r.Success? ==>
      r.value.consumed == 4 + FromBigEndian(s[..4]) && r.value.payload == s[4..r.value.consumed]
    ensures r.Failure? ==> r.error == MalformedFrame
  {
    if |s| < 4 then Failure(MalformedFrame)
    else
      var length := FromBigEndian(s[..4]);
      if |s| - 4 < length then Failure(MalformedFrame)
      else Success(Decoded(s[4..4 + length], 4 + length))
  }

  /** Round trip: a frame written for `data` reads back as `data`, taking exactly its own bytes, whatever follows it. */
  lemma FrameRoundTrip(data: seq<u8>, rest: seq<u8>)
    requires |data| < U32_LIMIT
    ensures DecodeFrame(EncodeFrame(data) + rest) == Success(Decoded(data, 4 + |data|))
  {
    var s := EncodeFrame(data) + rest;
    assert s[..4] == EncodeFrame(data)[..4];
    assert s[4..4 + |data|] == data;
  }

  /** A payload of 2^32 bytes or more gets a truncated header, so only its first `|data| mod 2^32` bytes read back. */
  lemma OversizedFrameTruncates(data: seq<u8>)
    requires |data| >= U32_LIMIT
    ensures DecodeFrame(EncodeFrame(data)) == Success(Decoded(data[..|data| % U32_LIMIT], 4 + |data| % U32_LIMIT))
  {
    var s := EncodeFrame(data);
    assert s[4..4 + |data| % U32_LIMIT] == data[..|data| % U32_LIMIT];
  }

  /** Frames written one after another read back one after another. */
  lemma {:induction false} FramesInSequence(first: seq<u8>, second: seq<u8>)
    requires |first| < U32_LIMIT && |second| < U32_LIMIT
    ensures DecodeFrame(EncodeFrame(first) + EncodeFrame(second)) == Success(Decoded(first, 4 + |first|))
    ensures (EncodeFrame(first) + EncodeFrame(second))[4 + |first|..] == EncodeFrame(second)
    ensures DecodeFrame(EncodeFrame(second)) == Success(Decoded(second, 4 + |second|))
  {
    FrameRoundTrip(first, EncodeFrame(second));
    FrameRoundTrip(second, []);
    assert EncodeFrame(second) + [] == EncodeFrame(second);
  }

  /** A readable byte stream: its whole contents and how far it has been read. */
  class Reader {
    const data: seq<u8>
    var pos: nat

    ghost predicate Valid()
      reads this
    {
      pos <= |data|
    }

    /** The bytes not read yet. */
    function Remaining(): (rest: seq<u8>)
      reads this
      requires Valid()
      ensures |rest| == |data| - pos
    {
      data[pos..]
    }

    constructor (bytes: seq<u8>)
      ensures Valid() && data == bytes && pos == 0
    {
      data := bytes;
      pos := 0;
    }

    /**
     * `read_exact`: fills `buf` with the next `buf.Length` bytes. When fewer
     * remain, the stream runs to its end and the call fails; what `buf` then
     * holds is unspecified.
     */
    method ReadExact(buf: array<u8>) returns (ok: bool)
      requires Valid()
      modifies this, buf
      ensures Valid()
      ensures ok <==> buf.Length <= |old(Remaining())|
      ensures ok ==> pos == old(pos) + buf.Length && buf[..] == old(Remaining())[..buf.Length]
      ensures !ok ==> pos == |data|
    {
      if |data| - pos < buf.Length {
        pos := |data|;
        return false;
      }
      forall i | 0 <= i < buf.Length {
        buf[i] := data[pos + i];
      }
      pos := pos + buf.Length;
      return true;
    }
  }

  /**
   * A writable byte stream. Each `write` or `write_all` call either fails
   * or succeeds; `failing` holds the ordinals (counted from 0) of the calls
   * that fail. A failing `write` writes nothing.
   */
  class Writer {
    var written: seq<u8>
    var attempts: nat
    const failing: set<nat>

    constructor (failures: set<nat>)
      ensures written == [] && attempts == 0 && failing == failures
    {
      written := [];
      attempts := 0;
      failing := failures;
    }

    /**
     * `write`: a successful call may accept only a prefix of `buf`; the
     * stream decides how much (`accepted`, capped at `|buf|`), and the call
     * returns that count.
     */
    method Write(buf: seq<u8>, accepted: nat) returns (res: Result<nat, ()>)
      modifies this
      ensures attempts == old(attempts) + 1
      ensures res.Success? <==> old(attempts) !in failing
      ensures res.Success? ==> res.value == |SentPrefix(buf, accepted)| <= |buf|
      ensures res.Success? ==> written == old(written) + SentPrefix(buf, accepted)
      ensures res.Failure? ==> written == old(written)
    {
      if attempts in failing {
        attempts := attempts + 1;
        return Failure(());
      }
      var count := if accepted < |buf| then accepted else |buf|;
      written := written + buf[..count];
      attempts := attempts + 1;
      return Success(count);
    }

    /**
     * `write_all`: calls `write` until the whole of `buf` is out. When one of
     * those writes fails, the call fails after the bytes the earlier writes
     * took (`sentBeforeError` of them, capped below `|buf|`); with nothing to
     * write it makes no write at all and cannot fail.
     */
    method WriteAll(buf: seq<u8>, sentBeforeError: nat) returns (ok: bool)
      modifies this
      ensures attempts == old(attempts) + 1
      ensures ok <==> old(attempts) !in failing || buf == []
      ensures ok ==> written == old(written) + buf
      ensures !ok ==> written == old(written) + UnfinishedPrefix(buf, sentBeforeError)
    {
      ok := attempts !in failing || buf == [];
      if ok {
        written := written + buf;
      } else {
        written := written + UnfinishedPrefix(buf, sentBeforeError);
      }
      attempts := attempts + 1;
    }
  }

  /** The bytes of a non-empty `buf` that reach the stream before a `write_all` fails: a proper prefix, `k` bytes long when `k` is short enough. */
  function UnfinishedPrefix(buf: seq<u8>, k: nat): (sent: seq<u8>)
    requires buf != []
    ensures |sent| < |buf| && sent == buf[..|sent|]
    ensures k < |buf| ==> |sent| == k
  {
    if k < |buf| then buf[..k] else buf[..|buf| - 1]
  }

  /**
   * `read_framed`: reads the 4-byte header, decodes it big-endian, then reads
   * exactly that many bytes. Either short read is `MalformedFrame`. The
   * declared length is not bounded.
   */
  method ReadFramed(reader: Reader) returns (res: Result<seq<u8>, BonkError>)
    requires reader.Valid()
    modifies reader
    ensures reader.Valid()
    ensures match DecodeFrame(old(reader.Remaining()))
      case Success(d) => res == Success(d.payload) && reader.pos == old(reader.pos) + d.consumed
      case Failure(e) => res == Failure(MalformedFrame) && reader.pos == |reader.data|
  {
    ghost var input := reader.Remaining();
    var lengthBytes := new u8[4];
    var ok := reader.ReadExact(lengthBytes);
    if !ok {
      return Failure(MalformedFrame);
    }
    assert lengthBytes[..] == input[..4];
    var length := FromBigEndian(lengthBytes[..]);
    var data := new u8[length];
    ok := reader.ReadExact(data);
    if !ok {
      return Failure(MalformedFrame);
    }
    assert data[..] == input[4..4 + length];
    return Success(data[..]);
  }

  /**
   * `write_framed` with whole writes: writes the 4-byte big-endian header of
   * `data.len() as u32` and then the payload, each with `write_all`. A failed
   * header write returns `WriterFailure` without attempting the payload,
   * possibly after part of the header is out; a failed payload write returns
   * `WriterFailure` after the header and possibly part of the payload.
   */
  method WriteFramed(writer: Writer, data: seq<u8>, headerSentBeforeError: nat, payloadSentBeforeError: nat)
    returns (res: Result<(), BonkError>)
    modifies writer
    ensures old(writer.attempts) in writer.failing ==>
      && res == Failure(WriterFailure) && writer.attempts == old(writer.attempts) + 1
      && writer.written == old(writer.written) + UnfinishedPrefix(EncodeFrame(data)[..HEADER_LEN], headerSentBeforeError)
    ensures old(writer.attempts) !in writer.failing && old(writer.attempts) + 1 in writer.failing && data != [] ==>
      && res == Failure(WriterFailure) && writer.attempts == old(writer.attempts) + 2
      && writer.written == old(writer.written) + EncodeFrame(data)[..HEADER_LEN] + UnfinishedPrefix(data, payloadSentBeforeError)
    ensures old(writer.attempts) !in writer.failing && (old(writer.attempts) + 1 !in writer.failing || data == []) ==>
      && res == Success(()) && writer.attempts == old(writer.attempts) + 2
      && writer.written == old(writer.written) + EncodeFrame(data)
  {
    var length := |data| % U32_LIMIT;
    var lengthBytes := U32ToBeBytes(length);
    ghost var before := writer.written;
    ghost var frame := EncodeFrame(data);
    assert frame == lengthBytes + data;
    assert frame[..4] == lengthBytes;
    var ok := writer.WriteAll(lengthBytes, headerSentBeforeError);
    if !ok {
      return Failure(WriterFailure);
    }
    ok := writer.WriteAll(data, payloadSentBeforeError);
    if !ok {
      return Failure(WriterFailure);
    }
    assert writer.written == before + lengthBytes + data == before + frame;
    return Success(());
  }

  /**
   * `write_framed` as the code has it: two `write` calls whose returned
   * counts are ignored, so a call that accepts only part of its bytes still
   * ends in `Ok(())`. The stream accepts `headerAccepted` bytes of the
   * header and `payloadAccepted` bytes of the payload.
   */
  method WriteFramedAsWritten(writer: Writer, data: seq<u8>, headerAccepted: nat, payloadAccepted: nat)
    returns (res: Result<(), BonkError>)
    modifies writer
    ensures old(writer.attempts) in writer.failing ==>
      && res == Failure(WriterFailure) && writer.attempts == old(writer.attempts) + 1
      && writer.written == old(writer.written)
    ensures old(writer.attempts) !in writer.failing && old(writer.attempts) + 1 in writer.failing ==>
      && res == Failure(WriterFailure) && writer.attempts == old(writer.attempts) + 2
      && writer.written == old(writer.written) + SentPrefix(EncodeFrame(data)[..HEADER_LEN], headerAccepted)
    ensures old(writer.attempts) !in writer.failing && old(writer.attempts) + 1 !in writer.failing ==>
      && res == Success(()) && writer.attempts == old(writer.attempts) + 2
      && writer.written == old(writer.written) + SentPrefix(EncodeFrame(data)[..HEADER_LEN], headerAccepted)
                                               + SentPrefix(data, payloadAccepted)
  {
    var lengthBytes := U32ToBeBytes(|data| % U32_LIMIT);
    assert lengthBytes == EncodeFrame(data)[..HEADER_LEN];
    var sent := writer.Write(lengthBytes, headerAccepted);
    if sent.Failure? {
      return Failure(WriterFailure);
    }
    var sentData := writer.Write(data, payloadAccepted);
    if sentData.Failure? {
      return Failure(WriterFailure);
    }
    return Success(());
  }

  /** The part of `buf` a `write` call that accepts `accepted` bytes puts on the stream. */
  function SentPrefix(buf: seq<u8>, accepted: nat): (sent: seq<u8>)
    ensures |sent| <= |buf| && sent == buf[..|sent|]
    ensures |sent| == |buf| <==> accepted >= |buf|
  {
    if accepted < |buf| then buf[..accepted] else buf
  }

  /**
   * When either `write` accepts less than it was given, what reaches the peer
   * is not the frame, although `write_framed` reported success: reading it
   * back never yields the payload.
   */
  lemma ShortWriteBreaksFrame(data: seq<u8>, headerAccepted: nat, payloadAccepted: nat)
    requires |data| < U32_LIMIT
    requires headerAccepted < HEADER_LEN || payloadAccepted < |data|
    ensures var sent := SentPrefix(EncodeFrame(data)[..HEADER_LEN], headerAccepted) + SentPrefix(data, payloadAccepted);
      && |sent| < |EncodeFrame(data)|
      && DecodeFrame(sent) != Success(Decoded(data, HEADER_LEN + |data|))
  {
  }

  /**
   * A concrete case: the payload `[7]` with only two header bytes accepted
   * leaves `[0, 0, 7]` on the stream, which does not read back as a frame,
   * and a second frame written after it is misread as a frame of 1792 bytes.
   */
  lemma ShortHeaderWriteExample()
    ensures SentPrefix(EncodeFrame([7])[..HEADER_LEN], 2) + SentPrefix([7], 1) == [0, 0, 7]
    ensures DecodeFrame([0, 0, 7]) == Failure(MalformedFrame)
    ensures FromBigEndian(([0, 0, 7] + EncodeFrame([9]))[..HEADER_LEN]) == 1792
  {
    var header := EncodeFrame([7])[..HEADER_LEN];
    assert header == U32ToBeBytes(1);
    FourByteValue(header);
    HeaderOfValue([0, 0, 0, 1]);
    assert header == [0, 0, 0, 1];
    var next := ([0, 0, 7] + EncodeFrame([9]))[..HEADER_LEN];
    assert next == [0, 0, 7, 0] by {
      HeaderOfValue([0, 0, 0, 1]);
      assert EncodeFrame([9])[..HEADER_LEN] == U32ToBeBytes(1);
    }
    FourByteValue(next);
  }

  /**
   * A payload written to a writer whose calls all succeed, and read back from
   * a stream holding that output followed by other bytes, is returned intact,
   * and the other bytes are left for the next read.
   */
  method WriteThenRead(payload: seq<u8>, trailing: seq<u8>) returns (echoed: Result<seq<u8>, BonkError>, left: seq<u8>)
    requires |payload| < U32_LIMIT
    ensures echoed == Success(payload)
    ensures left == trailing
  {
    var writer := new Writer({});
    var written := WriteFramed(writer, payload, 0, 0);
    assert writer.written == EncodeFrame(payload);
    var reader := new Reader(writer.written + trailing);
    FrameRoundTrip(payload, trailing);
    assert reader.Remaining() == EncodeFrame(payload) + trailing;
    echoed := ReadFramed(reader);
    left := reader.Remaining();
    assert left == (EncodeFrame(payload) + trailing)[4 + |payload|..];
  }
}
