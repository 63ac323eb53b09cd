/**
 * The binary frame reader of the generated client (`ReadAsDoubleAsync`): the
 * declared Content-Length is validated, then a buffer of exactly that many bytes
 * is filled by repeated readCount. Each 8-byte group of the buffer is one sample
 * (the client reinterprets it as an IEEE-754 double; the model keeps the bytes).
 */
module Frames {
  import opened Wrappers
  import opened Streams
  import Text

  /** The values `int.TryParse` can produce. */
  type Int32 = x: int | -0x8000_0000 <= x < 0x8000_0000

  /** One decoded sample: the eight bytes of a double, in buffer order. */
  type Sample = s: seq<byte> | |s| == 8 witness [0, 0, 0, 0, 0, 0, 0, 0]

  datatype FrameError =
    | LengthUnknown   // "The data length is unknown."
    | LengthInvalid   // "The data length is invalid."
    | NegativeLength  // `new double[length / 8]` with a negative count throws
    | EndedEarly      // "The stream ended early."

  /** A data response: the Content-Length header as parsed to a 32-bit integer
      (None when it is missing or does not parse) and the body stream. */
  datatype Body = Body(contentLength: Option<Int32>, stream: Stream)

  /** Cuts a byte string into its 8-byte samples. */
  function Group(b: seq<byte>): (r: seq<Sample>)
    requires |b| % 8 == 0
    ensures |r| == |b| / 8
  {
    if b == [] then [] else [b[..8]] + Group(b[8..])
  }

  /** Joins samples back into bytes. */
  function Flatten(samples: seq<Sample>): (b: seq<byte>) {
    if samples == [] then [] else samples[0] + Flatten(samples[1..])
  }

  /** Grouping loses nothing: the samples are the buffer, in order. */
  lemma {:induction false} FlattenGroup(b: seq<byte>)
    requires |b| % 8 == 0
    ensures Flatten(Group(b)) == b
    decreases |b|
  {
    if b != [] {
      FlattenGroup(b[8..]);
      assert b[..8] + b[8..] == b;
    }
  }

  /** What the reader yields for a response, stated on the whole body at once. */
  function Decode(body: Body): (r: Result<seq<Sample>, FrameError>)
    ensures r.Ok? ==> body.contentLength == Some(8 * |r.value|)
    ensures body.contentLength.None? ==> r == Err(LengthUnknown)
  {
    match body.contentLength
    case None => Err(LengthUnknown)
    case Some(length) =>
      // C# `%` truncates, but whether `length` is a multiple of 8 does not
      // depend on the sign, so Dafny's `%` gives the same verdict here.
      if length % 8 != 0 then Err(LengthInvalid)
      else if length < 0 then Err(NegativeLength)
      else if |Concat(body.stream)| < length then Err(EndedEarly)
      else Ok(Group(Concat(body.stream)[..length]))
  }

  /** A successful read returns exactly the declared number of bytes, no more and
      no fewer: the declared length is 8 per sample and the samples are the first
      bytes of the body, in order. */
  lemma DecodeExact(body: Body)
    requires Decode(body).Ok?
    ensures body.contentLength == Some(8 * |Decode(body).value|)
    ensures Flatten(Decode(body).value) == Concat(body.stream)[..8 * |Decode(body).value|]
  {
    FlattenGroup(Concat(body.stream)[..body.contentLength.value]);
  }

  /** The fill loop's invariant carried over one read: the bytes in the
      buffer, followed by what the stream still holds, are the whole body. */
  lemma FillStep(s: Stream, room: nat, before: seq<byte>, after: seq<byte>, rest: Stream, bytes: seq<byte>)
    requires before + Concat(s) == bytes
    requires after == before + ReadChunk(s, room).0 && rest == ReadChunk(s, room).1
    ensures after + Concat(rest) == bytes
  {
    ReadKeepsOrder(s, room);
    Text.Associative(before, ReadChunk(s, room).0, Concat(rest));
  }

  /** `ReadAsDoubleAsync`: validate the length, fill a buffer of exactly that
      many bytes by repeated readCount, then hand out its 8-byte groups. `readCount`
      counts the calls to `stream.Read`. */
  method ReadAsDoubles(body: Body) returns (r: Result<seq<Sample>, FrameError>, readCount: nat)
    ensures r == Decode(body)
    ensures body.contentLength == Some(0) ==> readCount == 0
    ensures r.Ok? ==> readCount <= |Flatten(r.value)|
  {
    readCount := 0;
    if body.contentLength.None? {
      return Err(LengthUnknown), readCount;
    }
    var length := body.contentLength.value;
    if length % 8 != 0 {
      return Err(LengthInvalid), readCount;
    }
    if length < 0 {
      return Err(NegativeLength), readCount;
    }
    var buffer := new byte[length];
    var stream := body.stream;
    var filled := 0;
    while filled < length
      invariant 0 <= filled <= length
      invariant buffer[..filled] + Concat(stream) == Concat(body.stream)
      invariant readCount <= filled
      decreases length - filled
    {
      ghost var before := buffer[..filled];
      var count, rest := Read(stream, buffer, filled);
      readCount := readCount + 1;
      if count == 0 {
        return Err(EndedEarly), readCount;
      }
      assert buffer[..filled + count] == before + buffer[filled..filled + count];
      FillStep(stream, length - filled, before, buffer[..filled + count], rest, Concat(body.stream));
      filled := filled + count;
      stream := rest;
    }
    assert buffer[..] == Concat(body.stream)[..length];
    r := Ok(Group(buffer[..]));
    FlattenGroup(buffer[..]);
  }
}
