/**
 * Response bodies as the model sees them: the sequence of non-empty chunks that
 * successive reads of a .NET `Stream` deliver. A read asks for at most `room`
 * bytes; it returns the front of the next chunk (the rest of that chunk is what
 * the following read sees) and returns nothing only once the stream is exhausted.
 */
module Streams {

  type byte = b: int | 0 <= b < 256

  /** What one read can deliver: never empty, because a read of 0 bytes means end of stream. */
  type Chunk = c: seq<byte> | |c| > 0 witness [0]

  type Stream = seq<Chunk>

  /** All the bytes a stream still holds, in order. */
  function Concat(s: Stream): seq<byte> {
    if s == [] then [] else s[0] + Concat(s[1..])
  }

  /** One `stream.Read` into a buffer with `room` free bytes: the bytes it
      returns and the stream left behind. It returns as many bytes as fit, up to
      the end of the current chunk, and zero bytes only at the end of the stream. */
  function ReadChunk(s: Stream, room: nat): (res: (seq<byte>, Stream))
    ensures |res.0| <= room
    ensures room > 0 ==> (|res.0| == 0 <==> s == [])
  {
    if s == [] || room == 0 then ([], s)
    else if |s[0]| <= room then (s[0], s[1..])
    else (s[0][..room], [s[0][room..]] + s[1..])
  }

  /** A read loses nothing: the bytes it returns, followed by what is left,
      are what the stream held. */
  lemma ReadKeepsOrder(s: Stream, room: nat)
    ensures ReadChunk(s, room).0 + Concat(ReadChunk(s, room).1) == Concat(s)
  {
    if s != [] && room > 0 && |s[0]| > room {
      var rest: Stream := [s[0][room..]] + s[1..];
      assert rest[1..] == s[1..];
      assert Concat(rest) == s[0][room..] + Concat(s[1..]);
      assert s[0][..room] + s[0][room..] == s[0];
    }
  }

  /** `stream.Read(buffer, offset, buffer.Length - offset)`: the bytes of one
      read land in the buffer from `offset` on; what lies before `offset` is kept. */
  method Read(s: Stream, buffer: array<byte>, offset: nat) returns (count: nat, rest: Stream)
    requires offset <= buffer.Length
    modifies buffer
    ensures offset + count <= buffer.Length
    ensures buffer[offset..offset + count] == ReadChunk(s, buffer.Length - offset).0
    ensures rest == ReadChunk(s, buffer.Length - offset).1
    ensures buffer[..offset] == old(buffer[..offset])
  {
    var got := ReadChunk(s, buffer.Length - offset).0;
    rest := ReadChunk(s, buffer.Length - offset).1;
    count := |got|;
    ghost var kept := buffer[..offset];
    forall i | 0 <= i < count {
      buffer[offset + i] := got[i];
    }
    assert forall i :: 0 <= i < count ==> buffer[offset..offset + count][i] == got[i];
    assert forall i :: 0 <= i < offset ==> buffer[..offset][i] == kept[i];
  }

  lemma EmptyStream(s: Stream)
    ensures Concat(s) == [] <==> s == []
  {
  }
}
