/** Buffers on a byte stream: four bytes of length, then the content. Client and server share this code. */
module Framing {
  import opened Bytes
  import opened Options
  import opened Seqs

  const MAX_FRAME := 0x1_0000_0000

  /** `sendBuffer`: the size is cast to `uint32_t`, the content is sent as it is. */
  function Frame(buffer: seq<byte>): seq<byte> {
    LittleEndian(|buffer|, 4) + buffer
  }

  function Frames(buffers: seq<seq<byte>>): seq<byte> {
    if buffers == [] then [] else Frame(buffers[0]) + Frames(buffers[1..])
  }

  /** `readBuffer` on what has arrived: the buffer and what follows it, if it has arrived completely. */
  function ReadFrame(stream: seq<byte>): (r: Option<(seq<byte>, seq<byte>)>)
    ensures r.Some? ==> |r.value.1| < |stream|
  {
    if |stream| < 4 then None
    else
      var size, rest := ValueOf(stream[..4]), stream[4..];
      if |rest| < size then None else Some((rest[..size], rest[size..]))
  }

  /** Reading `count` buffers: those that arrived completely, what follows them, and whether all of them did; a stream
      that ends too early is used up. */
  function ReadFrames(stream: seq<byte>, count: nat): (seq<seq<byte>>, seq<byte>, bool) {
    if count == 0 then ([], stream, true)
    else
      match ReadFrame(stream)
      case None => ([], [], false)
      case Some((buffer, rest)) =>
        var more := ReadFrames(rest, count - 1);
        ([buffer] + more.0, more.1, more.2)
  }

  /** A buffer is read back as it was sent, whatever follows it, if and only if its size fits the length field. */
  lemma FrameRoundTrip(buffer: seq<byte>, rest: seq<byte>)
    ensures ReadFrame(Frame(buffer) + rest) == Some((buffer, rest)) <==> |buffer| < MAX_FRAME
  {
    var size := LittleEndian(|buffer|, 4);
    Assoc(size, buffer, rest);
    Split(size, buffer + rest);
    ValueOfLittleEndian(|buffer|, 4);
    Widths();
    if |buffer| < MAX_FRAME {
      Split(buffer, rest);
    }
  }

  /** Any buffers sent one after the other, empty ones included, are read back as they were, nothing left over. */
  lemma {:induction false} FramesRoundTrip(buffers: seq<seq<byte>>, rest: seq<byte>)
    requires forall i :: 0 <= i < |buffers| ==> |buffers[i]| < MAX_FRAME
    ensures ReadFrames(Frames(buffers) + rest, |buffers|) == (buffers, rest, true)
    decreases |buffers|
  {
    if buffers == [] {
      assert [] + rest == rest;
    } else {
      Assoc(Frame(buffers[0]), Frames(buffers[1..]), rest);
      FrameRoundTrip(buffers[0], Frames(buffers[1..]) + rest);
      FramesRoundTrip(buffers[1..], rest);
      Uncons(buffers);
    }
  }

  /** Reading more buffers than were sent gives those there are, and fails. */
  lemma {:induction false} ReadAllFrames(buffers: seq<seq<byte>>, count: nat)
    requires count > |buffers| && forall i :: 0 <= i < |buffers| ==> |buffers[i]| < MAX_FRAME
    ensures ReadFrames(Frames(buffers), count) == (buffers, [], false)
    decreases |buffers|
  {
    if buffers == [] {
      NothingToRead(count);
    } else {
      var rest := buffers[1..];
      ReadAllFrames(rest, count - 1);
      ReadFirst(buffers[0], Frames(rest), count);
      Uncons(buffers);
    }
  }

  lemma NothingToRead(count: nat)
    requires count > 0
    ensures ReadFrames([], count) == ([], [], false)
  {
  }

  lemma ReadFirst(buffer: seq<byte>, rest: seq<byte>, count: nat)
    requires |buffer| < MAX_FRAME && count > 0
    ensures var more := ReadFrames(rest, count - 1);
            ReadFrames(Frame(buffer) + rest, count) == ([buffer] + more.0, more.1, more.2)
  {
    FrameRoundTrip(buffer, rest);
  }

  lemma {:induction false} FramesAppend(a: seq<seq<byte>>, b: seq<seq<byte>>)
    ensures Frames(a + b) == Frames(a) + Frames(b)
    decreases |a|
  {
    if a == [] {
      assert a + b == b;
    } else {
      assert (a + b)[1..] == a[1..] + b;
      FramesAppend(a[1..], b);
      Assoc(Frame(a[0]), Frames(a[1..]), Frames(b));
    }
  }

  /** One direction of a connection: reliable and in order. */
  class Channel {
    var bytes: seq<byte>

    constructor ()
      ensures bytes == []
    {
      bytes := [];
    }

    method sendInt(width: nat, value: nat)
      requires value < Range(width)
      modifies this
      ensures bytes == old(bytes) + LittleEndian(value, width)
    {
      bytes := bytes + LittleEndian(value, width);
    }

    method sendBuffer(buffer: seq<byte>)
      modifies this
      ensures bytes == old(bytes) + Frame(buffer)
    {
      var size := |buffer| % MAX_FRAME;
      Widths();
      ValueOfLittleEndian(|buffer|, 4);
      WriteBack(LittleEndian(|buffer|, 4));
      sendInt(4, size);
      Assoc(old(bytes), LittleEndian(|buffer|, 4), buffer);
      bytes := bytes + buffer;
    }

    /** Reading fails when the stream ends too early; nothing is left then. */
    method readInt(width: nat) returns (ok: bool, value: nat)
      modifies this
      ensures ok == (|old(bytes)| >= width)
      ensures ok ==> value == ValueOf(old(bytes)[..width]) && bytes == old(bytes)[width..]
      ensures !ok ==> bytes == []
    {
      if |bytes| < width {
        bytes := [];
        return false, 0;
      }
      value := ValueOf(bytes[..width]);
      bytes := bytes[width..];
      ok := true;
    }

    method readBuffer() returns (ok: bool, buffer: seq<byte>)
      modifies this
      ensures ok == ReadFrame(old(bytes)).Some?
      ensures ok ==> (buffer, bytes) == ReadFrame(old(bytes)).value
      ensures !ok ==> bytes == []
    {
      buffer := [];
      var size;
      ok, size := readInt(4);
      if !ok {
        return;
      }
      if |bytes| < size {
        bytes := [];
        return false, [];
      }
      buffer := bytes[..size];
      bytes := bytes[size..];
    }
  }
}
