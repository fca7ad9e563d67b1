/** Chunked file transfer. Sender and receiver compute the length of the last chunk differently; both directions
    still copy exactly. */
module Transfers {
  import opened Bytes
  import opened Framing
  import opened Seqs

  // ---------------------------------------------------------------- chunks

  /** The number of frames of a transfer. */
  function Count(size: nat, chunk: nat): nat
    requires chunk > 0
  {
    size / chunk + 1
  }

  /** The frames of an upload: full chunks and then what is left, which may be nothing. */
  function UploadFrames(content: seq<byte>, chunk: nat): (r: seq<seq<byte>>)
    requires chunk > 0
    ensures r != []
    decreases |content|
  {
    if |content| < chunk then [content] else [content[..chunk]] + UploadFrames(content[chunk..], chunk)
  }

  /** The frames of a download: the server's last read may get nothing, and then its buffer, still full and holding
      the previous chunk, is sent again. `buffer` is what it holds before. */
  function DownloadFrames(content: seq<byte>, chunk: nat, buffer: seq<byte>): (r: seq<seq<byte>>)
    requires chunk > 0
    ensures r != []
    decreases |content|
  {
    if content == [] then [buffer]
    else if |content| < chunk then [content]
    else [content[..chunk]] + DownloadFrames(content[chunk..], chunk, content[..chunk])
  }

  /** What the client may write of each frame it downloads, and that it never asks for more than the frame has. */
  predicate Writable(frames: seq<seq<byte>>, chunk: nat, last: nat) {
    frames != [] ==>
      && |frames[0]| >= (if |frames| == 1 then last else chunk)
      && Writable(frames[1..], chunk, last)
  }

  /** The bytes the client writes: `chunk` of each frame, `last` of the last one. */
  function Written(frames: seq<seq<byte>>, chunk: nat, last: nat): seq<byte>
    requires Writable(frames, chunk, last)
  {
    if frames == [] then []
    else frames[0][..if |frames| == 1 then last else chunk] + Written(frames[1..], chunk, last)
  }

  /** One frame of a download taken: what was written of it and what will be written of the others make the same file. */
  lemma TakeFrame(frames: seq<seq<byte>>, chunk: nat, last: nat, copy: seq<byte>)
    requires frames != [] && Writable(frames, chunk, last)
    ensures var n := if |frames| == 1 then last else chunk;
            && n <= |frames[0]| && Writable(frames[1..], chunk, last)
            && copy + Written(frames, chunk, last) == (copy + frames[0][..n]) + Written(frames[1..], chunk, last)
            && (|frames| == 1 ==> copy + Written(frames, chunk, last) == copy + frames[0][..n])
  {
    var n := if |frames| == 1 then last else chunk;
    Assoc(copy, frames[0][..n], Written(frames[1..], chunk, last));
    if |frames| == 1 {
      Unit(frames[0][..n]);
    }
  }

  /** One chunk less. */
  lemma ChunkStep(size: nat, chunk: nat)
    requires chunk > 0
    ensures size < chunk ==> Count(size, chunk) == 1 && size % chunk == size
    ensures size >= chunk ==> Count(size, chunk) == Count(size - chunk, chunk) + 1 && size % chunk == (size - chunk) % chunk
  {
    if size < chunk {
      DivSmall(size, chunk);
    } else {
      DivDown(size, chunk);
    }
  }

  /** An upload sends the announced number of frames, none longer than a chunk, and they are the content. */
  lemma {:induction false} UploadExact(content: seq<byte>, chunk: nat)
    requires chunk > 0
    ensures var frames := UploadFrames(content, chunk);
            && |frames| == Count(|content|, chunk)
            && Concat(frames) == content
            && forall i :: 0 <= i < |frames| ==> |frames[i]| <= chunk
    decreases |content|
  {
    ChunkStep(|content|, chunk);
    if |content| < chunk {
      assert [content][1..] == [];
      assert content + [] == content;
    } else {
      UploadExact(content[chunk..], chunk);
      Halves(content, chunk);
    }
  }

  /** A download sends the announced number of frames, none longer than a chunk, every write of the client stays
      inside its frame, and what it writes is the content. */
  lemma {:induction false} DownloadExact(content: seq<byte>, chunk: nat, buffer: seq<byte>)
    requires 0 < chunk && |buffer| == chunk
    ensures var frames := DownloadFrames(content, chunk, buffer); var last := |content| % chunk;
            && |frames| == Count(|content|, chunk)
            && (forall i :: 0 <= i < |frames| ==> |frames[i]| <= chunk)
            && Writable(frames, chunk, last)
            && Written(frames, chunk, last) == content
    decreases |content|
  {
    ChunkStep(|content|, chunk);
    var frames := DownloadFrames(content, chunk, buffer);
    if |content| < chunk {
      assert frames[1..] == [];
      assert frames[0][..|content|] == content;
      assert content + [] == content;
    } else {
      var more := DownloadFrames(content[chunk..], chunk, content[..chunk]);
      assert frames[1..] == more;
      DownloadExact(content[chunk..], chunk, content[..chunk]);
      Halves(content, chunk);
      assert content[..chunk][..chunk] == content[..chunk];
    }
  }

  lemma NextChunk(i: nat, chunk: nat)
    requires i > 0
    ensures i * chunk == chunk + (i - 1) * chunk
  {
  }

  /** Frame number `i` of an upload is the `i`-th chunk of the content; the last is what is left, which may be nothing. */
  lemma {:induction false} UploadFrame(content: seq<byte>, chunk: nat, i: nat)
    requires chunk > 0 && i < |UploadFrames(content, chunk)|
    ensures var frames := UploadFrames(content, chunk); var at := i * chunk;
            if i + 1 < |frames| then at + chunk <= |content| && frames[i] == content[at..at + chunk]
            else at <= |content| < at + chunk && frames[i] == content[at..]
    decreases |content|
  {
    if i > 0 {
      NextChunk(i, chunk);
      UploadFrame(content[chunk..], chunk, i - 1);
      ChunkBehind(content, chunk, (i - 1) * chunk);
    } else if |content| >= chunk {
      assert content[..chunk] == content[0..chunk];
    } else {
      assert content[0..] == content;
    }
  }

  lemma ChunkBehind(content: seq<byte>, chunk: nat, at: nat)
    requires chunk + at <= |content|
    ensures content[chunk..][at..] == content[chunk + at..]
    ensures at + chunk + chunk <= |content| ==> content[chunk..][at..at + chunk] == content[chunk + at..chunk + at + chunk]
  {
  }

  /** The frames of a download are those of an upload; but where the last of these is empty, the server sends again
      what its buffer still holds: the frame before, or what the buffer held at first. */
  lemma {:induction false} DownloadFrame(content: seq<byte>, chunk: nat, buffer: seq<byte>)
    requires chunk > 0
    ensures var sent, chunks := DownloadFrames(content, chunk, buffer), UploadFrames(content, chunk); var last := |chunks| - 1;
            && |sent| == |chunks|
            && (forall i :: 0 <= i < last ==> sent[i] == chunks[i])
            && sent[last] == if chunks[last] != [] then chunks[last] else if last == 0 then buffer else chunks[last - 1]
    decreases |content|
  {
    if |content| >= chunk {
      DownloadFrame(content[chunk..], chunk, content[..chunk]);
    }
  }

  // ---------------------------------------------------------------- files and streams

  /** A file that is read from the front. */
  class InputFile {
    const content: seq<byte>
    var position: nat

    constructor (content: seq<byte>)
      ensures this.content == content && position == 0
    {
      this.content := content;
      position := 0;
    }

    ghost predicate Valid()
      reads this
    {
      position <= |content|
    }

    /** What is still to be read. */
    function Ahead(): seq<byte>
      requires Valid()
      reads this
    {
      content[position..]
    }

    /** `read`: as many bytes as there are, up to the size of the buffer; the rest of the buffer stays. */
    method read(buffer: seq<byte>) returns (filled: seq<byte>)
      requires Valid()
      modifies this
      ensures Valid()
      ensures filled == Filled(old(Ahead()), buffer) && Ahead() == Dropped(old(Ahead()), |buffer|)
    {
      var n := if |buffer| <= |content| - position then |buffer| else |content| - position;
      filled := content[position..position + n] + buffer[n..];
      assert content[position..position + n] == Ahead()[..n];
      position := position + n;
    }
  }

  class OutputFile {
    var content: seq<byte>

    constructor ()
      ensures content == []
    {
      content := [];
    }

    method write(bytes: seq<byte>)
      modifies this
      ensures content == old(content) + bytes
    {
      content := content + bytes;
    }
  }

  // ---------------------------------------------------------------- download, server side

  /** A buffer after reading into it: the bytes there are, and where they end too early what it held. */
  function Filled(ahead: seq<byte>, buffer: seq<byte>): (r: seq<byte>)
    ensures |r| == |buffer|
  {
    if |buffer| <= |ahead| then ahead[..|buffer|] else ahead + buffer[|ahead|..]
  }

  function Dropped(ahead: seq<byte>, n: nat): seq<byte> {
    if n <= |ahead| then ahead[n..] else []
  }

  /** The buffer of the next turn: cut down for a last chunk that is not full. */
  function Resized(held: seq<byte>, left: nat, last: nat): seq<byte> {
    if left == 1 && 0 < last <= |held| then held[..last] else held
  }

  /** The frames the server sends of any file, `left` of them, with `held` in its buffer. */
  function Reads(ahead: seq<byte>, left: nat, last: nat, held: seq<byte>): seq<seq<byte>>
    decreases left
  {
    if left == 0 then []
    else
      var buffer := Filled(ahead, Resized(held, left, last));
      [buffer] + Reads(Dropped(ahead, |buffer|), left - 1, last, buffer)
  }

  /** Of a file as long as announced these are the frames of the download. */
  lemma {:induction false} ReadsExact(content: seq<byte>, chunk: nat, held: seq<byte>)
    requires 0 < chunk == |held|
    ensures Reads(content, Count(|content|, chunk), |content| % chunk, held) == DownloadFrames(content, chunk, held)
    decreases |content|
  {
    ChunkStep(|content|, chunk);
    if |content| < chunk {
      LastRead(content, held);
    } else {
      assert Reads(content, Count(|content|, chunk), |content| % chunk, held) ==
             [content[..chunk]] + Reads(content[chunk..], Count(|content| - chunk, chunk), |content| % chunk, content[..chunk]);
      ReadsExact(content[chunk..], chunk, content[..chunk]);
    }
  }

  /** The last frame: the rest, or what the buffer holds when there is none. */
  lemma LastRead(content: seq<byte>, held: seq<byte>)
    requires |content| < |held|
    ensures Reads(content, 1, |content|, held) == [if content == [] then held else content]
  {
    FilledLast(content, held);
    ReadsOne(content, |content|, held);
  }

  lemma FilledLast(content: seq<byte>, held: seq<byte>)
    requires |content| < |held|
    ensures Filled(content, Resized(held, 1, |content|)) == if content == [] then held else content
  {
    if content == [] {
      assert held[0..] == held;
      Unit(held);
    } else {
      assert |held[..|content|]| == |content| && content[..|content|] == content;
    }
  }

  lemma ReadsOne(ahead: seq<byte>, last: nat, held: seq<byte>)
    ensures Reads(ahead, 1, last, held) == [Filled(ahead, Resized(held, 1, last))]
  {
    Unit([Filled(ahead, Resized(held, 1, last))]);
  }

  /** What is sent in one turn, and what is sent after it. */
  lemma ReadsStep(sent: seq<byte>, ahead: seq<byte>, left: nat, last: nat, held: seq<byte>)
    requires left > 0
    ensures var buffer := Filled(ahead, Resized(held, left, last));
            sent + Frames(Reads(ahead, left, last, held)) ==
            (sent + Frame(buffer)) + Frames(Reads(Dropped(ahead, |buffer|), left - 1, last, buffer))
  {
    var buffer := Filled(ahead, Resized(held, left, last));
    var more := Reads(Dropped(ahead, |buffer|), left - 1, last, buffer);
    Tail(buffer, more);
    Assoc(sent, Frame(buffer), Frames(more));
  }

  /** One turn of the loop below: the vector is cut down for a last chunk that is not full, read into, and sent. */
  method SendChunk(file: InputFile, left: nat, last: nat, held: seq<byte>, socket: Channel, ghost goal: seq<byte>)
    returns (buffer: seq<byte>)
    requires file.Valid() && last <= |held| && left > 0
    requires goal == socket.bytes + Frames(Reads(file.Ahead(), left, last, held))
    modifies file, socket
    ensures file.Valid() && (left > 1 ==> |buffer| == |held|)
    ensures goal == socket.bytes + Frames(Reads(file.Ahead(), left - 1, last, buffer))
  {
    ReadsStep(socket.bytes, file.Ahead(), left, last, held);
    buffer := held;
    if left == 1 && last != 0 {
      buffer := buffer[..last];
    }
    buffer := file.read(buffer);
    socket.sendBuffer(buffer);
  }

  /** `IOGetFileContentRH::transmitData` of the server, on a file of any length. */
  method TransmitDownload(file: InputFile, fileSize: nat, bufferSize: nat, socket: Channel)
    requires 0 < bufferSize && file.Valid()
    modifies file, socket
    ensures file.Valid()
    ensures socket.bytes == old(socket.bytes) +
              Frames(Reads(old(file.Ahead()), Count(fileSize, bufferSize), fileSize % bufferSize, Zeros(bufferSize)))
  {
    var bufferCount, last := Divide(fileSize, bufferSize);
    SendChunks(file, bufferCount, last, bufferSize, socket);
  }

  /** The number of frames, and the length of the last chunk if it is not full. */
  method Divide(fileSize: nat, bufferSize: nat) returns (bufferCount: nat, last: nat)
    requires bufferSize > 0
    ensures bufferCount == Count(fileSize, bufferSize) && last == fileSize % bufferSize < bufferSize
  {
    bufferCount := fileSize / bufferSize + 1;
    last := fileSize % bufferSize;
  }

  /** The loop, with the number of frames and the length of the last chunk. */
  method SendChunks(file: InputFile, bufferCount: nat, last: nat, bufferSize: nat, socket: Channel)
    requires last < bufferSize && file.Valid()
    modifies file, socket
    ensures file.Valid()
    ensures socket.bytes == old(socket.bytes) + Frames(Reads(old(file.Ahead()), bufferCount, last, Zeros(bufferSize)))
  {
    var buffer := Zeros(bufferSize);
    ghost var goal := socket.bytes + Frames(Reads(file.Ahead(), bufferCount, last, buffer));
    var i, left := 0, bufferCount;
    while i < bufferCount
      invariant i <= bufferCount && left == bufferCount - i && file.Valid() && (left > 0 ==> |buffer| == bufferSize)
      invariant goal == socket.bytes + Frames(Reads(file.Ahead(), left, last, buffer))
      decreases bufferCount - i
    {
      buffer := SendChunk(file, left, last, buffer, socket, goal);
      i, left := i + 1, left - 1;
    }
    assert Reads(file.Ahead(), 0, last, buffer) == [];
    Unit(socket.bytes);
  }

  // ---------------------------------------------------------------- download, client side

  /** `IOGetFileContentRH` of the client, after its request was accepted. */
  class Downloader {
    const size: nat
    const buffer_count: nat
    const buffer_size: nat
    const stream: OutputFile
    const socket: Channel
    var curr_idx: nat
    /** More was to be written of a frame than it has: the original reads past the end of its buffer. */
    var overrun: bool

    constructor (size: nat, bufferCount: nat, bufferSize: nat, stream: OutputFile, socket: Channel)
      ensures this.size == size && buffer_count == bufferCount && buffer_size == bufferSize
      ensures this.stream == stream && this.socket == socket && curr_idx == 0 && !overrun
    {
      this.size := size;
      buffer_count := bufferCount;
      buffer_size := bufferSize;
      this.stream := stream;
      this.socket := socket;
      curr_idx := 0;
      overrun := false;
    }

    predicate isAvailable()
      reads this
    {
      curr_idx < buffer_count
    }

    /** One frame off the socket, and the part of it that belongs to the file is written, if the frame has it. */
    method downloadNextBuffer() returns (ok: bool)
      requires buffer_size > 0 && !overrun
      modifies this, stream, socket
      ensures !old(isAvailable()) ==>
                !ok && !overrun && curr_idx == old(curr_idx) && socket.bytes == old(socket.bytes) && stream.content == old(stream.content)
      ensures old(isAvailable()) && ReadFrame(old(socket.bytes)).None? ==>
                !ok && !overrun && curr_idx == old(curr_idx) && socket.bytes == [] && stream.content == old(stream.content)
      ensures old(isAvailable()) && ReadFrame(old(socket.bytes)).Some? ==>
                var (frame, rest) := ReadFrame(old(socket.bytes)).value;
                var n := if old(curr_idx) == buffer_count - 1 then size % buffer_size else buffer_size;
                && socket.bytes == rest && overrun == (|frame| < n) && ok == !overrun
                && if ok then curr_idx == old(curr_idx) + 1 && stream.content == old(stream.content) + frame[..n]
                   else curr_idx == old(curr_idx) && stream.content == old(stream.content)
    {
      if !isAvailable() {
        return false;
      }
      var currBufferSize := buffer_size;
      if curr_idx == buffer_count - 1 {
        currBufferSize := size % buffer_size;
      }
      var buffer;
      ok, buffer := socket.readBuffer();
      if !ok {
        return;
      }
      if |buffer| < currBufferSize {
        overrun := true;
        return false;
      }
      stream.write(buffer[..currBufferSize]);
      curr_idx := curr_idx + 1;
    }

    /** The loop of `FileDownloader::downloadFile`, on whatever arrives: as many frames as were announced are taken, and
        it stays inside them if and only if they are all long enough; then what is written is cut from them in order.
        A stream that ends too early fails. */
    method downloadFile() returns (ok: bool)
      requires curr_idx == 0 && buffer_size > 0 && !overrun
      modifies this, stream, socket
      ensures var r := ReadFrames(old(socket.bytes), buffer_count); var last := size % buffer_size;
              if !r.2 then !ok
              else
                && (ok <==> Writable(r.0, buffer_size, last)) && (overrun <==> !Writable(r.0, buffer_size, last))
                && (ok ==> stream.content == old(stream.content) + Written(r.0, buffer_size, last) && socket.bytes == r.1)
    {
      ghost var last := size % buffer_size;
      ghost var r := ReadFrames(socket.bytes, buffer_count);
      ghost var frames := r.0;
      ghost var done := stream.content;
      ReadFramesCount(socket.bytes, buffer_count);
      while isAvailable()
        invariant curr_idx <= buffer_count && !overrun
        invariant ReadFrames(socket.bytes, buffer_count - curr_idx) == (frames, r.1, r.2)
        invariant r.2 ==> |frames| == buffer_count - curr_idx
        invariant r.2 ==> (Writable(r.0, buffer_size, last) <==> Writable(frames, buffer_size, last))
        invariant r.2 && Writable(frames, buffer_size, last) ==>
                    done + Written(r.0, buffer_size, last) == stream.content + Written(frames, buffer_size, last)
        decreases buffer_count - curr_idx
      {
        ghost var before, n := stream.content, if curr_idx == buffer_count - 1 then last else buffer_size;
        ok := downloadNextBuffer();
        if !ok {
          return;
        }
        if r.2 && Writable(frames, buffer_size, last) {
          Assoc(before, frames[0][..n], Written(frames[1..], buffer_size, last));
        }
        frames := frames[1..];
      }
      assert stream.content + [] == stream.content;
      ok := true;
    }
  }

  lemma {:induction false} ReadFramesCount(stream: seq<byte>, count: nat)
    ensures ReadFrames(stream, count).2 ==> |ReadFrames(stream, count).0| == count
  {
    if count > 0 && ReadFrame(stream).Some? {
      ReadFramesCount(ReadFrame(stream).value.1, count - 1);
    }
  }

  /** A frame that is too short: one byte was announced, and the one frame is empty. */
  lemma ShortFrame()
    ensures var r := ReadFrames(Frames([[]]), Count(1, 2)); r.2 && !Writable(r.0, 2, 1 % 2)
  {
    FramesRoundTrip([[]], []);
    assert Frames([[]]) + [] == Frames([[]]);
  }

  // ---------------------------------------------------------------- upload, client side

  /** `n` bytes off a stream: those there are, and zeros where it ends too early. */
  function Padded(ahead: seq<byte>, n: nat): (r: seq<byte>)
    ensures |r| == n
  {
    if n <= |ahead| then ahead[..n] else ahead + Zeros(n - |ahead|)
  }

  /** The frames the client sends of any stream, as many as it announced: `chunk` bytes each, `last` in the last. */
  function Announced(ahead: seq<byte>, left: nat, chunk: nat, last: nat): seq<seq<byte>>
    decreases left
  {
    if left == 0 then []
    else
      var n := if left == 1 then last else chunk;
      [Padded(ahead, n)] + Announced(Dropped(ahead, n), left - 1, chunk, last)
  }

  /** What is sent in one turn, and what is sent after it. */
  lemma SendStep(sent: seq<byte>, ahead: seq<byte>, left: nat, chunk: nat, last: nat)
    requires left > 0
    ensures var n := if left == 1 then last else chunk;
            sent + Frames(Announced(ahead, left, chunk, last)) ==
            (sent + Frame(Padded(ahead, n))) + Frames(Announced(Dropped(ahead, n), left - 1, chunk, last))
  {
    var n := if left == 1 then last else chunk;
    var more := Announced(Dropped(ahead, n), left - 1, chunk, last);
    Tail(Padded(ahead, n), more);
    Assoc(sent, Frame(Padded(ahead, n)), Frames(more));
  }

  /** Of a stream as long as announced these are the frames of the upload. */
  lemma {:induction false} AnnouncedExact(content: seq<byte>, chunk: nat)
    requires chunk > 0
    ensures Announced(content, Count(|content|, chunk), chunk, |content| % chunk) == UploadFrames(content, chunk)
    decreases |content|
  {
    ChunkStep(|content|, chunk);
    if |content| < chunk {
      assert content[..|content|] == content;
    } else {
      AnnouncedExact(content[chunk..], chunk);
    }
  }

  lemma PaddedSplit(ahead: seq<byte>, n: nat, m: nat)
    ensures Padded(ahead, n) + Padded(Dropped(ahead, n), m) == Padded(ahead, n + m)
  {
  }

  lemma AnnouncedOne(ahead: seq<byte>, chunk: nat, last: nat)
    ensures Concat(Announced(ahead, 1, chunk, last)) == Padded(ahead, last)
  {
    Tail(Padded(ahead, last), Announced(Dropped(ahead, last), 0, chunk, last));
    Unit(Padded(ahead, last));
  }

  lemma AnnouncedMore(ahead: seq<byte>, left: nat, chunk: nat, last: nat)
    requires left > 1
    ensures Concat(Announced(ahead, left, chunk, last)) ==
            Padded(ahead, chunk) + Concat(Announced(Dropped(ahead, chunk), left - 1, chunk, last))
  {
    Tail(Padded(ahead, chunk), Announced(Dropped(ahead, chunk), left - 1, chunk, last));
  }

  /** Of any stream, they are the stream cut or padded with zeros to the announced size. */
  lemma {:induction false} AnnouncedContent(ahead: seq<byte>, size: nat, chunk: nat)
    requires chunk > 0
    ensures Concat(Announced(ahead, Count(size, chunk), chunk, size % chunk)) == Padded(ahead, size)
    decreases size
  {
    ChunkStep(size, chunk);
    if size < chunk {
      AnnouncedOne(ahead, chunk, size);
    } else {
      AnnouncedMore(ahead, Count(size, chunk), chunk, size % chunk);
      AnnouncedContent(Dropped(ahead, chunk), size - chunk, chunk);
      PaddedSplit(ahead, chunk, size - chunk);
    }
  }

  /** `IOSetFileContentRH` of the client, after its request was accepted. */
  class Uploader {
    const size: nat
    const buffer_count: nat
    const buffer_size: nat
    const stream: InputFile
    const socket: Channel
    var curr_idx: nat

    constructor (size: nat, bufferSize: nat, stream: InputFile, socket: Channel)
      requires bufferSize > 0
      ensures this.size == size && buffer_count == Count(size, bufferSize) && buffer_size == bufferSize
      ensures this.stream == stream && this.socket == socket && curr_idx == 0
    {
      this.size := size;
      buffer_count := size / bufferSize + 1;
      buffer_size := bufferSize;
      this.stream := stream;
      this.socket := socket;
      curr_idx := 0;
    }

    predicate isAvailable()
      reads this
    {
      curr_idx < buffer_count
    }

    method uploadNextBuffer() returns (ok: bool)
      requires buffer_size > 0 && stream.Valid()
      modifies this, stream, socket
      ensures stream.Valid() && ok == old(isAvailable())
      ensures if ok then
                var n := if old(curr_idx) == buffer_count - 1 then size % buffer_size else buffer_size;
                && curr_idx == old(curr_idx) + 1
                && socket.bytes == old(socket.bytes) + Frame(Padded(old(stream.Ahead()), n))
                && stream.Ahead() == Dropped(old(stream.Ahead()), n)
              else curr_idx == old(curr_idx) && socket.bytes == old(socket.bytes) && stream.Ahead() == old(stream.Ahead())
    {
      if !isAvailable() {
        return false;
      }
      var currBufferSize := buffer_size;
      if curr_idx == buffer_count - 1 {
        currBufferSize := size % buffer_size;
      }
      var buffer := Zeros(currBufferSize);
      if currBufferSize > |stream.Ahead()| {
        assert buffer[|stream.Ahead()|..] == Zeros(currBufferSize - |stream.Ahead()|);
      }
      buffer := stream.read(buffer);
      socket.sendBuffer(buffer);
      curr_idx := curr_idx + 1;
      ok := true;
    }

    /** The loop of `FileUploader::uploadFile`, on a stream of any length. */
    method uploadFile() returns (ok: bool)
      requires curr_idx == 0 && buffer_size > 0 && stream.Valid()
      modifies this, stream, socket
      ensures ok && stream.Valid()
      ensures socket.bytes == old(socket.bytes) +
                Frames(Announced(old(stream.Ahead()), buffer_count, buffer_size, size % buffer_size))
    {
      ghost var last := size % buffer_size;
      ghost var goal := socket.bytes + Frames(Announced(stream.Ahead(), buffer_count, buffer_size, last));
      while isAvailable()
        invariant curr_idx <= buffer_count && stream.Valid()
        invariant goal == socket.bytes + Frames(Announced(stream.Ahead(), buffer_count - curr_idx, buffer_size, last))
        decreases buffer_count - curr_idx
      {
        SendStep(socket.bytes, stream.Ahead(), buffer_count - curr_idx, buffer_size, last);
        var next := uploadNextBuffer();
      }
      Unit(socket.bytes);
      ok := true;
    }
  }

  // ---------------------------------------------------------------- upload, server side

  /** `IOSetFileContentRH::transmitData` of the server: whatever the frames are, they are written whole, as many as
      arrive. */
  method TransmitUpload(file: OutputFile, fileSize: nat, bufferSize: nat, bufferCount: nat, socket: Channel) returns (ok: bool)
    requires 0 < bufferSize
    modifies file, socket
    ensures var r := ReadFrames(old(socket.bytes), bufferCount);
            ok == r.2 && file.content == old(file.content) + Concat(r.0) && socket.bytes == r.1
  {
    var buffer := Zeros(bufferSize);
    ghost var whole := ReadFrames(socket.bytes, bufferCount);
    ghost var done: seq<seq<byte>> := [];
    assert [] + whole.0 == whole.0;
    for i := 0 to bufferCount
      invariant whole == Behind(done, ReadFrames(socket.bytes, bufferCount - i))
      invariant file.content == old(file.content) + Concat(done)
    {
      if i == bufferCount - 1 && fileSize % bufferSize != 0 {
        buffer := Zeros(fileSize % bufferSize);
      }
      ok, buffer := socket.readBuffer();
      if !ok {
        assert done + [] == done;
        return;
      }
      BehindMore(done, buffer, ReadFrames(socket.bytes, bufferCount - i - 1));
      ConcatSnoc(done, buffer);
      Assoc(old(file.content), Concat(done), buffer);
      done := done + [buffer];
      file.write(buffer);
    }
    assert done + [] == done;
    ok := true;
  }

  function Behind(done: seq<seq<byte>>, r: (seq<seq<byte>>, seq<byte>, bool)): (seq<seq<byte>>, seq<byte>, bool) {
    (done + r.0, r.1, r.2)
  }

  lemma BehindMore(done: seq<seq<byte>>, buffer: seq<byte>, r: (seq<seq<byte>>, seq<byte>, bool))
    ensures Behind(done + [buffer], r) == Behind(done, Behind([buffer], r))
  {
    Assoc(done, [buffer], r.0);
  }

  /** A whole upload: the server reads the frames the client sent, and writes the content. */
  lemma UploadArrives(content: seq<byte>, chunk: nat, rest: seq<byte>)
    requires 0 < chunk < MAX_FRAME
    ensures var r := ReadFrames(Frames(UploadFrames(content, chunk)) + rest, Count(|content|, chunk));
            r.2 && Concat(r.0) == content && r.1 == rest
  {
    UploadExact(content, chunk);
    FramesRoundTrip(UploadFrames(content, chunk), rest);
  }
}
