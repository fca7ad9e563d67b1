/** The client's request handlers, and both ends of a download and of an upload put together. */
module ClientRequests {
  import opened ArrayEditors
  import opened Bytes
  import opened Framing
  import opened Options
  import opened RequestHandlers
  import opened Responses
  import opened Seqs
  import opened Transfers

  const QUIT: byte := 0x20
  const IO_GET_FILE_CONTENT: byte := 0x44
  const IO_SET_FILE_CONTENT: byte := 0x60

  // ---------------------------------------------------------------- requests

  /** A path as it is sent: cut to 65535 bytes. */
  function SentPath(path: seq<byte>): seq<byte> {
    Cut(2, path)
  }

  function DownloadRequest(path: seq<byte>, bufferSize: nat): seq<byte> {
    LittleEndian(IO_GET_FILE_CONTENT, 1) + Encode(BufferField(2, path)) + Encode(IntField(4, bufferSize))
  }

  function UploadRequest(path: seq<byte>, size: nat, bufferSize: nat, bufferCount: nat): seq<byte> {
    LittleEndian(IO_SET_FILE_CONTENT, 1) + Encode(BufferField(2, path)) + Encode(IntField(8, size))
    + Encode(IntField(4, bufferSize)) + Encode(IntField(8, bufferCount))
  }

  /** The server understands a download request as it was meant. */
  lemma DownloadUnderstood(path: seq<byte>, bufferSize: nat, files: map<seq<byte>, seq<byte>>, max: nat, texts: Texts)
    requires 0 < bufferSize < MAX_FRAME
    ensures var request := DownloadRequest(path, bufferSize);
            && request != [] && request[0] == IO_GET_FILE_CONTENT
            && Opening(request[1..], files, max, texts) ==
               if bufferSize > max then Denied(Failure(IO_INVALID_BUFFER_SIZE, texts.invalidBufferSize, []))
               else if SentPath(path) !in files then Denied(Failure(IO_OPEN_FILE_ERROR, texts.openFileError, []))
               else Download(files[SentPath(path)], bufferSize)
  {
    var a, b := Encode(BufferField(2, path)), Encode(IntField(4, bufferSize));
    OneByte(IO_GET_FILE_CONTENT);
    Assoc([IO_GET_FILE_CONTENT], a, b);
    Tail(IO_GET_FILE_CONTENT, a + b);
    Widths();
    ExtractEncoded(BufferField(2, path), b);
    ExtractLast(IntField(4, bufferSize));
  }

  lemma ExtractLast(f: Field)
    requires InRange(f)
    ensures Extract(KindOf(f), Encode(f)) == Got(Kept(f), [])
  {
    ExtractEncoded(f, []);
    assert Encode(f) + [] == Encode(f);
  }

  lemma UploadInRange(size: nat, bufferSize: nat)
    requires 0 < bufferSize < MAX_FRAME && size < FILE_LIMIT
    ensures size < Range(8) && bufferSize < Range(4) && Count(size, bufferSize) < Range(8)
  {
    Widths();
    QuotientBound(size, bufferSize);
  }

  /** The server understands an upload request as it was meant. */
  lemma UploadUnderstood(path: seq<byte>, size: nat, bufferSize: nat, locked: set<seq<byte>>, max: nat, texts: Texts)
    requires 0 < bufferSize < MAX_FRAME && size < FILE_LIMIT
    ensures var request := UploadRequest(path, size, bufferSize, Count(size, bufferSize));
            && request != [] && request[0] == IO_SET_FILE_CONTENT
            && Creating(request[1..], locked, max, texts) ==
               if bufferSize > max then Denied(Failure(IO_INVALID_BUFFER_SIZE, texts.invalidBufferSize, []))
               else if SentPath(path) in locked then Denied(Failure(IO_OPEN_FILE_ERROR, texts.openFileError, []))
               else Upload(SentPath(path), size, bufferSize, Count(size, bufferSize))
  {
    var count := Count(size, bufferSize);
    var a, b, c, d := Encode(BufferField(2, path)), Encode(IntField(8, size)), Encode(IntField(4, bufferSize)), Encode(IntField(8, count));
    OneByte(IO_SET_FILE_CONTENT);
    Assoc([IO_SET_FILE_CONTENT] + a + b, c, d);
    Assoc([IO_SET_FILE_CONTENT] + a, b, c + d);
    Assoc([IO_SET_FILE_CONTENT], a, b + (c + d));
    Tail(IO_SET_FILE_CONTENT, a + (b + (c + d)));
    UploadInRange(size, bufferSize);
    ExtractEncoded(BufferField(2, path), b + (c + d));
    ExtractEncoded(IntField(8, size), c + d);
    ExtractEncoded(IntField(4, bufferSize), d);
    ExtractLast(IntField(8, count));
  }

  // ---------------------------------------------------------------- the handler

  class RH {
    const id: byte
    const request: ArrayBuilder
    var response: ArrayAnalyzer
    /** To the server, and from it. */
    const output: Channel
    const input: Channel

    constructor (id: byte, output: Channel, input: Channel)
      ensures this.id == id && this.output == output && this.input == input
      ensures fresh(request) && fresh(response) && request.data == LittleEndian(id, 1)
    {
      this.id := id;
      this.output := output;
      this.input := input;
      request := new ArrayBuilder();
      response := new ArrayAnalyzer([]);
      new;
      Widths();
      request.insertInt(1, id);
      assert [] + LittleEndian(id, 1) == LittleEndian(id, 1);
    }

    method sendRequest()
      modifies output
      ensures output.bytes == old(output.bytes) + Frame(request.data)
    {
      output.sendBuffer(request.data);
    }

    method readResponse() returns (ok: bool)
      modifies this`response, input
      ensures ok == ReadFrame(old(input.bytes)).Some? && (!ok ==> input.bytes == [])
      ensures ok ==> fresh(response) && response.Valid() && !response.is_error && response.Ahead() == response.data
      ensures ok ==> (response.data, input.bytes) == ReadFrame(old(input.bytes)).value
    {
      var buffer;
      ok, buffer := input.readBuffer();
      if ok {
        response := new ArrayAnalyzer(buffer);
        assert response.Ahead() == buffer;
      }
    }

    /** `extractInt` for one byte, the response type or the error id. */
    method ExtractByte() returns (ok: bool, b: byte)
      requires response.Valid() && !response.is_error
      modifies response`cursor, response`is_error
      ensures response.Valid() && ok == (old(response.Ahead()) != []) && response.is_error == !ok
      ensures ok ==> b == old(response.Ahead())[0] && response.Ahead() == old(response.Ahead())[1..]
    {
      ghost var ahead := response.Ahead();
      if ahead != [] {
        FirstByte(ahead);
      }
      var value;
      ok, value := response.extractInt(1);
      b := if ok then value else 0;
    }

    /** The reply is what the frame means; `ok` when it is granted, and then its fields are still to be extracted. */
    method checkResponse() returns (ok: bool, reply: Reply)
      modifies this`response, input
      ensures ReadFrame(old(input.bytes)).Some? ==>
                var (frame, rest) := ReadFrame(old(input.bytes)).value;
                && reply == ReadReply(frame) && ok == reply.Granted? && input.bytes == rest
                && fresh(response)
                && (ok ==> response.Valid() && response.Ahead() == reply.payload && !response.is_error)
      ensures ReadFrame(old(input.bytes)).None? ==> !ok && input.bytes == []
    {
      reply := Malformed;
      ok := readResponse();
      if ok {
        ok, reply := InterpretResponse();
      }
    }

    /** The response type, and what follows it. */
    method InterpretResponse() returns (ok: bool, reply: Reply)
      requires response.Valid() && !response.is_error
      modifies response`cursor, response`is_error
      ensures reply == ReadReply(old(response.Ahead())) && ok == reply.Granted?
      ensures ok ==> response.Valid() && response.Ahead() == reply.payload && !response.is_error
    {
      ghost var frame := response.Ahead();
      var code;
      ok, code := ExtractByte();
      if !ok {
        return false, Malformed;
      }
      if code == ERROR {
        reply := processResponseError(frame[1..]);
        ok := false;
      } else if code == OK {
        reply := Granted(response.data[response.cursor..]);
      } else {
        reply := UnknownType(code);
        ok := false;
      }
    }

    /** The error id and the message. */
    method processResponseError(ghost ahead: seq<byte>) returns (reply: Reply)
      requires response.Valid() && !response.is_error && response.Ahead() == ahead
      modifies response`cursor, response`is_error
      ensures reply == if ahead == [] then Malformed
                       else match Extract(BufferKind(2), ahead[1..])
                            case Got(f, _) => Refused(ahead[0], f.content)
                            case Failed(_) => Malformed
    {
      var ok, error := ExtractByte();
      if !ok {
        return Malformed;
      }
      var message;
      ok, message := response.extractBuffer(2);
      reply := if ok then Refused(error, message) else Malformed;
    }

    /** `IOGetFileContentRH::_run` up to the point where it waits for the response. */
    method AskDownload(path: seq<byte>, bufferSize: nat)
      requires bufferSize < MAX_FRAME && id == IO_GET_FILE_CONTENT && request.data == LittleEndian(id, 1)
      modifies request, output
      ensures output.bytes == old(output.bytes) + Frame(DownloadRequest(path, bufferSize))
    {
      Widths();
      request.insertBuffer(2, path);
      request.insertInt(4, bufferSize);
      sendRequest();
    }

    /** And from there on: the size and the number of frames to come. */
    method BeginDownload() returns (ok: bool, size: nat, bufferCount: nat)
      modifies this`response, input
      ensures ReadFrame(old(input.bytes)).Some? ==>
                var (frame, rest) := ReadFrame(old(input.bytes)).value;
                && input.bytes == rest
                && match Sizes(ReadReply(frame))
                   case None => !ok
                   case Some((s, c)) => ok && size == s && bufferCount == c
      ensures ReadFrame(old(input.bytes)).None? ==> !ok && input.bytes == []
    {
      size, bufferCount := 0, 0;
      var reply;
      ok, reply := checkResponse();
      if !ok {
        return;
      }
      ok, size := response.extractInt(8);
      if !ok {
        return;
      }
      ok, bufferCount := response.extractInt(8);
    }

    /** `IOSetFileContentRH::_run` up to the point where it waits for the response. */
    method AskUpload(path: seq<byte>, size: nat, bufferSize: nat)
      requires 0 < bufferSize < MAX_FRAME && size < FILE_LIMIT
      requires id == IO_SET_FILE_CONTENT && request.data == LittleEndian(id, 1)
      modifies request, output
      ensures output.bytes == old(output.bytes) + Frame(UploadRequest(path, size, bufferSize, Count(size, bufferSize)))
    {
      UploadInRange(size, bufferSize);
      var bufferCount := size / bufferSize + 1;
      request.insertBuffer(2, path);
      request.insertInt(8, size);
      request.insertInt(4, bufferSize);
      request.insertInt(8, bufferCount);
      sendRequest();
    }
  }

  /** The two numbers in the response that opens a download. */
  function Sizes(reply: Reply): Option<(nat, nat)> {
    if !reply.Granted? then None
    else
      match Extract(IntKind(8), reply.payload)
      case Failed(_) => None
      case Got(size, rest) =>
        match Extract(IntKind(8), rest)
        case Failed(_) => None
        case Got(count, _) => Some((size.value, count.value))
  }

  lemma SizeFieldBytes(content: seq<byte>, bufferSize: nat)
    requires bufferSize > 0
    ensures EncodeAll(SizeFields(content, bufferSize)) ==
            Encode(IntField(8, |content|)) + Encode(IntField(8, Count(|content|, bufferSize)))
  {
    var a, b := IntField(8, |content|), IntField(8, Count(|content|, bufferSize));
    assert [a, b][1..] == [b] && [b][1..] == [];
    assert EncodeAll([b]) == Encode(b) + [] == Encode(b);
  }

  /** The client learns the size and the frame count the server means, and only from a download it accepts. */
  lemma SizesOpened(t: Transfer)
    requires t.Download? ==> t.bufferSize > 0 && |t.content| < FILE_LIMIT
    requires t.Denied? ==> t.response.Failure?
    ensures Sizes(ReadReply(Content(Opened(t)))) ==
            if t.Download? then Some((|t.content|, Count(|t.content|, t.bufferSize))) else None
  {
    ReplyIsMeaning(Opened(t));
    if t.Download? {
      var count := Count(|t.content|, t.bufferSize);
      var a, b := Encode(IntField(8, |t.content|)), Encode(IntField(8, count));
      SizesInRange(t.content, t.bufferSize);
      SizeFieldBytes(t.content, t.bufferSize);
      ExtractEncoded(IntField(8, |t.content|), b);
      ExtractLast(IntField(8, count));
    } else if t.Upload? {
      assert Extract(IntKind(8), []).Failed?;
    }
  }

  /** An extracted byte is the byte. */
  lemma FirstByte(ahead: seq<byte>)
    requires ahead != []
    ensures Extract(IntKind(1), ahead) == Got(IntField(1, ahead[0]), ahead[1..])
  {
    assert ahead[..1] == [ahead[0]];
    assert [ahead[0]][1..] == [];
    assert ValueOf([ahead[0]]) == ahead[0];
  }
  // ---------------------------------------------------------------- both ends together

  /** Response frames of the transfer handlers fit their length field. */
  lemma ShortResponse(r: Response)
    requires |EncodeAll(r.fields)| <= 16
    ensures |Content(r)| < MAX_FRAME
  {
    Widths();
  }

  lemma OpenedIsShort(r: Response, t: Transfer)
    requires t.Download? ==> t.bufferSize > 0
    requires (r == Opened(t) && !t.Denied?) || r.fields == []
    ensures |Content(r)| < MAX_FRAME
  {
    if t.Download? {
      SizeFieldBytes(t.content, t.bufferSize);
    }
    ShortResponse(r);
  }

  /** What the client gets out of everything the server sends for a download request. */
  lemma DownloadReply(path: seq<byte>, bufferSize: nat, refusal: Option<byte>, files: map<seq<byte>, seq<byte>>,
                      locked: set<seq<byte>>, max: nat, texts: Texts)
    requires 0 < bufferSize < MAX_FRAME && SmallFiles(files)
    ensures var request := DownloadRequest(path, bufferSize);
            request != [] &&
            var sent := Sent(GetContent, refusal, request[1..], files, locked, max, texts);
            var accepted := refusal.None? && bufferSize <= max && SentPath(path) in files;
            && ReadFrame(Frames(sent)) == Some((sent[0], Frames(sent[1..])))
            && (if accepted then
                  var content := files[SentPath(path)];
                  && Sizes(ReadReply(sent[0])) == Some((|content|, Count(|content|, bufferSize)))
                  && sent[1..] == DownloadFrames(content, bufferSize, Zeros(bufferSize))
                else Sizes(ReadReply(sent[0])) == None && sent[1..] == [])
  {
    DownloadUnderstood(path, bufferSize, files, max, texts);
    var request := DownloadRequest(path, bufferSize);
    var t := Opening(request[1..], files, max, texts);
    var sent := Sent(GetContent, refusal, request[1..], files, locked, max, texts);
    var data := if refusal.None? && t.Download? then DownloadFrames(t.content, t.bufferSize, Zeros(t.bufferSize)) else [];
    var response := if refusal.Some? then Failure(refusal.value, [], []) else Opened(t);
    Tail(Content(response), data);
    OpenedIsShort(response, t);
    FrameRoundTrip(sent[0], Frames(data));
    SizesOpened(t);
    ReplyIsMeaning(response);
  }

  /** A download, from the request to the last frame: the copy is made if and only if the requirements are met, the
      buffer size is accepted and the file is there; then it is the file. */
  method DownloadFile(path: seq<byte>, bufferSize: nat, disk: Disk, requirements: Requirements, peer: Peer, texts: Texts, max: nat)
    returns (ok: bool, copy: seq<byte>)
    requires 0 < bufferSize < MAX_FRAME && SmallFiles(disk.files)
    modifies disk
    ensures ok <==>
              && peer.version >= requirements.min_version && (requirements.must_be_logged ==> peer.logged)
              && peer.role >= requirements.min_role && bufferSize <= max && SentPath(path) in disk.files
    ensures ok ==> copy == disk.files[SentPath(path)]
    ensures disk.files == old(disk.files)
  {
    RefusalMeans(requirements, peer);
    var toServer := new Channel();
    var toClient := new Channel();
    var client := new RH(IO_GET_FILE_CONTENT, toServer, toClient);
    client.AskDownload(path, bufferSize);
    ghost var request := DownloadRequest(path, bufferSize);
    assert toServer.bytes == Frame(request) + [];
    ServeOne(GetContent, request, [], disk, requirements, peer, texts, max, toServer, toClient);
    DownloadUnderstood(path, bufferSize, disk.files, max, texts);
    DownloadReply(path, bufferSize, Refusal(requirements, peer), disk.files, disk.locked, max, texts);
    ok, copy := TakeDownload(client, bufferSize, if SentPath(path) in disk.files then disk.files[SentPath(path)] else []);
  }

  /** The server reads the request that was sent and handles it; `rest` is what arrives behind it. */
  method ServeOne(handler: Handler, ghost request: seq<byte>, ghost rest: seq<byte>, disk: Disk, requirements: Requirements, peer: Peer,
               texts: Texts, max: nat, input: Channel, output: Channel)
    requires request != [] && |request| < MAX_FRAME && input.bytes == Frame(request) + rest && input != output
    requires output.bytes == [] && SmallFiles(disk.files) && !handler.Plain?
    modifies disk, input, output
    ensures output.bytes == Frames(Sent(handler, Refusal(requirements, peer), request[1..], old(disk.files), disk.locked, max, texts))
    ensures if Refusal(requirements, peer).Some? then disk.files == old(disk.files)
            else Effect(Requested(handler, request[1..], old(disk.files), disk.locked, max, texts),
                        old(disk.files), disk.files, rest, input.bytes)
  {
    var arrived, content := ReadRequest(input, request, rest);
    ghost var frames := Sent(handler, Refusal(requirements, peer), content[1..], disk.files, disk.locked, max, texts);
    var server := new RequestHandlers.RH(requirements, peer, texts, max, content[1..], output);
    server.run(handler, disk, input);
    assert output.bytes == [] + Frames(frames) == Frames(frames);
  }

  /** The client's part after it sent its request, with everything the server has sent. */
  method TakeDownload(client: RH, bufferSize: nat, ghost content: seq<byte>) returns (ok: bool, copy: seq<byte>)
    requires 0 < bufferSize < MAX_FRAME
    requires ReadFrame(client.input.bytes).Some?
    requires var (frame, rest) := ReadFrame(client.input.bytes).value; var sizes := Sizes(ReadReply(frame));
             sizes.Some? ==>
               sizes.value == (|content|, Count(|content|, bufferSize)) &&
               rest == Frames(DownloadFrames(content, bufferSize, Zeros(bufferSize)))
    modifies client, client.input
    ensures ok == Sizes(ReadReply(ReadFrame(old(client.input.bytes)).value.0)).Some?
    ensures ok ==> copy == content && client.input.bytes == []
  {
    copy := [];
    var size, bufferCount;
    ok, size, bufferCount := client.BeginDownload();
    if ok {
      var stream := new OutputFile();
      var downloader := new Downloader(size, bufferCount, bufferSize, stream, client.input);
      ghost var frames := DownloadFrames(content, bufferSize, Zeros(bufferSize));
      DownloadExact(content, bufferSize, Zeros(bufferSize));
      FramesRoundTrip(frames, []);
      assert Frames(frames) + [] == Frames(frames);
      ok := downloader.downloadFile();
      assert [] + content == content;
      copy := stream.content;
    }
  }

  /** The server reads the request that was sent. */
  method ReadRequest(input: Channel, ghost request: seq<byte>, ghost rest: seq<byte>) returns (ok: bool, content: seq<byte>)
    requires input.bytes == Frame(request) + rest && |request| < MAX_FRAME
    modifies input
    ensures ok && content == request && input.bytes == rest
  {
    FrameRoundTrip(request, rest);
    ok, content := input.readBuffer();
  }

  // ---------------------------------------------------------------- an upload

  /** What the client gets out of what the server sends for an upload request, and what the server takes it for. */
  lemma UploadReply(path: seq<byte>, size: nat, bufferSize: nat, refusal: Option<byte>, files: map<seq<byte>, seq<byte>>,
                    locked: set<seq<byte>>, max: nat, texts: Texts)
    requires 0 < bufferSize < MAX_FRAME && size < FILE_LIMIT
    ensures var request := UploadRequest(path, size, bufferSize, Count(size, bufferSize));
            request != [] && |request| < MAX_FRAME &&
            var sent := Sent(SetContent, refusal, request[1..], files, locked, max, texts);
            var accepted := refusal.None? && bufferSize <= max && SentPath(path) !in locked;
            && ReadFrame(Frames(sent)) == Some((sent[0], []))
            && (ReadReply(sent[0]).Granted? <==> accepted)
            && (refusal.None? ==>
                  var t := Requested(SetContent, request[1..], files, locked, max, texts);
                  if accepted then t == Upload(SentPath(path), size, bufferSize, Count(size, bufferSize)) else t.Denied?)
  {
    UploadUnderstood(path, size, bufferSize, locked, max, texts);
    var request := UploadRequest(path, size, bufferSize, Count(size, bufferSize));
    var t := Creating(request[1..], locked, max, texts);
    var response := if refusal.Some? then Failure(refusal.value, [], []) else Opened(t);
    var sent := Sent(SetContent, refusal, request[1..], files, locked, max, texts);
    assert sent == [Content(response)];
    OpenedIsShort(response, t);
    FrameRoundTrip(sent[0], []);
    ReplyIsMeaning(response);
    Widths();
  }

  /** The client's part of an upload, with everything the server sends. */
  method GiveUpload(client: RH, content: seq<byte>, bufferSize: nat) returns (ok: bool)
    requires 0 < bufferSize && ReadFrame(client.input.bytes).Some? && client.output != client.input
    modifies client, client.input, client.output
    ensures ok == ReadReply(ReadFrame(old(client.input.bytes)).value.0).Granted?
    ensures client.output.bytes == old(client.output.bytes) + if ok then Frames(UploadFrames(content, bufferSize)) else []
  {
    var reply;
    ok, reply := client.checkResponse();
    if ok {
      var stream := new InputFile(content);
      assert stream.Ahead() == content;
      var uploader := new Uploader(|content|, bufferSize, stream, client.output);
      ok := uploader.uploadFile();
      AnnouncedExact(content, bufferSize);
    } else {
      assert client.output.bytes + [] == client.output.bytes;
    }
  }

  /** What the client writes for an upload: its request and, if that is granted, the frames. */
  function UploadBytes(path: seq<byte>, content: seq<byte>, bufferSize: nat, granted: bool): seq<byte>
    requires bufferSize > 0
  {
    Frame(UploadRequest(path, |content|, bufferSize, Count(|content|, bufferSize)))
    + if granted then Frames(UploadFrames(content, bufferSize)) else []
  }

  /** The server's part: it grants exactly what it can, and then the file has the content. */
  method ServeUpload(path: seq<byte>, content: seq<byte>, bufferSize: nat, disk: Disk, requirements: Requirements,
                     peer: Peer, texts: Texts, max: nat, granted: bool, input: Channel, output: Channel)
    requires 0 < bufferSize < MAX_FRAME && |content| < FILE_LIMIT && SmallFiles(disk.files) && input != output
    requires granted <==> Refusal(requirements, peer).None? && bufferSize <= max && SentPath(path) !in disk.locked
    requires input.bytes == UploadBytes(path, content, bufferSize, granted) && output.bytes == []
    modifies disk, input, output
    ensures ReadFrame(output.bytes).Some? && ReadReply(ReadFrame(output.bytes).value.0).Granted? == granted
    ensures disk.files == if granted then old(disk.files)[SentPath(path) := content] else old(disk.files)
  {
    ghost var request := UploadRequest(path, |content|, bufferSize, Count(|content|, bufferSize));
    ghost var data := if granted then Frames(UploadFrames(content, bufferSize)) else [];
    UploadReply(path, |content|, bufferSize, Refusal(requirements, peer), disk.files, disk.locked, max, texts);
    UploadArrives(content, bufferSize, []);
    assert Frames(UploadFrames(content, bufferSize)) + [] == Frames(UploadFrames(content, bufferSize));
    ServeOne(SetContent, request, data, disk, requirements, peer, texts, max, input, output);
  }

  /** An upload, from the request to the last frame: it is made if and only if the requirements are met, the buffer
      size is accepted and the file can be opened; then the file has the content, and else nothing has changed.
      The server works on what the client will have written in the end; that the client, given what the server sends,
      writes just this is checked at the end. */
  method UploadFile(path: seq<byte>, content: seq<byte>, bufferSize: nat, disk: Disk, requirements: Requirements,
                    peer: Peer, texts: Texts, max: nat) returns (ok: bool)
    requires 0 < bufferSize < MAX_FRAME && |content| < FILE_LIMIT && SmallFiles(disk.files)
    modifies disk
    ensures ok <==>
              && peer.version >= requirements.min_version && (requirements.must_be_logged ==> peer.logged)
              && peer.role >= requirements.min_role && bufferSize <= max && SentPath(path) !in disk.locked
    ensures disk.files == if ok then old(disk.files)[SentPath(path) := content] else old(disk.files)
  {
    RefusalMeans(requirements, peer);
    var granted := Refusal(requirements, peer).None? && bufferSize <= max && SentPath(path) !in disk.locked;
    var arriving := new Channel();
    arriving.bytes := UploadBytes(path, content, bufferSize, granted);
    var toClient := new Channel();
    ServeUpload(path, content, bufferSize, disk, requirements, peer, texts, max, granted, arriving, toClient);

    var written;
    ok, written := ClientUpload(path, content, bufferSize, toClient);
    assert written == UploadBytes(path, content, bufferSize, granted);
  }

  /** The client's part of an upload, given what the server sends: whether it was granted, and all it writes. */
  method ClientUpload(path: seq<byte>, content: seq<byte>, bufferSize: nat, toClient: Channel) returns (ok: bool, written: seq<byte>)
    requires 0 < bufferSize < MAX_FRAME && |content| < FILE_LIMIT && ReadFrame(toClient.bytes).Some?
    modifies toClient
    ensures ok == ReadReply(ReadFrame(old(toClient.bytes)).value.0).Granted?
    ensures written == UploadBytes(path, content, bufferSize, ok)
  {
    var toServer := new Channel();
    var client := new RH(IO_SET_FILE_CONTENT, toServer, toClient);
    client.AskUpload(path, |content|, bufferSize);
    ghost var request := toServer.bytes;
    Unit(Frame(UploadRequest(path, |content|, bufferSize, Count(|content|, bufferSize))));
    ok := GiveUpload(client, content, bufferSize);
    written := toServer.bytes;
    assert written == request + if ok then Frames(UploadFrames(content, bufferSize)) else [];
  }
}
