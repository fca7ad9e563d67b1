/** The server's loop over one connection, on whatever bytes arrive. */
module ServerSessions {
  import opened Bytes
  import opened ClientRequests
  import opened Framing
  import opened Options
  import opened RequestHandlers
  import opened Responses
  import opened Seqs
  import opened Sessions
  import opened Transfers
  import opened Versions

  /** What a handler may do: insert numbers that fit their width, and leave files that fit a disk. */
  predicate ValidBody(b: Body) {
    PlainInRange(Plain(b.actions)) && SmallFiles(b.files)
  }

  // ---------------------------------------------------------------- one request

  /** What one buffer off the stream leads to: what is sent for it, and everything after it. */
  datatype Served = Served(sent: seq<seq<byte>>, peer: Peer, files: map<seq<byte>, seq<byte>>, rest: seq<byte>, connected: bool)

  function ServeRequest(c: Config, peer: Peer, files: map<seq<byte>, seq<byte>>, request: seq<byte>, rest: seq<byte>, body: Body): Served
    requires request != []
  {
    var t := TransferOf(c, peer, files, request, body);
    var response := Content(ResponseTo(c, peer, files, request, body));
    match t
    case Download(content, chunk) => Served([response] + DownloadFrames(content, chunk, Zeros(chunk)), peer, files, rest, true)
    case Upload(path, _, _, count) =>
      var r := ReadFrames(rest, count);
      Served([response], peer, files[path := Concat(r.0)], r.1, true)
    case Denied(_) =>
      if Ran(peer, request, body)
      then Served([response], peer.(logged := body.logged, role := body.role), body.files, rest, true)
      else Served([response], peer, files, rest, true)
  }

  function Serve(c: Config, peer: Peer, files: map<seq<byte>, seq<byte>>, input: seq<byte>, body: Body): Served {
    match ReadFrame(input)
    case None => Served([], peer, files, [], false)
    case Some((request, rest)) =>
      if request == [] then Served([], peer, files, rest, true)
      else if request[0] == QUIT then Served([], peer, files, rest, false)
      else ServeRequest(c, peer, files, request, rest, body)
  }

  lemma {:induction false} ReadFramesBound(stream: seq<byte>, count: nat)
    ensures var r := ReadFrames(stream, count); |Concat(r.0)| + |r.1| <= |stream|
  {
    if count > 0 && ReadFrame(stream).Some? {
      var (buffer, rest) := ReadFrame(stream).value;
      ReadFramesBound(rest, count - 1);
      Tail(buffer, ReadFrames(rest, count - 1).0);
    }
  }

  lemma ServeShrinks(c: Config, peer: Peer, files: map<seq<byte>, seq<byte>>, input: seq<byte>, body: Body)
    requires SmallFiles(files) && ValidBody(body) && |input| < FILE_LIMIT
    ensures var r := Serve(c, peer, files, input, body);
            SmallFiles(r.files) && |r.rest| <= |input| && (r.connected ==> |r.rest| < |input|)
  {
    match ReadFrame(input)
    case None =>
    case Some((request, rest)) =>
      if request != [] && request[0] != QUIT {
        var t := TransferOf(c, peer, files, request, body);
        if t.Upload? {
          ReadFramesBound(rest, t.bufferCount);
        }
      }
  }

  // ---------------------------------------------------------------- the whole stream

  /** A buffer that was taken for a request, and what was sent for it. */
  datatype Exchange = Exchange(request: seq<byte>, sent: seq<seq<byte>>)

  function HeadOr(bodies: seq<Body>, peer: Peer, files: map<seq<byte>, seq<byte>>): Body {
    if bodies == [] then Body([], peer.logged, peer.role, files) else bodies[0]
  }

  function Rest(bodies: seq<Body>): seq<Body> {
    if bodies == [] then [] else bodies[1..]
  }

  ghost predicate ValidBodies(bodies: seq<Body>) {
    forall b :: b in bodies ==> ValidBody(b)
  }

  /** Requests are served until one ends the session or the stream ends; handler number `i` does what `bodies[i]` says.
      What was exchanged, and the files in the end. */
  ghost function ServeAll(c: Config, peer: Peer, files: map<seq<byte>, seq<byte>>, input: seq<byte>, bodies: seq<Body>):
    (seq<Exchange>, map<seq<byte>, seq<byte>>)
    requires SmallFiles(files) && ValidBodies(bodies) && |input| < FILE_LIMIT
    decreases |input|
  {
    var body := HeadOr(bodies, peer, files);
    var r := Serve(c, peer, files, input, body);
    ServeShrinks(c, peer, files, input, body);
    if !r.connected then ([], r.files)
    else
      var more := ServeAll(c, r.peer, r.files, r.rest, Rest(bodies));
      ([Exchange(ReadFrame(input).value.0, r.sent)] + more.0, more.1)
  }

  function AllSent(log: seq<Exchange>): seq<seq<byte>> {
    if log == [] then [] else log[0].sent + AllSent(log[1..])
  }

  /** A response that is an error or that is granted, and then data only for a download that is granted. */
  predicate AnsweredOnce(e: Exchange) {
    if e.request == [] then e.sent == []
    else
      && e.request[0] != QUIT && e.sent != []
      && (ReadReply(e.sent[0]).Granted? || ReadReply(e.sent[0]).Refused?)
      && (|e.sent| > 1 ==> e.request[0] == IO_GET_FILE_CONTENT && ReadReply(e.sent[0]).Granted?)
  }

  lemma ServedOnce(c: Config, peer: Peer, files: map<seq<byte>, seq<byte>>, input: seq<byte>, body: Body)
    requires Serve(c, peer, files, input, body).connected
    ensures AnsweredOnce(Exchange(ReadFrame(input).value.0, Serve(c, peer, files, input, body).sent))
  {
    var request := ReadFrame(input).value.0;
    if request != [] {
      ReplyIsMeaning(ResponseTo(c, peer, files, request, body));
      var t := TransferOf(c, peer, files, request, body);
      assert t.Download? ==> ResponseTo(c, peer, files, request, body) == Opened(t);
    }
  }

  /** Whatever bytes arrive and whatever the handlers do, every request is answered by exactly one response. */
  lemma {:induction false} EachAnsweredOnce(c: Config, peer: Peer, files: map<seq<byte>, seq<byte>>, input: seq<byte>, bodies: seq<Body>)
    requires SmallFiles(files) && ValidBodies(bodies) && |input| < FILE_LIMIT
    ensures forall e :: e in ServeAll(c, peer, files, input, bodies).0 ==> AnsweredOnce(e)
    decreases |input|
  {
    var body := HeadOr(bodies, peer, files);
    var r := Serve(c, peer, files, input, body);
    ServeShrinks(c, peer, files, input, body);
    if r.connected {
      ServedOnce(c, peer, files, input, body);
      EachAnsweredOnce(c, r.peer, r.files, r.rest, Rest(bodies));
    }
  }

  // ---------------------------------------------------------------- the server's side of a connection

  class Client {
    const config: Config
    /** From the client, with everything that will arrive, and to it. */
    const input: Channel
    const socket: Channel
    const disk: Disk
    var version: nat
    var is_connected: bool
    var is_logged: bool
    var role: nat

    constructor (config: Config, input: Channel, socket: Channel, disk: Disk)
      ensures this.config == config && this.input == input && this.socket == socket && this.disk == disk
      ensures is_connected && Known() == Peer(0, false, ROLE_NONE)
    {
      this.config := config;
      this.input := input;
      this.socket := socket;
      this.disk := disk;
      version, is_connected, is_logged, role := 0, true, false, ROLE_NONE;
    }

    function Known(): Peer
      reads this
    {
      Peer(version, is_logged, role)
    }

    ghost predicate Valid()
      reads this, disk, input
    {
      input != socket && disk.locked == config.locked && SmallFiles(disk.files) && |input.bytes| < FILE_LIMIT
    }

    /** `read_some` takes three bytes, or what there is. */
    method checkWelcomeMessage() returns (ok: bool)
      modifies input
      ensures ok == (WELCOME <= old(input.bytes))
      ensures input.bytes == if |old(input.bytes)| < 3 then [] else old(input.bytes)[3..]
    {
      var length := if |input.bytes| < 3 then |input.bytes| else 3;
      var buffer := input.bytes[..length];
      input.bytes := input.bytes[length..];
      if length != 3 {
        return false;
      }
      ok := isWelcomeMessage(buffer);
    }

    predicate isWelcomeMessage(message: seq<byte>)
      requires |message| == 3
    {
      message[0] == WELCOME[0] && message[1] == WELCOME[1] && message[2] == WELCOME[2]
    }

    /** The client's version, if it arrives, is answered with the server's three. */
    method checkVersion()
      requires ValidConfig(config) && input != socket
      modifies this`version, input, socket
      ensures if |old(input.bytes)| < 8 then input.bytes == [] && version == old(version) && socket.bytes == old(socket.bytes)
              else
                && input.bytes == old(input.bytes)[8..]
                && version == Combine(FromCombined(ValueOf(old(input.bytes)[..8])))
                && socket.bytes == old(socket.bytes) + LittleEndian(config.server, 8) + LittleEndian(config.oldest, 8)
                                   + LittleEndian(config.newest, 8)
    {
      var ok, versionInt := input.readInt(8);
      if !ok {
        return;
      }
      version := Combine(FromCombined(versionInt));
      Widths();
      socket.sendInt(8, config.server);
      socket.sendInt(8, config.oldest);
      socket.sendInt(8, config.newest);
    }

    /** The outcome is the one given. */
    twostate predicate After(r: Served)
      reads this, disk, input, socket
    {
      && socket.bytes == old(socket.bytes) + Frames(r.sent)
      && Known() == r.peer && disk.files == r.files && input.bytes == r.rest && is_connected == r.connected
    }

    method handleNewRequest(body: Body)
      requires Valid() && is_connected && ValidBody(body)
      modifies this`is_connected, this`is_logged, this`role, disk, input, socket
      ensures Valid() && After(Serve(config, old(Known()), old(disk.files), old(input.bytes), body))
    {
      ServeShrinks(config, Known(), disk.files, input.bytes, body);
      assert socket.bytes + Frames([]) == socket.bytes;
      var ok, requestFullContent := input.readBuffer();
      if !ok {
        is_connected := false;
        return;
      }
      if requestFullContent == [] {
        return;
      }
      processReceivedRequest(requestFullContent, body);
    }

    method processReceivedRequest(content: seq<byte>, body: Body)
      requires content != [] && Valid() && is_connected && ValidBody(body)
      modifies this`is_connected, this`is_logged, this`role, disk, input, socket
      ensures if content[0] == QUIT then After(Served([], old(Known()), old(disk.files), old(input.bytes), false))
              else After(ServeRequest(config, old(Known()), old(disk.files), content, old(input.bytes), body))
    {
      assert socket.bytes + Frames([]) == socket.bytes;
      if content[0] == QUIT {
        is_connected := false;
        return;
      }
      var requirements := RequirementsOf(content[0]);
      if requirements.None? {
        sendResponseError(UNKNOWN_REQUEST);
        return;
      }
      RunHandler(requirements.value, content, body);
    }

    method sendResponseError(error: byte)
      modifies socket
      ensures socket.bytes == old(socket.bytes) + Frames([Content(Failure(error, [], []))])
    {
      var response := new ResponseBuilder();
      response.buildError(error, []);
      FramesHead(socket.bytes, [Content(Failure(error, [], []))]);
      socket.sendBuffer(response.base.data);
    }

    /** The handler is made, runs, and leaves its login and its files. */
    method RunHandler(requirements: Requirements, content: seq<byte>, body: Body)
      requires content != [] && content[0] != QUIT && Valid() && is_connected && ValidBody(body)
      requires RequirementsOf(content[0]) == Some(requirements)
      modifies this`is_logged, this`role, disk, input, socket
      ensures After(ServeRequest(config, old(Known()), old(disk.files), content, old(input.bytes), body))
    {
      ghost var peer, files, rest := Known(), disk.files, input.bytes;
      var handler := HandlerOf(content[0], body);
      var rh := new RequestHandlers.RH(requirements, Known(), config.texts, config.maxBufferSize, content[1..], socket);
      rh.run(handler, disk, input);
      if Refusal(requirements, rh.peer).None? && handler.Plain? {
        is_logged, role := body.logged, body.role;
        disk.files := body.files;
      }
    }

    /** The loop of `startCommunication`: whatever arrives is served as `ServeAll` says, to the end. */
    method ServeRequests(bodies: seq<Body>)
      requires Valid() && is_connected && ValidBodies(bodies)
      modifies this`is_connected, this`is_logged, this`role, disk, input, socket
      ensures !is_connected
      ensures var all := ServeAll(config, old(Known()), old(disk.files), old(input.bytes), bodies);
              socket.bytes == old(socket.bytes) + Frames(AllSent(all.0)) && disk.files == all.1
    {
      ghost var start := socket.bytes;
      ghost var all := ServeAll(config, Known(), disk.files, input.bytes, bodies);
      ghost var done: seq<seq<byte>> := [];
      assert [] + AllSent(all.0) == AllSent(all.0) && start + Frames([]) == start;
      var next := bodies;
      while is_connected
        invariant Valid() && ValidBodies(next)
        invariant is_connected ==>
                    var left := ServeAll(config, Known(), disk.files, input.bytes, next);
                    AllSent(all.0) == done + AllSent(left.0) && all.1 == left.1
        invariant !is_connected ==> AllSent(all.0) == done && all.1 == disk.files
        invariant socket.bytes == start + Frames(done)
        decreases |input.bytes|, is_connected
      {
        var body := HeadOr(next, Known(), disk.files);
        ghost var r := Serve(config, Known(), disk.files, input.bytes, body);
        ServeShrinks(config, Known(), disk.files, input.bytes, body);
        ServeAllStep(config, Known(), disk.files, input.bytes, next, done);
        FramesMore(start, done, r.sent);
        handleNewRequest(body);
        next := Rest(next);
        done := done + r.sent;
      }
    }

    /** The handshake, and then all requests. */
    method startCommunication(bodies: seq<Body>)
      requires Valid() && ValidConfig(config) && is_connected && ValidBodies(bodies) && Known() == Peer(0, false, ROLE_NONE)
      modifies this`version, this`is_connected, this`is_logged, this`role, disk, input, socket
      ensures if !(WELCOME <= old(input.bytes)) then socket.bytes == old(socket.bytes) + [0] && disk.files == old(disk.files)
              else
                var arriving := old(input.bytes)[3..];
                var all := ServeAll(config, Peer(VersionIn(arriving), false, ROLE_NONE), old(disk.files), AfterVersion(arriving), bodies);
                && socket.bytes == old(socket.bytes) + [1] + VersionsFor(config, arriving) + Frames(AllSent(all.0))
                && disk.files == all.1 && !is_connected
    {
      Widths();
      OneByte(0);
      OneByte(1);
      var ok := checkWelcomeMessage();
      if !ok {
        socket.sendInt(1, 0);
        return;
      }
      ghost var arriving := input.bytes;
      socket.sendInt(1, 1);
      ghost var greeted := socket.bytes;
      checkVersion();
      VersionsSent(config, arriving, greeted, socket.bytes);
      ServeRequests(bodies);
    }
  }

  /** What is served after one buffer. */
  lemma ServeAllUnfolds(c: Config, peer: Peer, files: map<seq<byte>, seq<byte>>, input: seq<byte>, bodies: seq<Body>)
    requires SmallFiles(files) && ValidBodies(bodies) && |input| < FILE_LIMIT
    ensures var r := Serve(c, peer, files, input, HeadOr(bodies, peer, files)); var all := ServeAll(c, peer, files, input, bodies);
            && SmallFiles(r.files) && |r.rest| < FILE_LIMIT && ValidBodies(Rest(bodies))
            && if r.connected then
                 var left := ServeAll(c, r.peer, r.files, r.rest, Rest(bodies));
                 AllSent(all.0) == r.sent + AllSent(left.0) && all.1 == left.1
               else AllSent(all.0) == [] && all.1 == r.files
  {
    var body := HeadOr(bodies, peer, files);
    ServeShrinks(c, peer, files, input, body);
    var r := Serve(c, peer, files, input, body);
    if r.connected {
      Tail(Exchange(ReadFrame(input).value.0, r.sent), ServeAll(c, r.peer, r.files, r.rest, Rest(bodies)).0);
    }
  }

  /** A session that ends with a buffer sends nothing for it. */
  lemma EndsSilently(c: Config, peer: Peer, files: map<seq<byte>, seq<byte>>, input: seq<byte>, body: Body)
    ensures var r := Serve(c, peer, files, input, body); !r.connected ==> r.sent == []
  {
  }

  lemma ServeAllStep(c: Config, peer: Peer, files: map<seq<byte>, seq<byte>>, input: seq<byte>, bodies: seq<Body>, done: seq<seq<byte>>)
    requires SmallFiles(files) && ValidBodies(bodies) && |input| < FILE_LIMIT
    ensures var r := Serve(c, peer, files, input, HeadOr(bodies, peer, files)); var all := ServeAll(c, peer, files, input, bodies);
            && SmallFiles(r.files) && |r.rest| < FILE_LIMIT && ValidBodies(Rest(bodies))
            && if r.connected then
                 var left := ServeAll(c, r.peer, r.files, r.rest, Rest(bodies));
                 done + AllSent(all.0) == (done + r.sent) + AllSent(left.0) && all.1 == left.1
               else done + AllSent(all.0) == done + r.sent == done && all.1 == r.files
  {
    ServeAllUnfolds(c, peer, files, input, bodies);
    EndsSilently(c, peer, files, input, HeadOr(bodies, peer, files));
    var r := Serve(c, peer, files, input, HeadOr(bodies, peer, files));
    if r.connected {
      Assoc(done, r.sent, AllSent(ServeAll(c, r.peer, r.files, r.rest, Rest(bodies)).0));
    } else {
      Unit(done);
    }
  }

  function VersionIn(arriving: seq<byte>): nat {
    if |arriving| < 8 then 0 else Combine(FromCombined(ValueOf(arriving[..8])))
  }

  function AfterVersion(arriving: seq<byte>): seq<byte> {
    if |arriving| < 8 then [] else arriving[8..]
  }

  /** The server's three versions, if the client's has arrived. */
  function VersionsFor(c: Config, arriving: seq<byte>): seq<byte> {
    if |arriving| < 8 then [] else LittleEndian(c.server, 8) + LittleEndian(c.oldest, 8) + LittleEndian(c.newest, 8)
  }

  lemma VersionsSent(c: Config, arriving: seq<byte>, before: seq<byte>, after: seq<byte>)
    requires after == if |arriving| < 8 then before
                      else before + LittleEndian(c.server, 8) + LittleEndian(c.oldest, 8) + LittleEndian(c.newest, 8)
    ensures after == before + VersionsFor(c, arriving)
  {
    Assoc(before, LittleEndian(c.server, 8), LittleEndian(c.oldest, 8));
    Assoc(before, LittleEndian(c.server, 8) + LittleEndian(c.oldest, 8), LittleEndian(c.newest, 8));
  }

  lemma FramesMore(start: seq<byte>, done: seq<seq<byte>>, more: seq<seq<byte>>)
    ensures start + Frames(done) + Frames(more) == start + Frames(done + more)
  {
    FramesAppend(done, more);
    Assoc(start, Frames(done), Frames(more));
  }
}
