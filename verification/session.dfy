/** A whole session between a client and the server, as steps of two parties over two reliable channels. */
module Sessions {
  import opened Bytes
  import opened ClientRequests
  import opened Framing
  import opened Options
  import opened RequestHandlers
  import opened Responses
  import opened Transfers
  import opened Versions

  // ---------------------------------------------------------------- the parties

  /** What is on its way: the bytes of the handshake, and framed buffers. */
  datatype Packet = Raw(bytes: seq<byte>) | Framed(bytes: seq<byte>)

  const WELCOME: seq<byte> := ['S' as int, 'M' as int, 'C' as int]

  /** A combined version has three parts of 16 bits. */
  const VERSION_LIMIT := 0x1_0000_0000_0000

  /** The versions of both ends, combined, and the server's configuration. */
  datatype Config = Config(client: nat, server: nat, oldest: nat, newest: nat,
                           maxBufferSize: nat, texts: Texts, locked: set<seq<byte>>)

  predicate ValidConfig(c: Config) {
    && c.client < VERSION_LIMIT && c.server < VERSION_LIMIT && c.oldest < VERSION_LIMIT && c.newest < VERSION_LIMIT
    && c.maxBufferSize < MAX_FRAME
  }

  /** The requests of the client's handlers: the transfers, and all others by their id and their fields. */
  datatype Request =
    | Other(id: byte, body: seq<byte>)
    | Fetch(path: seq<byte>, bufferSize: nat)
    | Push(path: seq<byte>, content: seq<byte>, bufferSize: nat)

  predicate ValidRequest(r: Request) {
    match r
    case Other(id, body) => id != QUIT && id != IO_GET_FILE_CONTENT && id != IO_SET_FILE_CONTENT && |body| + 1 < MAX_FRAME
    case Fetch(_, bufferSize) => 0 < bufferSize < MAX_FRAME
    case Push(_, content, bufferSize) => 0 < bufferSize < MAX_FRAME && |content| < FILE_LIMIT
  }

  function RequestBytes(r: Request): (b: seq<byte>)
    requires ValidRequest(r)
  {
    match r
    case Other(id, body) => [id] + body
    case Fetch(path, bufferSize) => DownloadRequest(path, bufferSize)
    case Push(path, content, bufferSize) => UploadRequest(path, |content|, bufferSize, Count(|content|, bufferSize))
  }

  const QUIT_REQUEST: seq<byte> := [QUIT, 0]

  datatype ClientPhase =
    | Greeting
    | AwaitFlag
    | SayVersion
    | AwaitVersions(left: nat)
    | Idle
    | Awaiting(request: Request)
    | Fetching(size: nat, count: nat, chunk: nat, taken: nat, copy: seq<byte>)
    | Pushing(toPush: seq<seq<byte>>)
    | TurnedAway
    | Gone
    | Desynchronised

  datatype ServerPhase =
    | AwaitGreeting
    | AwaitVersion
    | SendVersions(left: nat)
    | Waiting
    | Handling(request: seq<byte>)
    | Sending(toSend: seq<seq<byte>>)
    | Receiving(path: seq<byte>, left: nat, got: seq<byte>)
    | Closed
    | Confused

  /** A file that was downloaded or uploaded. */
  datatype NamedFile = NamedFile(path: seq<byte>, content: seq<byte>)

  /** The logs record what was asked, answered and heard, and which files were served and fetched, offered and stored. */
  datatype State = State(
    client: ClientPhase, server: ServerPhase, toServer: seq<Packet>, toClient: seq<Packet>,
    peer: Peer, files: map<seq<byte>, seq<byte>>,
    asked: nat, answered: nat, heard: nat,
    served: seq<seq<byte>>, fetched: seq<seq<byte>>, offered: seq<NamedFile>, stored: seq<NamedFile>)

  /** The role of a user who is not logged. */
  const ROLE_NONE := 0xFF

  function Start(files: map<seq<byte>, seq<byte>>): State {
    State(Greeting, AwaitGreeting, [], [], Peer(0, false, ROLE_NONE), files, 0, 0, 0, [], [], [], [])
  }

  // ---------------------------------------------------------------- the server's answer to a request

  const VERSION_1_0_0 := Combine(Version(1, 0, 0))

  /** The requirements of the handler of a request, if there is one for its id. */
  function RequirementsOf(id: byte): Option<Requirements> {
    if id == 0x00 || id == 0x21 || id == 0x83 || id == 0x84 then Some(Requirements(VERSION_1_0_0, false, 0))
    else if id == 0x22 || 0x40 <= id <= 0x45 || id == 0x60 || id == 0x61 || 0x80 <= id <= 0x82
    then Some(Requirements(VERSION_1_0_0, true, 0))
    else if id == 0x23 || id == 0xA0 then Some(Requirements(VERSION_1_0_0, true, 2))
    else None
  }

  /** What a handler other than those of the transfers does: its calls, and the login and the files it leaves. */
  datatype Body = Body(actions: seq<Action>, logged: bool, role: nat, files: map<seq<byte>, seq<byte>>)

  function HandlerOf(id: byte, body: Body): Handler {
    if id == IO_GET_FILE_CONTENT then GetContent
    else if id == IO_SET_FILE_CONTENT then SetContent
    else Plain(body.actions)
  }

  function Unknown(): Response {
    Failure(UNKNOWN_REQUEST, [], [])
  }

  function ResponseTo(c: Config, peer: Peer, files: map<seq<byte>, seq<byte>>, request: seq<byte>, body: Body): Response
    requires request != []
  {
    match RequirementsOf(request[0])
    case None => Unknown()
    case Some(req) =>
      Answer(HandlerOf(request[0], body), Refusal(req, peer), request[1..], files, c.locked, c.maxBufferSize, c.texts)
  }

  /** What a request that is answered goes on to transfer. */
  function TransferOf(c: Config, peer: Peer, files: map<seq<byte>, seq<byte>>, request: seq<byte>, body: Body): (t: Transfer)
    requires request != []
    ensures t.Download? || t.Upload? ==> t.bufferSize > 0
  {
    match RequirementsOf(request[0])
    case None => Denied(Unknown())
    case Some(req) =>
      match Refusal(req, peer)
      case Some(id) => Denied(Failure(id, [], []))
      case None => Requested(HandlerOf(request[0], body), request[1..], files, c.locked, c.maxBufferSize, c.texts)
  }

  /** A handler that was allowed to run leaves its login and its files. */
  predicate Ran(peer: Peer, request: seq<byte>, body: Body)
    requires request != []
  {
    var req := RequirementsOf(request[0]);
    req.Some? && Refusal(req.value, peer).None? && HandlerOf(request[0], body).Plain?
  }

  // ---------------------------------------------------------------- the steps

  datatype Step =
    | Greet | ReadFlag | SendVersion | ReadVersion
    | Ask(request: Request) | Quit | HearReply | FetchNext | PushNext
    | TakeGreeting | TakeVersion | TellVersion | TakeRequest
    | Respond(body: Body) | SendNext | ReceiveNext

  predicate Enabled(c: Config, s: State, step: Step) {
    match step
    case Greet => s.client.Greeting?
    case ReadFlag => s.client.AwaitFlag? && s.toClient != []
    case SendVersion => s.client.SayVersion?
    case ReadVersion => s.client.AwaitVersions? && s.toClient != []
    case Ask(r) => s.client.Idle? && ValidRequest(r)
    case Quit => s.client.Idle?
    case HearReply => s.client.Awaiting? && s.toClient != []
    case FetchNext => s.client.Fetching? && s.toClient != []
    case PushNext => s.client.Pushing? && s.client.toPush != []
    case TakeGreeting => s.server.AwaitGreeting? && s.toServer != []
    case TakeVersion => s.server.AwaitVersion? && s.toServer != []
    case TellVersion => s.server.SendVersions? && s.server.left > 0
    case TakeRequest => s.server.Waiting? && s.toServer != []
    case Respond(body) =>
      && s.server.Handling? && s.server.request != [] && SmallFiles(body.files)
      && |Content(ResponseTo(c, s.peer, s.files, s.server.request, body))| < MAX_FRAME
    case SendNext => s.server.Sending? && s.server.toSend != []
    case ReceiveNext => s.server.Receiving? && s.toServer != []
  }

  function Apply(c: Config, s: State, step: Step): State
    requires Enabled(c, s, step)
  {
    match step
    case Greet => s.(client := AwaitFlag, toServer := s.toServer + [Raw(WELCOME)])
    case ReadFlag => HearFlag(s.(toClient := s.toClient[1..]), s.toClient[0])
    case SendVersion => s.(client := AwaitVersions(3), toServer := s.toServer + [Raw(LittleEndian(c.client, 8))])
    case ReadVersion => HearVersion(s.(toClient := s.toClient[1..]), s.toClient[0])
    case Ask(r) => s.(client := Awaiting(r), toServer := s.toServer + [Framed(RequestBytes(r))], asked := s.asked + 1)
    case Quit => s.(client := Gone, toServer := s.toServer + [Framed(QUIT_REQUEST)])
    case HearReply => Hear(s.(toClient := s.toClient[1..], heard := s.heard + 1), s.client.request, s.toClient[0])
    case FetchNext => FetchOne(s.(toClient := s.toClient[1..]), s.toClient[0])
    case PushNext =>
      s.(client := if |s.client.toPush| == 1 then Idle else Pushing(s.client.toPush[1..]),
         toServer := s.toServer + [Framed(s.client.toPush[0])])
    case TakeGreeting => Welcome(s.(toServer := s.toServer[1..]), s.toServer[0])
    case TakeVersion => LearnVersion(s.(toServer := s.toServer[1..]), s.toServer[0])
    case TellVersion =>
      s.(server := if s.server.left == 1 then Waiting else SendVersions(s.server.left - 1),
         toClient := s.toClient + [Raw(LittleEndian(VersionToTell(c, s.server.left), 8))])
    case TakeRequest => Dispatch(s.(toServer := s.toServer[1..]), s.toServer[0])
    case Respond(body) =>
      var request := s.server.request;
      Proceed(s, Content(ResponseTo(c, s.peer, s.files, request, body)), TransferOf(c, s.peer, s.files, request, body),
              if Ran(s.peer, request, body) then Some(body) else None)
    case SendNext =>
      s.(server := if |s.server.toSend| == 1 then Waiting else Sending(s.server.toSend[1..]),
         toClient := s.toClient + [Framed(s.server.toSend[0])])
    case ReceiveNext => ReceiveOne(s.(toServer := s.toServer[1..]), s.toServer[0])
  }

  /** The server's own version, then the oldest and the newest client version. */
  function VersionToTell(c: Config, left: nat): nat {
    if left == 3 then c.server else if left == 2 then c.oldest else c.newest
  }

  function HearFlag(s: State, p: Packet): State {
    if p.Framed? || |p.bytes| != 1 then s.(client := Desynchronised)
    else if p.bytes[0] == 0 then s.(client := TurnedAway)
    else s.(client := SayVersion)
  }

  function HearVersion(s: State, p: Packet): State
    requires s.client.AwaitVersions?
  {
    if p.Framed? || |p.bytes| != 8 || s.client.left == 0 then s.(client := Desynchronised)
    else if s.client.left == 1 then s.(client := Idle)
    else s.(client := AwaitVersions(s.client.left - 1))
  }

  function Hear(s: State, r: Request, p: Packet): State {
    if p.Raw? then s.(client := Desynchronised)
    else
      match r
      case Other(_, _) => s.(client := Idle)
      case Fetch(_, chunk) =>
        (match Sizes(ReadReply(p.bytes))
         case None => s.(client := Idle)
         case Some((size, count)) => Fetched(s.(client := Fetching(size, count, chunk, 0, []))))
      case Push(path, content, chunk) =>
        if !ReadReply(p.bytes).Granted? || chunk == 0 then s.(client := Idle)
        else s.(client := Pushing(UploadFrames(content, chunk)), offered := s.offered + [NamedFile(SentPath(path), content)])
  }

  /** The client's loop ends when it has taken all frames. */
  function Fetched(s: State): State
    requires s.client.Fetching?
  {
    if s.client.taken < s.client.count then s else s.(client := Idle, fetched := s.fetched + [s.client.copy])
  }

  /** One frame of a download: the part of it that belongs to the file is written. */
  function FetchOne(s: State, p: Packet): State
    requires s.client.Fetching?
  {
    var f := s.client;
    if p.Raw? || f.chunk == 0 then s.(client := Desynchronised)
    else
      var n := if f.taken + 1 == f.count then f.size % f.chunk else f.chunk;
      if |p.bytes| < n then s.(client := Desynchronised)
      else Fetched(s.(client := f.(taken := f.taken + 1, copy := f.copy + p.bytes[..n])))
  }

  function Welcome(s: State, p: Packet): State {
    if p == Raw(WELCOME) then s.(server := AwaitVersion, toClient := s.toClient + [Raw([1])])
    else s.(server := Closed, toClient := s.toClient + [Raw([0])])
  }

  function LearnVersion(s: State, p: Packet): State {
    if p.Framed? || |p.bytes| != 8 then s.(server := Confused)
    else s.(server := SendVersions(3), peer := s.peer.(version := Combine(FromCombined(ValueOf(p.bytes)))))
  }

  /** An empty request is ignored, and `Quit` ends the session; neither is answered. */
  function Dispatch(s: State, p: Packet): State {
    if p.Raw? then s.(server := Confused)
    else if p.bytes == [] then s
    else if p.bytes[0] == QUIT then s.(server := Closed)
    else s.(server := Handling(p.bytes))
  }

  /** The server sends its response and goes on to what it grants. */
  function Proceed(s: State, response: seq<byte>, t: Transfer, ran: Option<Body>): State
    requires t.Download? ==> t.bufferSize > 0
  {
    var r := s.(toClient := s.toClient + [Framed(response)], answered := s.answered + 1);
    match t
    case Download(content, chunk) =>
      r.(server := Sending(DownloadFrames(content, chunk, Zeros(chunk))), served := s.served + [content])
    case Upload(path, _, _, count) => Stored(r.(server := Receiving(path, count, [])))
    case Denied(_) =>
      if ran.Some?
      then r.(server := Waiting, files := ran.value.files, peer := s.peer.(logged := ran.value.logged, role := ran.value.role))
      else r.(server := Waiting)
  }

  /** The server's loop ends when it has read all frames. */
  function Stored(s: State): State
    requires s.server.Receiving?
  {
    var r := s.server;
    if r.left > 0 then s
    else s.(server := Waiting, files := s.files[r.path := r.got], stored := s.stored + [NamedFile(r.path, r.got)])
  }

  function ReceiveOne(s: State, p: Packet): State
    requires s.server.Receiving?
  {
    var r := s.server;
    if p.Raw? || r.left == 0 then s.(server := Confused)
    else Stored(s.(server := r.(left := r.left - 1, got := r.got + p.bytes)))
  }
}
