/** The server's request handlers: whatever a handler does, exactly one response frame leaves, before any data. */
module RequestHandlers {
  import opened ArrayEditors
  import opened Bytes
  import opened Framing
  import opened Options
  import opened Responses
  import opened Seqs
  import opened Transfers

  datatype Requirements = Requirements(min_version: nat, must_be_logged: bool, min_role: nat)

  /** What the session knows of the client: its version (combined), whether it is logged, the role of its user. */
  datatype Peer = Peer(version: nat, logged: bool, role: nat)

  /** The texts of the error messages a handler writes itself. */
  datatype Texts = Texts(invalidRequest: seq<byte>, invalidBufferSize: seq<byte>, openFileError: seq<byte>)

  /** The error of the first requirement that is not met. */
  function Refusal(req: Requirements, peer: Peer): Option<byte> {
    if peer.version < req.min_version then Some(VERSION_TOO_OLD)
    else if req.must_be_logged && !peer.logged then Some(NOT_LOGGED)
    else if peer.role < req.min_role then Some(INVALID_PERMISSIONS)
    else None
  }

  /** Nothing is refused if and only if all three requirements are met; else it is the first that is not. */
  lemma RefusalMeans(req: Requirements, peer: Peer)
    ensures Refusal(req, peer).None? <==>
              peer.version >= req.min_version && (req.must_be_logged ==> peer.logged) && peer.role >= req.min_role
    ensures peer.version < req.min_version ==> Refusal(req, peer) == Some(0x00)
    ensures peer.version >= req.min_version && req.must_be_logged && !peer.logged ==> Refusal(req, peer) == Some(0x10)
    ensures peer.version >= req.min_version && (req.must_be_logged ==> peer.logged) && peer.role < req.min_role ==>
              Refusal(req, peer) == Some(0x20)
  {
  }

  // ---------------------------------------------------------------- what a handler body may do

  /** The calls a handler makes on its request analyzer, its response builder and `sendResponse`. */
  datatype Action =
    | Take(kind: Kind)
    | ReportInvalid
    | Insert(field: Field)
    | Fail(id: byte, message: seq<byte>)
    | Send

  predicate Sends(actions: seq<Action>) {
    actions != [] && (Last(actions) == Send || Sends(Init(actions)))
  }

  /** The actions before the first `Send`. */
  function UpToSend(actions: seq<Action>): seq<Action> {
    if !Sends(actions) then actions else if Sends(Init(actions)) then UpToSend(Init(actions)) else Init(actions)
  }

  function Last<T>(s: seq<T>): T
    requires s != []
  {
    s[|s| - 1]
  }

  function Init<T>(s: seq<T>): seq<T>
    requires s != []
  {
    s[..|s| - 1]
  }

  /** The kinds of all extractions, in order. */
  function Takes(actions: seq<Action>): seq<Kind> {
    if actions == [] then []
    else Takes(Init(actions)) + if Last(actions).Take? then [Last(actions).kind] else []
  }

  /** All the inserted fields, in order. */
  function Inserts(actions: seq<Action>): seq<Field> {
    if actions == [] then []
    else Inserts(Init(actions)) + if Last(actions).Insert? then [Last(actions).field] else []
  }

  /** Some extraction from `body` fails. */
  predicate Invalid(actions: seq<Action>, body: seq<byte>) {
    !ExtractAll(Takes(actions), body).2
  }

  /** `getLastError` of the analyzer. */
  function LastError(actions: seq<Action>, body: seq<byte>, text: seq<byte>): seq<byte> {
    if Invalid(actions, body) then text else []
  }

  /** The error built last. */
  function Reported(actions: seq<Action>, body: seq<byte>, text: seq<byte>): Option<(byte, seq<byte>)> {
    if actions == [] then None
    else
      match Last(actions)
      case Fail(id, message) => Some((id, message))
      case ReportInvalid => Some((INVALID_REQUEST_DATA, LastError(Init(actions), body, text)))
      case _ => Reported(Init(actions), body, text)
  }

  /** What one call makes of the response under construction; `error` is the analyzer's last error. */
  function BuildOn(before: Response, action: Action, error: seq<byte>): Response {
    match action
    case Insert(f) => With(before, f)
    case Fail(id, message) => Failure(id, message, [])
    case ReportInvalid => Failure(INVALID_REQUEST_DATA, error, [])
    case _ => before
  }

  /** The response as the builder holds it after these actions. */
  function Built(actions: seq<Action>, body: seq<byte>, text: seq<byte>): Response {
    if actions == [] then Normal([])
    else BuildOn(Built(Init(actions), body, text), Last(actions), LastError(Init(actions), body, text))
  }

  lemma {:induction false} BuiltMeans(actions: seq<Action>, body: seq<byte>, text: seq<byte>)
    ensures var r := Built(actions, body, text);
            match Reported(actions, body, text)
            case None => r == Normal(Inserts(actions))
            case Some((id, message)) => r.Failure? && r.id == id && r.message == message
    decreases |actions|
  {
    if actions != [] {
      BuiltMeans(Init(actions), body, text);
      assert Inserts(Init(actions)) + [] == Inserts(Init(actions));
    }
  }

  /** The one response of a handler: an unmet requirement; or what was built when the handler sent it; or, if it did
      not, an invalid request, or what was built in the end. */
  function FinalResponse(refusal: Option<byte>, actions: seq<Action>, body: seq<byte>, text: seq<byte>): Response {
    if refusal.Some? then Failure(refusal.value, [], [])
    else if Sends(actions) then Built(UpToSend(actions), body, text)
    else if Invalid(actions, body) then Failure(INVALID_REQUEST_DATA, text, [])
    else Built(actions, body, text)
  }

  /** What these actions have answered, in terms of the errors reported and the fields inserted. */
  function Answered(actions: seq<Action>, body: seq<byte>, text: seq<byte>): Reply {
    match Reported(actions, body, text)
    case None => Granted(EncodeAll(Inserts(actions)))
    case Some((id, message)) => Refused(id, Cut(2, message))
  }

  /** What the client reads: the last error reported before sending, whatever was inserted before or after it, and
      only without one the fields; an unmet requirement comes first, an invalid request overrides what was not sent. */
  lemma ClientReads(refusal: Option<byte>, actions: seq<Action>, body: seq<byte>, text: seq<byte>)
    ensures ReadReply(Content(FinalResponse(refusal, actions, body, text))) ==
            if refusal.Some? then Refused(refusal.value, [])
            else if Sends(actions) then Answered(UpToSend(actions), body, text)
            else if Invalid(actions, body) then Refused(INVALID_REQUEST_DATA, Cut(2, text))
            else Answered(actions, body, text)
  {
    ReplyIsMeaning(FinalResponse(refusal, actions, body, text));
    BuiltMeans(actions, body, text);
    BuiltMeans(UpToSend(actions), body, text);
  }

  lemma {:induction false} ExtractSnoc(kinds: seq<Kind>, kind: Kind, ahead: seq<byte>)
    ensures var r := ExtractAll(kinds, ahead); var s := ExtractAll(kinds + [kind], ahead);
            if !r.2 then !s.2
            else (s.2 <==> Extract(kind, r.1).Got?) && s.1 == Extract(kind, r.1).rest
    decreases |kinds|
  {
    if kinds == [] {
      assert [] + [kind] == [kind];
    } else {
      assert (kinds + [kind])[1..] == kinds[1..] + [kind];
      match Extract(kinds[0], ahead)
      case Failed(_) =>
      case Got(_, rest) => ExtractSnoc(kinds[1..], kind, rest);
    }
  }

  /** What one more action changes. */
  lemma OneMoreAction(done: seq<Action>, action: Action, body: seq<byte>, text: seq<byte>)
    ensures var next := done + [action];
            && Takes(next) == Takes(done) + (if action.Take? then [action.kind] else [])
            && Sends(next) == (Sends(done) || action == Send)
            && UpToSend(next) == (if Sends(done) then UpToSend(done) else if action == Send then done else next)
            && Built(next, body, text) == BuildOn(Built(done, body, text), action, LastError(done, body, text))
  {
    var next := done + [action];
    assert Init(next) == done && Last(next) == action;
  }

  /** An action that extracts nothing leaves the extractions. */
  lemma NoneTaken(done: seq<Action>, action: Action, body: seq<byte>)
    requires !action.Take?
    ensures Takes(done + [action]) == Takes(done) && Invalid(done + [action], body) == Invalid(done, body)
  {
    OneMoreAction(done, action, body, []);
    Unit(Takes(done));
  }

  // ---------------------------------------------------------------- transfers

  /** The paths of a user's files, as a request names them, and the paths that cannot be opened for writing. */
  class Disk {
    var files: map<seq<byte>, seq<byte>>
    const locked: set<seq<byte>>

    constructor (files: map<seq<byte>, seq<byte>>, locked: set<seq<byte>>)
      ensures this.files == files && this.locked == locked
    {
      this.files := files;
      this.locked := locked;
    }
  }

  /** The position in a file is a signed 64-bit number. */
  const FILE_LIMIT := 0x8000_0000_0000_0000

  predicate SmallFiles(files: map<seq<byte>, seq<byte>>) {
    forall path :: path in files ==> |files[path]| < FILE_LIMIT
  }

  /** What the server makes of a download or an upload request. */
  datatype Transfer =
    | Denied(response: Response)
    | Download(content: seq<byte>, bufferSize: nat)
    | Upload(path: seq<byte>, fileSize: nat, bufferSize: nat, bufferCount: nat)

  function Opening(body: seq<byte>, files: map<seq<byte>, seq<byte>>, max: nat, texts: Texts): (r: Transfer)
    ensures r.Download? ==> 0 < r.bufferSize <= max
    ensures !r.Upload?
  {
    var invalid := Denied(Failure(INVALID_REQUEST_DATA, texts.invalidRequest, []));
    match Extract(BufferKind(2), body)
    case Failed(_) => invalid
    case Got(path, rest) =>
      match Extract(IntKind(4), rest)
      case Failed(_) => invalid
      case Got(size, _) =>
        if !(0 < size.value <= max) then Denied(Failure(IO_INVALID_BUFFER_SIZE, texts.invalidBufferSize, []))
        else if path.content !in files then Denied(Failure(IO_OPEN_FILE_ERROR, texts.openFileError, []))
        else Download(files[path.content], size.value)
  }

  function Creating(body: seq<byte>, locked: set<seq<byte>>, max: nat, texts: Texts): (r: Transfer)
    ensures r.Upload? ==> 0 < r.bufferSize <= max
    ensures !r.Download?
  {
    var invalid := Denied(Failure(INVALID_REQUEST_DATA, texts.invalidRequest, []));
    match Extract(BufferKind(2), body)
    case Failed(_) => invalid
    case Got(path, rest) =>
      match Announcement(rest)
      case None => invalid
      case Some((fileSize, size, count)) =>
        if !(0 < size <= max) then Denied(Failure(IO_INVALID_BUFFER_SIZE, texts.invalidBufferSize, []))
        else if path.content in locked then Denied(Failure(IO_OPEN_FILE_ERROR, texts.openFileError, []))
        else Upload(path.content, fileSize, size, count)
  }

  /** File size, buffer size and frame count. */
  function Announcement(ahead: seq<byte>): Option<(nat, nat, nat)> {
    match Extract(IntKind(8), ahead)
    case Failed(_) => None
    case Got(fileSize, afterSize) =>
      match Extract(IntKind(4), afterSize)
      case Failed(_) => None
      case Got(size, afterBufferSize) =>
        match Extract(IntKind(8), afterBufferSize)
        case Failed(_) => None
        case Got(count, _) => Some((fileSize.value, size.value, count.value))
  }

  /** The fields of the response that opens a download. */
  function SizeFields(content: seq<byte>, bufferSize: nat): seq<Field>
    requires bufferSize > 0
  {
    [IntField(8, |content|), IntField(8, Count(|content|, bufferSize))]
  }

  lemma SizesInRange(content: seq<byte>, bufferSize: nat)
    requires |content| < FILE_LIMIT && bufferSize > 0
    ensures forall f :: f in SizeFields(content, bufferSize) ==> InRange(f)
  {
    Widths();
    QuotientBound(|content|, bufferSize);
  }

  lemma QuotientBound(v: nat, d: nat)
    requires d > 0
    ensures v / d <= v
  {
    if v < d {
      DivSmall(v, d);
    } else {
      DivDown(v, d);
      QuotientBound(v - d, d);
    }
  }

  /** The response to a download or an upload request. */
  function Opened(t: Transfer): Response
    requires t.Download? ==> t.bufferSize > 0
  {
    match t
    case Denied(r) => r
    case Download(content, bufferSize) => Normal(SizeFields(content, bufferSize))
    case Upload(_, _, _, _) => Normal([])
  }

  // ---------------------------------------------------------------- the handler

  /** The handlers: the two that transfer files, and all the others by the calls they make. */
  datatype Handler = Plain(actions: seq<Action>) | GetContent | SetContent

  /** The response of a handler. */
  function Answer(handler: Handler, refusal: Option<byte>, body: seq<byte>, files: map<seq<byte>, seq<byte>>,
                  locked: set<seq<byte>>, max: nat, texts: Texts): Response
  {
    match handler
    case Plain(actions) => FinalResponse(refusal, actions, body, texts.invalidRequest)
    case _ => if refusal.Some? then Failure(refusal.value, [], []) else Opened(Requested(handler, body, files, locked, max, texts))
  }

  /** What a handler whose requirements are met transfers. */
  function Requested(handler: Handler, body: seq<byte>, files: map<seq<byte>, seq<byte>>, locked: set<seq<byte>>,
                     max: nat, texts: Texts): (r: Transfer)
    ensures r.Download? || r.Upload? ==> 0 < r.bufferSize <= max
  {
    match handler
    case GetContent => Opening(body, files, max, texts)
    case SetContent => Creating(body, locked, max, texts)
    case Plain(actions) => Denied(FinalResponse(None, actions, body, texts.invalidRequest))
  }

  predicate PlainInRange(handler: Handler) {
    handler.Plain? ==> forall i :: 0 <= i < |handler.actions| && handler.actions[i].Insert? ==> InRange(handler.actions[i].field)
  }

  /** Everything a handler sends: the response frame, and for a download the frames of the file. */
  function Sent(handler: Handler, refusal: Option<byte>, body: seq<byte>, files: map<seq<byte>, seq<byte>>,
                locked: set<seq<byte>>, max: nat, texts: Texts): (r: seq<seq<byte>>)
    ensures r != [] && r[0] == Content(Answer(handler, refusal, body, files, locked, max, texts))
  {
    var t := Requested(handler, body, files, locked, max, texts);
    [Content(Answer(handler, refusal, body, files, locked, max, texts))]
    + if refusal.None? && t.Download? then DownloadFrames(t.content, t.bufferSize, Zeros(t.bufferSize)) else []
  }

  /** What a request does to the files and to the bytes the server still has to read. */
  ghost predicate Effect(t: Transfer, before: map<seq<byte>, seq<byte>>, files: map<seq<byte>, seq<byte>>,
                         input: seq<byte>, rest: seq<byte>)
  {
    if t.Upload? then Received(t, before, files, input, rest) else files == before && rest == input
  }

  /** After an upload: the frames that arrived are the file. */
  ghost predicate Received(t: Transfer, before: map<seq<byte>, seq<byte>>, files: map<seq<byte>, seq<byte>>,
                           input: seq<byte>, rest: seq<byte>)
    requires t.Upload?
  {
    var r := ReadFrames(input, t.bufferCount);
    files == before[t.path := Concat(r.0)] && rest == r.1
  }

  class RH {
    const requirements: Requirements
    const peer: Peer
    const texts: Texts
    const max_buffer_size: nat
    const request: ArrayAnalyzer
    const response: ResponseBuilder
    /** To the client. */
    const socket: Channel
    var response_sent: bool

    constructor (requirements: Requirements, peer: Peer, texts: Texts, maxBufferSize: nat, body: seq<byte>, socket: Channel)
      ensures this.requirements == requirements && this.peer == peer && this.texts == texts && this.socket == socket
      ensures max_buffer_size == maxBufferSize && !response_sent
      ensures fresh(request) && fresh(response) && fresh(response.base)
      ensures request.data == body && request.cursor == 0 && !request.is_error
    {
      this.requirements := requirements;
      this.peer := peer;
      this.texts := texts;
      max_buffer_size := maxBufferSize;
      this.socket := socket;
      request := new ArrayAnalyzer(body);
      response := new ResponseBuilder();
      response_sent := false;
    }

    /** Nothing was taken from the request or sent yet. */
    ghost predicate Begun()
      reads this, request, response, response.base
    {
      request.cursor == 0 && !request.is_error && !response_sent && response.Valid() && response.Value() == Normal([])
    }

    method sendResponse() returns (ok: bool)
      modifies this`response_sent, socket
      ensures response_sent && ok == !old(response_sent)
      ensures socket.bytes == if ok then old(socket.bytes) + Frame(response.base.data) else old(socket.bytes)
    {
      if response_sent {
        return false;
      }
      response_sent := true;
      socket.sendBuffer(response.base.data);
      ok := true;
    }

    method checkVersion() returns (ok: bool)
      modifies response, response.base
      ensures ok == (peer.version >= requirements.min_version)
      ensures if ok then unchanged(response) && unchanged(response.base)
              else response.Valid() && response.Value() == Failure(VERSION_TOO_OLD, [], [])
    {
      if peer.version < requirements.min_version {
        response.buildError(VERSION_TOO_OLD, []);
        return false;
      }
      ok := true;
    }

    method checkMustBeLogged() returns (ok: bool)
      modifies response, response.base
      ensures ok == (requirements.must_be_logged ==> peer.logged)
      ensures if ok then unchanged(response) && unchanged(response.base)
              else response.Valid() && response.Value() == Failure(NOT_LOGGED, [], [])
    {
      if requirements.must_be_logged && !peer.logged {
        response.buildError(NOT_LOGGED, []);
        return false;
      }
      ok := true;
    }

    method checkMinRole() returns (ok: bool)
      modifies response, response.base
      ensures ok == (peer.role >= requirements.min_role)
      ensures if ok then unchanged(response) && unchanged(response.base)
              else response.Valid() && response.Value() == Failure(INVALID_PERMISSIONS, [], [])
    {
      if peer.role < requirements.min_role {
        response.buildError(INVALID_PERMISSIONS, []);
        return false;
      }
      ok := true;
    }

    method ExtractField(kind: Kind) returns (ok: bool, field: Field)
      requires request.Valid()
      modifies request`cursor, request`is_error
      ensures request.Valid() && request.Extracted(ok, field, kind)
    {
      match kind
      case IntKind(w) =>
        var v;
        ok, v := request.extractInt(w);
        field := IntField(w, v);
      case BoolKind =>
        var b;
        ok, b := request.extractBool();
        field := BoolField(b);
      case BufferKind(w) =>
        var content;
        ok, content := request.extractBuffer(w);
        field := BufferField(w, content);
    }

    /** These actions are done; `start` is what had been sent before. */
    ghost predicate Performed(done: seq<Action>, start: seq<byte>)
      reads this, request, response, response.base, socket
    {
      var body, text := request.data, texts.invalidRequest;
      && request.Valid() && request.is_error == Invalid(done, body)
      && (!Invalid(done, body) ==> request.Ahead() == ExtractAll(Takes(done), body).1)
      && response.Valid() && response.Value() == Built(done, body, text)
      && response_sent == Sends(done)
      && socket.bytes == if Sends(done) then start + Frame(Content(Built(UpToSend(done), body, text))) else start
    }

    /** One extraction. */
    method TakeField(kind: Kind, ghost done: seq<Action>, ghost start: seq<byte>)
      requires Performed(done, start)
      modifies request`cursor, request`is_error
      ensures Performed(done + [Take(kind)], start)
    {
      OneMoreAction(done, Take(kind), request.data, texts.invalidRequest);
      ExtractSnoc(Takes(done), kind, request.data);
      var ok, field := ExtractField(kind);
    }

    /** A field inserted. */
    method Put(f: Field, ghost done: seq<Action>, ghost start: seq<byte>)
      requires Performed(done, start) && InRange(f)
      modifies response, response.base
      ensures Performed(done + [Insert(f)], start)
    {
      OneMoreAction(done, Insert(f), request.data, texts.invalidRequest);
      NoneTaken(done, Insert(f), request.data);
      response.InsertField(f);
    }

    /** An error built. */
    method Report(id: byte, message: seq<byte>, action: Action, ghost done: seq<Action>, ghost start: seq<byte>)
      requires Performed(done, start) && !action.Take? && !action.Send?
      requires BuildOn(Built(done, request.data, texts.invalidRequest), action, LastError(done, request.data, texts.invalidRequest))
            == Failure(id, message, [])
      modifies response, response.base
      ensures Performed(done + [action], start)
    {
      OneMoreAction(done, action, request.data, texts.invalidRequest);
      NoneTaken(done, action, request.data);
      response.buildError(id, message);
    }

    /** One call. */
    method Act(action: Action, ghost done: seq<Action>, ghost start: seq<byte>)
      requires Performed(done, start) && (action.Insert? ==> InRange(action.field))
      modifies this`response_sent, request`cursor, request`is_error, response, response.base, socket
      ensures Performed(done + [action], start)
    {
      match action {
        case Take(kind) =>
          TakeField(kind, done, start);
        case Send =>
          OneMoreAction(done, action, request.data, texts.invalidRequest);
          NoneTaken(done, action, request.data);
          var ok := sendResponse();
        case Insert(f) =>
          Put(f, done, start);
        case Fail(id, message) =>
          Report(id, message, action, done, start);
        case ReportInvalid =>
          Report(INVALID_REQUEST_DATA, if request.is_error then texts.invalidRequest else [], action, done, start);
      }
    }

    lemma NothingPerformed()
      requires Begun()
      ensures Performed([], socket.bytes)
    {
      assert request.data[0..] == request.data;
    }

    /** The handler's own part, by the calls it makes: at most one response is sent, the one built up to the first
        `sendResponse`. */
    method Perform(actions: seq<Action>)
      requires Begun() && PlainInRange(Plain(actions))
      modifies this`response_sent, request`cursor, request`is_error, response, response.base, socket
      ensures Performed(actions, old(socket.bytes))
    {
      ghost var start := socket.bytes;
      NothingPerformed();
      ghost var done: seq<Action> := [];
      for i := 0 to |actions|
        invariant done == actions[..i] && Performed(done, start)
      {
        OneMore(actions, i);
        Act(actions[i], done, start);
        done := done + [actions[i]];
      }
      assert actions[..|actions|] == actions;
    }

    /** `extractAbsPath`: a path that cannot be taken is reported at once. */
    method extractPath() returns (ok: bool, path: seq<byte>)
      requires request.Valid() && !request.is_error && response.Valid()
      modifies request`cursor, request`is_error, response, response.base
      ensures request.Valid() && request.Extracted(ok, BufferField(2, path), BufferKind(2)) && response.Valid()
      ensures response.Value() == if ok then old(response.Value()) else Failure(INVALID_REQUEST_DATA, texts.invalidRequest, [])
    {
      ok, path := request.extractBuffer(2);
      if !ok {
        response.buildError(INVALID_REQUEST_DATA, texts.invalidRequest);
      }
    }

    method checkBufferSize(bufferSize: nat) returns (ok: bool)
      modifies response, response.base
      ensures ok == (0 < bufferSize <= max_buffer_size)
      ensures if ok then unchanged(response) && unchanged(response.base)
              else response.Valid() && response.Value() == Failure(IO_INVALID_BUFFER_SIZE, texts.invalidBufferSize, [])
    {
      if bufferSize == 0 || bufferSize > max_buffer_size {
        response.buildError(IO_INVALID_BUFFER_SIZE, texts.invalidBufferSize);
        return false;
      }
      ok := true;
    }

    /** What is so when a handler did not get to send its response: it is that of the denied request. */
    ghost predicate Refusing(t: Transfer)
      reads this, request, response, response.base
    {
      && t.Denied? && !response_sent && response.Valid()
      && (if request.is_error then t.response == Failure(INVALID_REQUEST_DATA, texts.invalidRequest, [])
          else response.Value() == t.response)
    }

    /** The checks of the download handler, up to opening the file. */
    method AcceptDownload(disk: Disk) returns (ok: bool, path: seq<byte>, bufferSize: nat)
      requires Begun()
      modifies request`cursor, request`is_error, response, response.base
      ensures var t := Opening(request.data, disk.files, max_buffer_size, texts);
              if ok then
                && path in disk.files && t == Download(disk.files[path], bufferSize)
                && !request.is_error && response.Valid() && response.Value() == Normal([])
              else Refusing(t)
    {
      assert request.Ahead() == request.data;
      bufferSize := 0;
      ok, path := extractPath();
      if !ok {
        return;
      }
      ok, bufferSize := request.extractInt(4);
      if !ok {
        return;
      }
      ok := checkBufferSize(bufferSize);
      if !ok {
        return;
      }
      if path !in disk.files {
        response.buildError(IO_OPEN_FILE_ERROR, texts.openFileError);
        ok := false;
      }
    }

    /** `_run` of the download handler. */
    method GetFileContent(disk: Disk)
      requires Begun() && SmallFiles(disk.files)
      modifies this`response_sent, request`cursor, request`is_error, response, response.base, socket
      ensures var t := Opening(request.data, disk.files, max_buffer_size, texts);
              if t.Denied? then Refusing(t) && unchanged(socket)
              else
                && response_sent && !request.is_error && response.Valid()
                && socket.bytes == old(socket.bytes) + Frame(Content(Opened(t)))
                                   + Frames(DownloadFrames(t.content, t.bufferSize, Zeros(t.bufferSize)))
    {
      var ok, path, bufferSize := AcceptDownload(disk);
      if ok {
        SendFile(disk.files[path], bufferSize);
      }
    }

    /** Size and frame count, and then the file. */
    method SendFile(content: seq<byte>, bufferSize: nat)
      requires response.Valid() && response.Value() == Normal([]) && !response_sent
      requires bufferSize > 0 && |content| < FILE_LIMIT
      modifies this`response_sent, response, response.base, socket
      ensures response_sent && response.Valid()
      ensures socket.bytes == old(socket.bytes) + Frame(Content(Opened(Download(content, bufferSize))))
                              + Frames(DownloadFrames(content, bufferSize, Zeros(bufferSize)))
    {
      var file := new InputFile(content);
      var fileSize := |file.content|;
      var bufferCount := fileSize / bufferSize + 1;
      SizesInRange(content, bufferSize);
      assert SizeFields(content, bufferSize) == [] + [IntField(8, fileSize)] + [IntField(8, bufferCount)];
      response.InsertField(IntField(8, fileSize));
      response.InsertField(IntField(8, bufferCount));
      var ok := sendResponse();
      assert file.Ahead() == content;
      ReadsExact(content, bufferSize, Zeros(bufferSize));
      TransmitDownload(file, fileSize, bufferSize, socket);
    }

    /** `extractFileSize`, `extractBufferSize` and `extractBufferCount`. */
    method ExtractAnnouncement() returns (ok: bool, fileSize: nat, bufferSize: nat, bufferCount: nat)
      requires request.Valid() && !request.is_error
      modifies request`cursor, request`is_error
      ensures request.Valid() && request.is_error == !ok
      ensures match Announcement(old(request.Ahead()))
              case None => !ok
              case Some(numbers) => ok && numbers == (fileSize, bufferSize, bufferCount)
    {
      fileSize, bufferSize, bufferCount := 0, 0, 0;
      ok, fileSize := request.extractInt(8);
      if !ok {
        return;
      }
      ok, bufferSize := request.extractInt(4);
      if !ok {
        return;
      }
      ok, bufferCount := request.extractInt(8);
    }

    /** The checks of the upload handler, up to opening the file. */
    method AcceptUpload(disk: Disk) returns (ok: bool, path: seq<byte>, fileSize: nat, bufferSize: nat, bufferCount: nat)
      requires Begun()
      modifies request`cursor, request`is_error, response, response.base
      ensures var t := Creating(request.data, disk.locked, max_buffer_size, texts);
              if ok then
                && t == Upload(path, fileSize, bufferSize, bufferCount)
                && !request.is_error && response.Valid() && response.Value() == Normal([])
              else Refusing(t)
    {
      assert request.Ahead() == request.data;
      fileSize, bufferSize, bufferCount := 0, 0, 0;
      ok, path := extractPath();
      if !ok {
        return;
      }
      ok, fileSize, bufferSize, bufferCount := ExtractAnnouncement();
      if !ok {
        return;
      }
      ok := checkBufferSize(bufferSize);
      if !ok {
        return;
      }
      if path in disk.locked {
        response.buildError(IO_OPEN_FILE_ERROR, texts.openFileError);
        ok := false;
      }
    }

    /** `_run` of the upload handler: every announced frame goes to the file. */
    method SetFileContent(disk: Disk, input: Channel)
      requires Begun() && input != socket
      modifies this`response_sent, request`cursor, request`is_error, response, response.base, socket, disk, input
      ensures var t := Creating(request.data, disk.locked, max_buffer_size, texts);
              if t.Denied? then Refusing(t) && unchanged(socket) && unchanged(disk) && unchanged(input)
              else
                && response_sent && !request.is_error && response.Valid()
                && socket.bytes == old(socket.bytes) + Frame(Content(Normal([])))
                && Received(t, old(disk.files), disk.files, old(input.bytes), input.bytes)
    {
      var ok, path, fileSize, bufferSize, bufferCount := AcceptUpload(disk);
      if ok {
        var sent := sendResponse();
        ReceiveFile(disk, path, fileSize, bufferSize, bufferCount, input);
      }
    }

    /** The announced frames become the new content of the file. */
    method ReceiveFile(disk: Disk, path: seq<byte>, fileSize: nat, bufferSize: nat, bufferCount: nat, input: Channel)
      requires bufferSize > 0
      modifies disk, input
      ensures Received(Upload(path, fileSize, bufferSize, bufferCount), old(disk.files), disk.files, old(input.bytes), input.bytes)
    {
      ghost var r := ReadFrames(input.bytes, bufferCount);
      var file := new OutputFile();
      var ok := TransmitUpload(file, fileSize, bufferSize, bufferCount, input);
      assert [] + Concat(r.0) == Concat(r.0);
      disk.files := disk.files[path := file.content];
    }

    /** The frame that `run` still sends after the handler's own part. */
    ghost function Pending(): seq<byte>
      reads this, request, response, response.base
    {
      if response_sent then []
      else Frame(Content(if request.is_error then Failure(INVALID_REQUEST_DATA, texts.invalidRequest, []) else response.Value()))
    }

    /** The virtual `_run`. */
    method Handle(handler: Handler, disk: Disk, input: Channel)
      requires Begun() && PlainInRange(handler) && SmallFiles(disk.files) && input != socket
      modifies this`response_sent, request`cursor, request`is_error, response, response.base, socket, disk, input
      ensures response.Valid()
      ensures socket.bytes + Pending() ==
              old(socket.bytes) + Frames(Sent(handler, None, request.data, old(disk.files), disk.locked, max_buffer_size, texts))
      ensures Effect(Requested(handler, request.data, old(disk.files), disk.locked, max_buffer_size, texts),
                     old(disk.files), disk.files, old(input.bytes), input.bytes)
    {
      ghost var sent := Sent(handler, None, request.data, disk.files, disk.locked, max_buffer_size, texts);
      ghost var t := Requested(handler, request.data, disk.files, disk.locked, max_buffer_size, texts);
      match handler {
        case Plain(actions) =>
          Perform(actions);
          Settled(old(socket.bytes), sent, Content(FinalResponse(None, actions, request.data, texts.invalidRequest)), []);
        case GetContent =>
          GetFileContent(disk);
          Settled(old(socket.bytes), sent, Content(Opened(t)),
                  if t.Download? then DownloadFrames(t.content, t.bufferSize, Zeros(t.bufferSize)) else []);
        case SetContent =>
          SetFileContent(disk, input);
          Settled(old(socket.bytes), sent, Content(Opened(t)), []);
      }
      assert socket.bytes + [] == socket.bytes;
    }

    method CheckRequirements() returns (ok: bool)
      modifies response, response.base
      ensures ok <==> peer.version >= requirements.min_version && (requirements.must_be_logged ==> peer.logged)
                      && peer.role >= requirements.min_role
      ensures ok ==> unchanged(response) && unchanged(response.base)
      ensures !ok ==> response.Valid() && response.Value() ==
                        Failure(if peer.version < requirements.min_version then 0x00
                                else if requirements.must_be_logged && !peer.logged then 0x10 else 0x20, [], [])
    {
      ok := checkVersion();
      if ok {
        ok := checkMustBeLogged();
        if ok {
          ok := checkMinRole();
        }
      }
    }

    /** Exactly one response frame, before any data; then what the request asked to be transferred. The handler's own
        part runs if and only if the version, the login and the role of the peer meet the requirements; if not, the one
        frame is the error of the first of them that does not, and nothing else happens. */
    method run(handler: Handler, disk: Disk, input: Channel)
      requires request.cursor == 0 && !request.is_error && !response_sent && PlainInRange(handler)
      requires SmallFiles(disk.files) && input != socket
      modifies this`response_sent, request`cursor, request`is_error, response, response.base, socket, disk, input
      ensures socket.bytes == old(socket.bytes) + Frames(Sent(handler, Refusal(requirements, peer), request.data,
                                                              old(disk.files), disk.locked, max_buffer_size, texts))
      ensures if Refusal(requirements, peer).Some? then unchanged(disk) && unchanged(input)
              else Effect(Requested(handler, request.data, old(disk.files), disk.locked, max_buffer_size, texts),
                          old(disk.files), disk.files, old(input.bytes), input.bytes)
      ensures if peer.version >= requirements.min_version && (requirements.must_be_logged ==> peer.logged)
                 && peer.role >= requirements.min_role
              then
                && socket.bytes == old(socket.bytes) + Frames(Sent(handler, None, request.data, old(disk.files), disk.locked,
                                                                   max_buffer_size, texts))
                && Effect(Requested(handler, request.data, old(disk.files), disk.locked, max_buffer_size, texts),
                          old(disk.files), disk.files, old(input.bytes), input.bytes)
              else
                && unchanged(disk) && unchanged(input)
                && socket.bytes == old(socket.bytes) +
                     Frame([0xFF, if peer.version < requirements.min_version then 0x00
                                  else if requirements.must_be_logged && !peer.logged then 0x10 else 0x20, 0x00, 0x00])
    {
      RefusalMeans(requirements, peer);
      RefusedFrame(socket.bytes, handler, requirements, peer, request.data, disk.files, disk.locked, max_buffer_size, texts);
      ghost var sent := Sent(handler, Refusal(requirements, peer), request.data, disk.files, disk.locked, max_buffer_size, texts);
      FramesHead(old(socket.bytes), sent);
      response.buildNormal();
      var ok := CheckRequirements();
      if response.kind == OK {
        Handle(handler, disk, input);
      }
      assert socket.bytes + Pending() == old(socket.bytes) + Frames(sent);
      if request.is_error {
        response.buildError(INVALID_REQUEST_DATA, texts.invalidRequest);
      }
      if !response_sent {
        var sent := sendResponse();
      } else {
        assert socket.bytes + [] == socket.bytes;
      }
    }
  }

  lemma Settled(before: seq<byte>, sent: seq<seq<byte>>, response: seq<byte>, data: seq<seq<byte>>)
    requires sent == [response] + data
    ensures before + Frames(sent) == before + Frame(response) + Frames(data)
    ensures data == [] ==> before + Frames(sent) == before + Frame(response)
  {
    assert sent[1..] == data;
    FramesHead(before, sent);
  }

  lemma RefusedSent(handler: Handler, id: byte, body: seq<byte>, files: map<seq<byte>, seq<byte>>, locked: set<seq<byte>>,
                    max: nat, texts: Texts)
    ensures Sent(handler, Some(id), body, files, locked, max, texts) == [Content(Failure(id, [], []))]
  {
  }

  lemma OneFrame(before: seq<byte>, id: byte)
    ensures before + Frames([Content(Failure(id, [], []))]) == before + Frame([0xFF, id, 0x00, 0x00])
  {
    ErrorFrame(id);
    FramesHead(before, [Content(Failure(id, [], []))]);
  }

  /** What is sent when a requirement is not met. */
  lemma RefusedFrame(before: seq<byte>, handler: Handler, req: Requirements, peer: Peer, body: seq<byte>,
                     files: map<seq<byte>, seq<byte>>, locked: set<seq<byte>>, max: nat, texts: Texts)
    ensures Refusal(req, peer).Some? ==>
              before + Frames(Sent(handler, Refusal(req, peer), body, files, locked, max, texts)) ==
              before + Frame([0xFF, if peer.version < req.min_version then 0x00
                                    else if req.must_be_logged && !peer.logged then 0x10 else 0x20, 0x00, 0x00])
  {
    var refusal := Refusal(req, peer);
    if refusal.Some? {
      RefusedSent(handler, refusal.value, body, files, locked, max, texts);
      OneFrame(before, refusal.value);
    }
  }

  lemma FramesHead(before: seq<byte>, frames: seq<seq<byte>>)
    requires frames != []
    ensures before + Frames(frames) == before + Frame(frames[0]) + Frames(frames[1..])
    ensures |frames| == 1 ==> before + Frames(frames) == before + Frame(frames[0])
  {
    Assoc(before, Frame(frames[0]), Frames(frames[1..]));
    if |frames| == 1 {
      assert Frames(frames[1..]) == [];
      assert Frame(frames[0]) + [] == Frame(frames[0]);
    }
  }
}
