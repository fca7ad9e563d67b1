/** What every step of a session keeps. */
module SessionInvariant {
  import opened Bytes
  import opened ClientRequests
  import opened Options
  import opened RequestHandlers
  import opened Responses
  import opened Seqs
  import opened Transfers
  import opened Sessions

  // ---------------------------------------------------------------- what every reachable state keeps

  function Packets(frames: seq<seq<byte>>): (r: seq<Packet>)
    ensures |r| == |frames|
  {
    if frames == [] then [] else [Framed(frames[0])] + Packets(frames[1..])
  }

  predicate AllFramed(ch: seq<Packet>) {
    ch != [] ==> ch[0].Framed? && AllFramed(ch[1..])
  }

  function Contents(ch: seq<Packet>): seq<seq<byte>> {
    if ch == [] then [] else [ch[0].bytes] + Contents(ch[1..])
  }

  /** The server is up to date, or still busy with an upload of which `pending` are the frames it did not read yet:
      together with what it has, they are the file that was offered. */
  predicate Behind(s: State, pending: seq<Packet>) {
    match s.server
    case Waiting => pending == [] && s.stored == s.offered
    case Receiving(path, left, got) =>
      && 0 < left == |pending| && AllFramed(pending)
      && s.offered == s.stored + [NamedFile(path, got + Concat(Contents(pending)))]
      && |got + Concat(Contents(pending))| < FILE_LIMIT
    case _ => false
  }

  /** The frames of a download the client has not taken yet. */
  function Coming(s: State): seq<Packet> {
    s.toClient + if s.server.Sending? then Packets(s.server.toSend) else []
  }

  predicate UpToDate(s: State) {
    s.toServer == [] && s.stored == s.offered
  }

  /** The reply has been sent; `coming` are the packets behind it, sent or still to be sent. */
  predicate Replied(s: State, r: Request, reply: Reply, coming: seq<Packet>)
    requires ValidRequest(r)
  {
    s.toServer == [] &&
    match r
    case Other(_, _) => s.server.Waiting? && coming == [] && s.stored == s.offered && s.served == s.fetched
    case Fetch(_, chunk) =>
      && (s.server.Waiting? || (s.server.Sending? && s.server.toSend != [])) && s.stored == s.offered
      && (match Sizes(reply)
          case None => coming == [] && s.server.Waiting? && s.served == s.fetched
          case Some((size, count)) => count > 0 && Downloading(s, size, count, chunk, [], coming))
    case Push(path, content, chunk) =>
      && s.stored == s.offered && s.served == s.fetched && coming == []
      && if reply.Granted? then s.server == Receiving(SentPath(path), Count(|content|, chunk), []) else s.server.Waiting?
  }

  /** The frames to come are as many as the client expects, long enough for what it writes, and complete the file. */
  predicate Downloading(s: State, size: nat, left: nat, chunk: nat, copy: seq<byte>, coming: seq<Packet>) {
    && chunk > 0 && |coming| == left && AllFramed(coming)
    && Writable(Contents(coming), chunk, size % chunk)
    && s.served == s.fetched + [copy + Written(Contents(coming), chunk, size % chunk)]
  }

  predicate AwaitingReply(s: State, r: Request)
    requires ValidRequest(r)
  {
    if s.toServer != [] then
      && s.toClient == [] && s.served == s.fetched
      && Last(s.toServer) == Framed(RequestBytes(r)) && Behind(s, Init(s.toServer))
    else if s.server.Handling? then
      && s.toClient == [] && s.served == s.fetched && s.stored == s.offered && s.server.request == RequestBytes(r)
    else
      && s.toClient != [] && s.toClient[0].Framed?
      && Replied(s, r, ReadReply(s.toClient[0].bytes), Coming(s)[1..])
  }

  /** The versions on their way to the client, the server having `left` more to send. */
  predicate VersionsComing(s: State, left: nat) {
    |s.toClient| + (if s.server.SendVersions? then s.server.left else 0) == left
    && forall p :: p in s.toClient ==> p.Raw? && |p.bytes| == 8
  }

  /** Where the two parties are, relative to each other. */
  predicate Together(s: State) {
    match s.client
    case Greeting => s.server.AwaitGreeting? && s.toServer == [] && s.toClient == [] && Fresh(s)
    case AwaitFlag =>
      && Fresh(s)
      && if s.server.AwaitGreeting? then s.toServer == [Raw(WELCOME)] && s.toClient == []
         else s.server.AwaitVersion? && s.toServer == [] && s.toClient == [Raw([1])]
    case SayVersion => s.server.AwaitVersion? && s.toServer == [] && s.toClient == [] && Fresh(s)
    case AwaitVersions(left) =>
      && Fresh(s) && 0 < left <= 3
      && (match s.server
          case AwaitVersion => |s.toServer| == 1 && s.toServer[0].Raw? && |s.toServer[0].bytes| == 8 && s.toClient == [] && left == 3
          case SendVersions(more) => s.toServer == [] && 0 < more <= left && VersionsComing(s, left)
          case Waiting => s.toServer == [] && VersionsComing(s, left)
          case _ => false)
    case Idle => s.toClient == [] && s.served == s.fetched && Behind(s, s.toServer)
    case Awaiting(r) => ValidRequest(r) && AwaitingReply(s, r)
    case Fetching(size, count, chunk, taken, copy) =>
      && UpToDate(s) && taken < count && (s.server.Waiting? || (s.server.Sending? && s.server.toSend != []))
      && Downloading(s, size, count - taken, chunk, copy, Coming(s))
    case Pushing(toPush) =>
      && s.toClient == [] && s.served == s.fetched && toPush != [] && Behind(s, s.toServer + Packets(toPush))
    case Gone =>
      && s.toClient == [] && s.served == s.fetched
      && if s.toServer != [] then Last(s.toServer) == Framed(QUIT_REQUEST) && Behind(s, Init(s.toServer))
         else s.server.Closed? && s.stored == s.offered
    case TurnedAway => false
    case Desynchronised => false
  }

  /** Nothing was asked or transferred yet. */
  predicate Fresh(s: State) {
    s.served == [] && s.fetched == [] && s.offered == [] && s.stored == []
  }

  /** Every request that was asked and is not awaited any more was answered once and heard once. */
  predicate Counted(s: State) {
    && s.asked == s.heard + (if s.client.Awaiting? then 1 else 0)
    && s.answered == s.heard + if s.client.Awaiting? && s.toServer == [] && !s.server.Handling? then 1 else 0
  }

  predicate Inv(s: State) {
    Together(s) && Counted(s) && SmallFiles(s.files)
  }

  // ---------------------------------------------------------------- the steps keep it

  lemma {:induction false} PacketsMeans(frames: seq<seq<byte>>)
    ensures AllFramed(Packets(frames)) && Contents(Packets(frames)) == frames
    decreases |frames|
  {
    if frames != [] {
      PacketsMeans(frames[1..]);
      Tail(Framed(frames[0]), Packets(frames[1..]));
      Uncons(frames);
    }
  }

  lemma StartInv(files: map<seq<byte>, seq<byte>>)
    requires SmallFiles(files)
    ensures Inv(Start(files))
  {
  }

  lemma HandshakeKeeps(c: Config, s: State, step: Step)
    requires Inv(s) && Enabled(c, s, step)
    requires step in {Greet, ReadFlag, SendVersion, TakeGreeting, TakeVersion}
    ensures Inv(Apply(c, s, step))
  {
  }

  lemma ReadVersionKeeps(c: Config, s: State)
    requires Inv(s) && Enabled(c, s, ReadVersion)
    ensures Inv(Apply(c, s, ReadVersion))
  {
    Uncons(s.toClient);
    assert s.toClient[0] in s.toClient;
    assert forall p :: p in s.toClient[1..] ==> p in s.toClient;
    if s.client.left == 1 {
      assert s.toClient[1..] == [];
    }
  }

  lemma TellVersionKeeps(c: Config, s: State)
    requires Inv(s) && Enabled(c, s, TellVersion)
    ensures Inv(Apply(c, s, TellVersion))
  {
  }

  lemma VersionsKeep(c: Config, s: State, step: Step)
    requires Inv(s) && Enabled(c, s, step)
    requires step in {ReadVersion, TellVersion}
    ensures Inv(Apply(c, s, step))
  {
    if step.ReadVersion? {
      ReadVersionKeeps(c, s);
    } else {
      TellVersionKeeps(c, s);
    }
  }

  lemma AskKeeps(c: Config, s: State, r: Request)
    requires Inv(s) && Enabled(c, s, Ask(r))
    ensures Inv(Apply(c, s, Ask(r)))
  {
    assert Init(s.toServer + [Framed(RequestBytes(r))]) == s.toServer;
  }

  lemma QuitKeeps(c: Config, s: State)
    requires Inv(s) && Enabled(c, s, Quit)
    ensures Inv(Apply(c, s, Quit))
  {
    assert Init(s.toServer + [Framed(QUIT_REQUEST)]) == s.toServer;
  }

  lemma TakeRequestKeeps(c: Config, s: State)
    requires Inv(s) && Enabled(c, s, TakeRequest)
    ensures Inv(Apply(c, s, TakeRequest))
  {
  }

  lemma PushKeeps(c: Config, s: State)
    requires Inv(s) && Enabled(c, s, PushNext)
    ensures Inv(Apply(c, s, PushNext))
  {
    var toPush := s.client.toPush;
    Assoc(s.toServer, [Framed(toPush[0])], Packets(toPush[1..]));
    if |toPush| == 1 {
      assert Packets(toPush[1..]) == [];
      assert s.toServer + [Framed(toPush[0])] + [] == s.toServer + [Framed(toPush[0])];
    }
  }

  /** The server reads one frame of those it is behind. */
  lemma CatchUp(s: State, pending: seq<Packet>)
    requires s.server.Receiving? && Behind(s, pending)
    ensures var t := ReceiveOne(s, pending[0]);
            Behind(t, pending[1..]) && (SmallFiles(s.files) ==> SmallFiles(t.files))
  {
    var got, frames := s.server.got, Contents(pending);
    Assoc(got, frames[0], Concat(frames[1..]));
    assert frames[1..] == Contents(pending[1..]);
    if |pending| == 1 {
      assert got + frames[0] + [] == got + frames[0];
    }
  }

  lemma ReceiveIdle(c: Config, s: State)
    requires Inv(s) && Enabled(c, s, ReceiveNext) && s.client.Idle?
    ensures Inv(Apply(c, s, ReceiveNext))
  {
    CatchUp(s, s.toServer);
  }

  lemma ReceivePushing(c: Config, s: State)
    requires Inv(s) && Enabled(c, s, ReceiveNext) && s.client.Pushing?
    ensures Inv(Apply(c, s, ReceiveNext))
  {
    var more := Packets(s.client.toPush);
    CatchUp(s, s.toServer + more);
    assert (s.toServer + more)[1..] == s.toServer[1..] + more;
  }

  lemma ReceiveBehind(c: Config, s: State)
    requires Inv(s) && Enabled(c, s, ReceiveNext) && (s.client.Awaiting? || s.client.Gone?)
    ensures Inv(Apply(c, s, ReceiveNext))
  {
    CatchUp(s, Init(s.toServer));
    assert Init(s.toServer)[1..] == Init(s.toServer[1..]);
  }

  lemma ReceiveKeeps(c: Config, s: State)
    requires Inv(s) && Enabled(c, s, ReceiveNext)
    ensures Inv(Apply(c, s, ReceiveNext))
  {
    match s.client
    case Idle => ReceiveIdle(c, s);
    case Pushing(_) => ReceivePushing(c, s);
    case _ => ReceiveBehind(c, s);
  }

  lemma SendKeeps(c: Config, s: State)
    requires Inv(s) && Enabled(c, s, SendNext)
    ensures Inv(Apply(c, s, SendNext))
  {
    var toSend := s.server.toSend;
    Assoc(s.toClient, [Framed(toSend[0])], Packets(toSend[1..]));
    if |toSend| == 1 {
      assert Packets(toSend[1..]) == [];
    }
    assert Coming(Apply(c, s, SendNext)) == Coming(s);
  }

  /** What the client does with the first frame of those to come. */
  lemma FetchFrame(s: State, p: Packet, coming: seq<Packet>)
    requires s.client.Fetching? && s.client.taken < s.client.count && coming != [] && p == coming[0]
    requires Downloading(s, s.client.size, s.client.count - s.client.taken, s.client.chunk, s.client.copy, coming)
    ensures coming[1..] == [] ==> FetchOne(s, p).client.Idle? && FetchOne(s, p).served == FetchOne(s, p).fetched
    ensures coming[1..] != [] ==>
              var f, t := s.client, FetchOne(s, p);
              && t.client.Fetching? && t.client == f.(taken := f.taken + 1, copy := t.client.copy) && f.taken + 1 < f.count
              && Downloading(t, f.size, f.count - f.taken - 1, f.chunk, t.client.copy, coming[1..])
  {
    var f := s.client;
    ContentsLength(coming);
    TakeFrame(Contents(coming), f.chunk, f.size % f.chunk, f.copy);
    assert Contents(coming)[1..] == Contents(coming[1..]);
  }

  lemma FetchKeeps(c: Config, s: State)
    requires Inv(s) && Enabled(c, s, FetchNext)
    ensures Inv(Apply(c, s, FetchNext))
  {
    var t, coming := s.(toClient := s.toClient[1..]), Coming(s);
    assert Coming(t) == coming[1..];
    FetchFrame(t, s.toClient[0], coming);
    assert Coming(Apply(c, s, FetchNext)) == coming[1..];
  }

  lemma {:induction false} ContentsLength(ch: seq<Packet>)
    ensures |Contents(ch)| == |ch|
    decreases |ch|
  {
    if ch != [] {
      ContentsLength(ch[1..]);
    }
  }

  /** The state in which the client has taken the reply but not acted on it. */
  function Heard(s: State): State
    requires s.toClient != []
  {
    s.(toClient := s.toClient[1..], heard := s.heard + 1)
  }

  lemma HearOther(s: State, r: Request)
    requires Inv(s) && s.client == Awaiting(r) && s.toClient != [] && r.Other?
    ensures Inv(Hear(Heard(s), r, s.toClient[0]))
  {
    assert Coming(Heard(s)) == Coming(s)[1..];
  }

  lemma HearDownload(s: State, r: Request)
    requires Inv(s) && s.client == Awaiting(r) && s.toClient != [] && r.Fetch? && Sizes(ReadReply(s.toClient[0].bytes)).Some?
    ensures Inv(Hear(Heard(s), r, s.toClient[0]))
  {
    assert Coming(Heard(s)) == Coming(s)[1..];
  }

  lemma HearNoDownload(s: State, r: Request)
    requires Inv(s) && s.client == Awaiting(r) && s.toClient != [] && r.Fetch? && Sizes(ReadReply(s.toClient[0].bytes)).None?
    ensures Inv(Hear(Heard(s), r, s.toClient[0]))
  {
    assert Coming(Heard(s)) == Coming(s)[1..];
  }

  lemma HearFetch(s: State, r: Request)
    requires Inv(s) && s.client == Awaiting(r) && s.toClient != [] && r.Fetch?
    ensures Inv(Hear(Heard(s), r, s.toClient[0]))
  {
    if Sizes(ReadReply(s.toClient[0].bytes)).Some? {
      HearDownload(s, r);
    } else {
      HearNoDownload(s, r);
    }
  }

  lemma HearPush(s: State, r: Request)
    requires Inv(s) && s.client == Awaiting(r) && s.toClient != [] && r.Push?
    ensures Inv(Hear(Heard(s), r, s.toClient[0]))
  {
    assert Coming(Heard(s)) == Coming(s)[1..];
    var frames := UploadFrames(r.content, r.bufferSize);
    UploadExact(r.content, r.bufferSize);
    PacketsMeans(frames);
    assert [] + Packets(frames) == Packets(frames);
    assert [] + r.content == r.content;
  }

  lemma HearKeeps(c: Config, s: State)
    requires Inv(s) && Enabled(c, s, HearReply)
    ensures Inv(Apply(c, s, HearReply))
  {
    match s.client.request
    case Other(_, _) => HearOther(s, s.client.request);
    case Fetch(_, _) => HearFetch(s, s.client.request);
    case Push(_, _, _) => HearPush(s, s.client.request);
  }

  // ---------------------------------------------------------------- the reply

  /** The state in which the server is about to answer the one request there is. */
  predicate Answering(s: State, r: Request) {
    && ValidRequest(r) && s.client == Awaiting(r) && s.server.Handling?
    && s.toServer == [] && s.toClient == [] && s.served == s.fetched && s.stored == s.offered
  }

  lemma ProceedOther(s: State, r: Request, response: seq<byte>, t: Transfer, ran: Option<Body>)
    requires Answering(s, r) && r.Other? && t.Denied?
    ensures AwaitingReply(Proceed(s, response, t, ran), r)
  {
  }

  /** A download request is answered with the sizes of the download that follows, or with an error. */
  lemma FetchAnswer(c: Config, s: State, r: Request, body: Body)
    requires ValidRequest(r) && r.Fetch? && SmallFiles(s.files)
    ensures var request := RequestBytes(r);
            request != [] && request[0] == IO_GET_FILE_CONTENT &&
            var t := TransferOf(c, s.peer, s.files, request, body);
            && !t.Upload?
            && (t.Download? ==> t.bufferSize == r.bufferSize && SentPath(r.path) in s.files && t.content == s.files[SentPath(r.path)])
            && Sizes(ReadReply(Content(ResponseTo(c, s.peer, s.files, request, body)))) ==
               if t.Download? then Some((|t.content|, Count(|t.content|, r.bufferSize))) else None
  {
    DownloadUnderstood(r.path, r.bufferSize, s.files, c.maxBufferSize, c.texts);
    SizesOpened(TransferOf(c, s.peer, s.files, RequestBytes(r), body));
  }

  lemma ProceedFetch(s: State, r: Request, response: seq<byte>, t: Transfer, ran: Option<Body>)
    requires Answering(s, r) && r.Fetch? && !t.Upload? && (t.Download? ==> t.bufferSize == r.bufferSize)
    requires Sizes(ReadReply(response)) == if t.Download? then Some((|t.content|, Count(|t.content|, r.bufferSize))) else None
    ensures AwaitingReply(Proceed(s, response, t, ran), r)
  {
    if t.Download? {
      var frames := DownloadFrames(t.content, r.bufferSize, Zeros(r.bufferSize));
      DownloadExact(t.content, r.bufferSize, Zeros(r.bufferSize));
      PacketsMeans(frames);
      Tail(Framed(response), Packets(frames));
      assert [] + t.content == t.content;
    }
  }

  /** An upload request opens that upload, or it is answered with an error. */
  lemma PushTransfer(c: Config, s: State, r: Request, body: Body)
    requires ValidRequest(r) && r.Push?
    ensures var request := RequestBytes(r);
            request != [] && request[0] == IO_SET_FILE_CONTENT &&
            var t := TransferOf(c, s.peer, s.files, request, body);
            var response := ResponseTo(c, s.peer, s.files, request, body);
            if t.Upload? then
              response == Normal([]) && t == Transfer.Upload(SentPath(r.path), |r.content|, r.bufferSize, Count(|r.content|, r.bufferSize))
            else t.Denied? && response.Failure?
  {
    UploadUnderstood(r.path, |r.content|, r.bufferSize, c.locked, c.maxBufferSize, c.texts);
  }

  /** An upload request is granted exactly when the server goes on to receive that upload. */
  lemma PushAnswer(c: Config, s: State, r: Request, body: Body)
    requires ValidRequest(r) && r.Push?
    ensures var request := RequestBytes(r);
            request != [] && request[0] == IO_SET_FILE_CONTENT &&
            var t := TransferOf(c, s.peer, s.files, request, body);
            && !t.Download?
            && (t.Upload? ==> t == Transfer.Upload(SentPath(r.path), |r.content|, r.bufferSize, Count(|r.content|, r.bufferSize)))
            && (ReadReply(Content(ResponseTo(c, s.peer, s.files, request, body))).Granted? <==> t.Upload?)
  {
    PushTransfer(c, s, r, body);
    ReplyIsMeaning(ResponseTo(c, s.peer, s.files, RequestBytes(r), body));
  }

  lemma ProceedPush(s: State, r: Request, response: seq<byte>, t: Transfer, ran: Option<Body>)
    requires Answering(s, r) && r.Push? && !t.Download?
    requires t.Upload? ==> t == Transfer.Upload(SentPath(r.path), |r.content|, r.bufferSize, Count(|r.content|, r.bufferSize))
    requires ReadReply(response).Granted? <==> t.Upload?
    ensures AwaitingReply(Proceed(s, response, t, ran), r)
  {
  }

  lemma ProceedKeeps(s: State, r: Request, response: seq<byte>, t: Transfer, ran: Option<Body>)
    requires Inv(s) && Answering(s, r) && (t.Download? ==> t.bufferSize > 0) && (t.Upload? ==> t.bufferCount > 0)
    requires AwaitingReply(Proceed(s, response, t, ran), r) && (ran.Some? ==> SmallFiles(ran.value.files))
    ensures Inv(Proceed(s, response, t, ran))
  {
  }

  lemma RespondKeeps(c: Config, s: State, body: Body)
    requires Inv(s) && Enabled(c, s, Respond(body))
    ensures Inv(Apply(c, s, Respond(body)))
  {
    var r, request := s.client.request, s.server.request;
    assert Answering(s, r) && request == RequestBytes(r);
    var response, t := Content(ResponseTo(c, s.peer, s.files, request, body)), TransferOf(c, s.peer, s.files, request, body);
    var ran := if Ran(s.peer, request, body) then Some(body) else None;
    match r {
      case Other(_, _) => ProceedOther(s, r, response, t, ran);
      case Fetch(_, _) =>
        FetchAnswer(c, s, r, body);
        ProceedFetch(s, r, response, t, ran);
      case Push(_, _, _) =>
        PushAnswer(c, s, r, body);
        ProceedPush(s, r, response, t, ran);
    }
    ProceedKeeps(s, r, response, t, ran);
  }
}
