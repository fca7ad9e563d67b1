/** What holds in every state a session can reach. */
module SessionRuns {
  import opened Bytes
  import opened ClientRequests
  import opened Framing
  import opened Options
  import opened RequestHandlers
  import opened Responses
  import opened Seqs
  import opened Transfers
  import opened Versions
  import opened SessionInvariant
  import opened Sessions

  // ---------------------------------------------------------------- runs

  lemma StepKeeps(c: Config, s: State, step: Step)
    requires Inv(s) && Enabled(c, s, step)
    ensures Inv(Apply(c, s, step))
  {
    match step
    case Ask(r) => AskKeeps(c, s, r);
    case Quit => QuitKeeps(c, s);
    case HearReply => HearKeeps(c, s);
    case FetchNext => FetchKeeps(c, s);
    case PushNext => PushKeeps(c, s);
    case TakeRequest => TakeRequestKeeps(c, s);
    case Respond(body) => RespondKeeps(c, s, body);
    case SendNext => SendKeeps(c, s);
    case ReceiveNext => ReceiveKeeps(c, s);
    case ReadVersion => VersionsKeep(c, s, step);
    case TellVersion => VersionsKeep(c, s, step);
    case _ => HandshakeKeeps(c, s, step);
  }

  /** The state after these steps, if each was possible in its turn. */
  function Run(c: Config, s: State, steps: seq<Step>): Option<State>
    decreases |steps|
  {
    if steps == [] then Some(s)
    else if !Enabled(c, s, steps[0]) then None
    else Run(c, Apply(c, s, steps[0]), steps[1..])
  }

  lemma {:induction false} RunKeeps(c: Config, s: State, steps: seq<Step>)
    requires Inv(s) && Run(c, s, steps).Some?
    ensures Inv(Run(c, s, steps).value)
    decreases |steps|
  {
    if steps != [] {
      StepKeeps(c, s, steps[0]);
      RunKeeps(c, Apply(c, s, steps[0]), steps[1..]);
    }
  }

  /** A session between these two ends can get there. */
  ghost predicate Reachable(c: Config, s: State) {
    exists files, steps :: SmallFiles(files) && Run(c, Start(files), steps) == Some(s)
  }

  lemma ReachableInv(c: Config, s: State)
    requires Reachable(c, s)
    ensures Inv(s)
  {
    var files, steps :| SmallFiles(files) && Run(c, Start(files), steps) == Some(s);
    StartInv(files);
    RunKeeps(c, Start(files), steps);
  }

  /** Neither end ever reads something else than what it expects, and the client never writes past a frame. */
  lemma InStep(c: Config, s: State)
    requires Reachable(c, s)
    ensures !s.client.Desynchronised? && !s.server.Confused? && !s.client.TurnedAway?
  {
    ReachableInv(c, s);
  }

  /** `frame` is the response of some handler run to this request. */
  ghost predicate IsAnswer(c: Config, request: seq<byte>, frame: seq<byte>)
    requires request != []
  {
    exists peer, files, body :: frame == Content(ResponseTo(c, peer, files, request, body))
  }

  /** A reply that the client awaits and that was sent is at the head of the channel. */
  ghost predicate OwnAnswer(c: Config, s: State) {
    s.client.Awaiting? && s.toServer == [] && !s.server.Handling? ==>
      && s.toClient != [] && s.toClient[0].Framed?
      && ValidRequest(s.client.request) && RequestBytes(s.client.request) != []
      && IsAnswer(c, RequestBytes(s.client.request), s.toClient[0].bytes)
  }

  lemma RespondsWithAnswer(c: Config, s: State, body: Body)
    requires Inv(s) && Enabled(c, s, Respond(body))
    ensures OwnAnswer(c, Apply(c, s, Respond(body)))
  {
    var request := s.server.request;
    var t := Apply(c, s, Respond(body));
    assert s.toClient == [] && request == RequestBytes(s.client.request);
    assert t.toClient == [Framed(Content(ResponseTo(c, s.peer, s.files, request, body)))];
  }

  lemma ClientStepOwnAnswer(c: Config, s: State, step: Step)
    requires Inv(s) && OwnAnswer(c, s) && Enabled(c, s, step)
    requires step.Ask? || step in {Greet, ReadFlag, SendVersion, ReadVersion, Quit, FetchNext, PushNext}
    ensures OwnAnswer(c, Apply(c, s, step))
  {
  }

  lemma ServerStepOwnAnswer(c: Config, s: State, step: Step)
    requires Inv(s) && OwnAnswer(c, s) && Enabled(c, s, step)
    requires step in {TakeGreeting, TakeVersion, TellVersion, TakeRequest, SendNext}
    ensures OwnAnswer(c, Apply(c, s, step))
  {
  }

  lemma ReceiveOwnAnswer(c: Config, s: State)
    requires Inv(s) && OwnAnswer(c, s) && Enabled(c, s, ReceiveNext)
    ensures OwnAnswer(c, Apply(c, s, ReceiveNext))
  {
  }

  lemma HearOwnAnswer(c: Config, s: State)
    requires Enabled(c, s, HearReply)
    ensures !Apply(c, s, HearReply).client.Awaiting?
  {
  }

  lemma StepOwnAnswer(c: Config, s: State, step: Step)
    requires Inv(s) && OwnAnswer(c, s) && Enabled(c, s, step)
    ensures OwnAnswer(c, Apply(c, s, step))
  {
    match step
    case Respond(body) => RespondsWithAnswer(c, s, body);
    case HearReply => HearOwnAnswer(c, s);
    case ReceiveNext => ReceiveOwnAnswer(c, s);
    case TakeGreeting => ServerStepOwnAnswer(c, s, step);
    case TakeVersion => ServerStepOwnAnswer(c, s, step);
    case TellVersion => ServerStepOwnAnswer(c, s, step);
    case TakeRequest => ServerStepOwnAnswer(c, s, step);
    case SendNext => ServerStepOwnAnswer(c, s, step);
    case _ => ClientStepOwnAnswer(c, s, step);
  }

  lemma {:induction false} RunOwnAnswer(c: Config, s: State, steps: seq<Step>)
    requires Inv(s) && OwnAnswer(c, s) && Run(c, s, steps).Some?
    ensures OwnAnswer(c, Run(c, s, steps).value)
    decreases |steps|
  {
    if steps != [] {
      StepKeeps(c, s, steps[0]);
      StepOwnAnswer(c, s, steps[0]);
      RunOwnAnswer(c, Apply(c, s, steps[0]), steps[1..]);
    }
  }

  /** Every response is read as granted or refused. */
  lemma AnswerIsRead(c: Config, request: seq<byte>, frame: seq<byte>)
    requires request != [] && IsAnswer(c, request, frame)
    ensures ReadReply(frame).Granted? || ReadReply(frame).Refused?
  {
    var peer, files, body :| frame == Content(ResponseTo(c, peer, files, request, body));
    ReplyIsMeaning(ResponseTo(c, peer, files, request, body));
  }

  /** One response for each request: what is at the head of the channel when the client reads its reply is the
      response to the request it awaits, granting or refusing it; there is at most one such response, and it is read
      before anything else is. Data frames travel only behind it. */
  lemma OneResponse(c: Config, s: State)
    requires Reachable(c, s)
    ensures s.client.Awaiting? && s.toClient != [] ==>
              && ValidRequest(s.client.request) && RequestBytes(s.client.request) != [] && s.toClient[0].Framed?
              && IsAnswer(c, RequestBytes(s.client.request), s.toClient[0].bytes)
              && (ReadReply(s.toClient[0].bytes).Granted? || ReadReply(s.toClient[0].bytes).Refused?)
    ensures s.heard <= s.answered <= s.asked <= s.heard + 1
    ensures s.answered > s.heard <==> s.client.Awaiting? && s.toClient != []
    ensures s.answered == s.heard && s.toClient != [] ==> s.client.Fetching? || s.client.AwaitFlag? || s.client.AwaitVersions?
    ensures !s.client.Awaiting? ==> s.asked == s.answered == s.heard
  {
    ReachableInv(c, s);
    var files, steps :| SmallFiles(files) && Run(c, Start(files), steps) == Some(s);
    StartInv(files);
    RunOwnAnswer(c, Start(files), steps);
    if s.client.Awaiting? && s.toClient != [] {
      AnswerIsRead(c, RequestBytes(s.client.request), s.toClient[0].bytes);
    }
  }

  /** When the client may send its next request, every request was answered and every answer read, nothing is on its
      way to it, and all it downloaded is what was served. What is on its way to the server, if anything, is exactly
      the frames it still needs of the last upload, and they complete the file. */
  lemma Lockstep(c: Config, s: State)
    requires Reachable(c, s) && s.client.Idle?
    ensures s.asked == s.answered == s.heard && s.toClient == [] && s.fetched == s.served
    ensures s.server.Waiting? || s.server.Receiving?
    ensures s.server.Waiting? ==> s.toServer == [] && s.stored == s.offered
    ensures s.server.Receiving? ==>
              && |s.toServer| == s.server.left > 0
              && s.offered == s.stored + [NamedFile(s.server.path, s.server.got + Concat(Contents(s.toServer)))]
  {
    ReachableInv(c, s);
  }

  lemma FetchedExact(s: State)
    requires Inv(s)
    ensures s.fetched <= s.served && |s.served| <= |s.fetched| + 1
  {
  }

  lemma StoredExact(s: State)
    requires Inv(s)
    ensures s.stored <= s.offered && |s.offered| <= |s.stored| + 1
  {
  }

  /** Every finished download is the file that was served, every finished upload the content that was offered, and in
      order; at most the transfer that is going on is missing. */
  lemma CopiesExact(c: Config, s: State)
    requires Reachable(c, s)
    ensures s.fetched <= s.served && |s.served| <= |s.fetched| + 1
    ensures s.stored <= s.offered && |s.offered| <= |s.stored| + 1
    ensures s.client.Gone? && s.server.Closed? ==> s.fetched == s.served && s.stored == s.offered && s.asked == s.answered
  {
    ReachableInv(c, s);
    FetchedExact(s);
    StoredExact(s);
  }

  // ---------------------------------------------------------------- no session gets stuck

  /** All was asked, answered, sent and read: the client may ask again, or both ends have finished. */
  predicate AtRest(s: State) {
    && s.toServer == [] && s.toClient == [] && s.served == s.fetched && s.stored == s.offered
    && ((s.client.Idle? && s.server.Waiting?) || (s.client.Gone? && s.server.Closed?))
  }

  /** A step that goes on by itself, with nothing new asked; what a handler does is up to `body`. */
  function Next(s: State, body: Body): Option<Step> {
    match s.server
    case AwaitGreeting => if s.toServer != [] then Some(TakeGreeting) else Some(Greet)
    case AwaitVersion =>
      if s.toServer != [] then Some(TakeVersion) else if s.toClient != [] then Some(ReadFlag) else Some(SendVersion)
    case SendVersions(_) => Some(TellVersion)
    case Handling(_) => Some(Respond(body))
    case Sending(_) => Some(SendNext)
    case Receiving(_, _, _) => if s.toServer != [] then Some(ReceiveNext) else if s.toClient != [] then Some(HearReply) else Some(PushNext)
    case Waiting =>
      if s.toServer != [] then Some(TakeRequest)
      else if s.toClient == [] then None
      else
        (match s.client
         case AwaitVersions(_) => Some(ReadVersion)
         case Awaiting(_) => Some(HearReply)
         case _ => Some(FetchNext))
    case _ => None
  }

  function Quiet(s: State): Body {
    Body([], s.peer.logged, s.peer.role, s.files)
  }

  /** The response of a handler that does nothing fits a frame, whatever the request. */
  lemma QuietFits(c: Config, s: State, request: seq<byte>)
    requires request != [] && SmallFiles(s.files)
    ensures |Content(ResponseTo(c, s.peer, s.files, request, Quiet(s)))| < MAX_FRAME
  {
    var r := ResponseTo(c, s.peer, s.files, request, Quiet(s));
    if RequirementsOf(request[0]).Some? && Refusal(RequirementsOf(request[0]).value, s.peer).None?
       && !HandlerOf(request[0], Quiet(s)).Plain? {
      OpenedIsShort(r, TransferOf(c, s.peer, s.files, request, Quiet(s)));
    } else {
      ShortResponse(r);
    }
  }

  /** In every reachable state that is not at rest some end can go on. */
  lemma Progress(c: Config, s: State)
    requires Inv(s)
    ensures match Next(s, Quiet(s))
            case None => AtRest(s)
            case Some(step) => Enabled(c, s, step) && !step.Ask? && !step.Quit?
  {
    if s.server.Handling? && s.server.request != [] {
      QuietFits(c, s, s.server.request);
    }
  }

  /** How far a request has got: not answered, answered, heard. */
  function Stage(s: State): nat {
    if !s.client.Awaiting? then 0 else if s.toServer == [] && !s.server.Handling? then 1 else 2
  }

  /** The packets still to be read, and twice those still to be sent. */
  function Work(s: State): nat {
    |s.toServer| + |s.toClient|
    + (match s.client
       case Greeting => 4
       case AwaitFlag => 2
       case SayVersion => 2
       case Pushing(toPush) => 2 * |toPush|
       case _ => 0)
    + match s.server
      case AwaitGreeting => 8
      case AwaitVersion => 7
      case SendVersions(left) => 2 * left
      case Sending(toSend) => 2 * |toSend|
      case _ => 0
  }

  predicate Closer(t: State, s: State) {
    Stage(t) < Stage(s) || (Stage(t) == Stage(s) && Work(t) < Work(s))
  }

  lemma HandshakeDescends(c: Config, s: State, step: Step)
    requires Inv(s) && Enabled(c, s, step)
    requires step in {Greet, ReadFlag, SendVersion, ReadVersion, TakeGreeting, TakeVersion, TellVersion}
    ensures Closer(Apply(c, s, step), s)
  {
  }

  lemma ClientDataDescends(c: Config, s: State, step: Step)
    requires Inv(s) && Enabled(c, s, step) && (step.FetchNext? || step.PushNext?)
    ensures Closer(Apply(c, s, step), s)
  {
  }

  lemma ServerDataDescends(c: Config, s: State, step: Step)
    requires Inv(s) && Enabled(c, s, step) && (step.SendNext? || step.ReceiveNext?)
    ensures Closer(Apply(c, s, step), s)
  {
  }

  lemma RequestDescends(c: Config, s: State, step: Step)
    requires Inv(s) && Enabled(c, s, step) && (step.TakeRequest? || step.HearReply?)
    ensures Closer(Apply(c, s, step), s)
  {
  }

  lemma ProceedDescends(s: State, response: seq<byte>, t: Transfer, ran: Option<Body>)
    requires s.client.Awaiting? && s.server.Handling? && s.toServer == [] && (t.Download? ==> t.bufferSize > 0)
    ensures Closer(Proceed(s, response, t, ran), s)
  {
  }

  /** Whatever the two ends do, with nothing new asked, they come closer to rest. */
  lemma Descends(c: Config, s: State, step: Step)
    requires Inv(s) && Enabled(c, s, step) && !step.Ask? && !step.Quit?
    ensures Closer(Apply(c, s, step), s)
  {
    match step
    case Respond(body) =>
      var request := s.server.request;
      ProceedDescends(s, Content(ResponseTo(c, s.peer, s.files, request, body)), TransferOf(c, s.peer, s.files, request, body),
                      if Ran(s.peer, request, body) then Some(body) else None);
    case FetchNext => ClientDataDescends(c, s, step);
    case PushNext => ClientDataDescends(c, s, step);
    case SendNext => ServerDataDescends(c, s, step);
    case ReceiveNext => ServerDataDescends(c, s, step);
    case TakeRequest => RequestDescends(c, s, step);
    case HearReply => RequestDescends(c, s, step);
    case _ => HandshakeDescends(c, s, step);
  }

  /** So from every reachable state they get there. */
  lemma {:induction false} ComesToRest(c: Config, s: State) returns (steps: seq<Step>)
    requires Inv(s)
    ensures forall step :: step in steps ==> !step.Ask? && !step.Quit?
    ensures Run(c, s, steps).Some? && AtRest(Run(c, s, steps).value)
    decreases Stage(s), Work(s)
  {
    Progress(c, s);
    match Next(s, Quiet(s)) {
      case None => steps := [];
      case Some(step) =>
        StepKeeps(c, s, step);
        Descends(c, s, step);
        var more := ComesToRest(c, Apply(c, s, step));
        Tail(step, more);
        steps := [step] + more;
    }
  }

  // ---------------------------------------------------------------- the client may be ahead of the server

  /** The steps of a whole handshake. */
  const HANDSHAKE: seq<Step> := [Greet] + ([TakeGreeting] + ([ReadFlag] + ([SendVersion] + TELLING)))

  const TELLING: seq<Step> := [TakeVersion] + ([TellVersion] + ([TellVersion] + ([TellVersion] + LEARNING)))

  const LEARNING: seq<Step> := [ReadVersion] + ([ReadVersion] + ([ReadVersion] + []))

  function Connected(c: Config, files: map<seq<byte>, seq<byte>>): State {
    Start(files).(client := Idle, server := Waiting, peer := Peer(c.client, false, ROLE_NONE))
  }

  lemma {:induction false} RunAppend(c: Config, s: State, a: seq<Step>, b: seq<Step>)
    requires Run(c, s, a).Some?
    ensures Run(c, s, a + b) == Run(c, Run(c, s, a).value, b)
    decreases |a|
  {
    if a == [] {
      assert [] + b == b;
    } else {
      assert (a + b)[1..] == a[1..] + b;
      RunAppend(c, Apply(c, s, a[0]), a[1..], b);
    }
  }

  /** One step of a run that is given state by state. */
  lemma Goes(c: Config, s: State, step: Step, t: State, rest: seq<Step>)
    requires Enabled(c, s, step) && Apply(c, s, step) == t
    ensures Run(c, s, [step] + rest) == Run(c, t, rest)
  {
    Tail(step, rest);
  }

  /** The client has said its version. */
  function Introduced(c: Config, files: map<seq<byte>, seq<byte>>): State {
    Start(files).(client := AwaitVersions(3), server := AwaitVersion, toServer := [Raw(LittleEndian(c.client, 8))])
  }

  /** The server has sent its three versions. */
  function Told(c: Config, files: map<seq<byte>, seq<byte>>): State {
    Connected(c, files).(client := AwaitVersions(3),
      toClient := [Raw(LittleEndian(c.server, 8)), Raw(LittleEndian(c.oldest, 8)), Raw(LittleEndian(c.newest, 8))])
  }

  lemma Introduces(c: Config, files: map<seq<byte>, seq<byte>>, rest: seq<Step>)
    ensures Run(c, Start(files), [Greet] + ([TakeGreeting] + ([ReadFlag] + ([SendVersion] + rest)))) ==
            Run(c, Introduced(c, files), rest)
  {
    var s0 := Start(files);
    var s1 := s0.(client := AwaitFlag, toServer := [Raw(WELCOME)]);
    var s2 := s0.(client := AwaitFlag, server := AwaitVersion, toClient := [Raw([1])]);
    var s3 := s0.(client := SayVersion, server := AwaitVersion);
    Goes(c, s0, Greet, s1, [TakeGreeting] + ([ReadFlag] + ([SendVersion] + rest)));
    Goes(c, s1, TakeGreeting, s2, [ReadFlag] + ([SendVersion] + rest));
    Goes(c, s2, ReadFlag, s3, [SendVersion] + rest);
    Goes(c, s3, SendVersion, Introduced(c, files), rest);
  }

  lemma Tells(c: Config, files: map<seq<byte>, seq<byte>>, rest: seq<Step>)
    requires ValidConfig(c)
    ensures Run(c, Introduced(c, files), [TakeVersion] + ([TellVersion] + ([TellVersion] + ([TellVersion] + rest)))) ==
            Run(c, Told(c, files), rest)
  {
    Widths();
    ReadBack(c.client, 8);
    CombineOfFromCombined(c.client);
    var a, b, d := Raw(LittleEndian(c.server, 8)), Raw(LittleEndian(c.oldest, 8)), Raw(LittleEndian(c.newest, 8));
    var s8 := Told(c, files);
    var s5, s6, s7 := s8.(server := SendVersions(3), toClient := []), s8.(server := SendVersions(2), toClient := [a]),
                      s8.(server := SendVersions(1), toClient := [a, b]);
    Goes(c, Introduced(c, files), TakeVersion, s5, [TellVersion] + ([TellVersion] + ([TellVersion] + rest)));
    Goes(c, s5, TellVersion, s6, [TellVersion] + ([TellVersion] + rest));
    assert [a] + [b] == [a, b] && [a, b] + [d] == [a, b, d];
    Goes(c, s6, TellVersion, s7, [TellVersion] + rest);
    Goes(c, s7, TellVersion, s8, rest);
  }

  lemma Learns(c: Config, files: map<seq<byte>, seq<byte>>)
    ensures Run(c, Told(c, files), [ReadVersion] + ([ReadVersion] + ([ReadVersion] + []))) == Some(Connected(c, files))
  {
    var a, b, d := Raw(LittleEndian(c.server, 8)), Raw(LittleEndian(c.oldest, 8)), Raw(LittleEndian(c.newest, 8));
    var s8 := Told(c, files);
    var s9, s10 := s8.(client := AwaitVersions(2), toClient := [b, d]), s8.(client := AwaitVersions(1), toClient := [d]);
    assert [a, b, d][1..] == [b, d] && [b, d][1..] == [d] && [d][1..] == [];
    Goes(c, s8, ReadVersion, s9, [ReadVersion] + ([ReadVersion] + []));
    Goes(c, s9, ReadVersion, s10, [ReadVersion] + []);
    Goes(c, s10, ReadVersion, Connected(c, files), []);
  }

  /** A client and a server get through the handshake, and the server then knows the client's version. */
  lemma Connects(c: Config, files: map<seq<byte>, seq<byte>>)
    requires ValidConfig(c)
    ensures Run(c, Start(files), HANDSHAKE) == Some(Connected(c, files))
  {
    Introduces(c, files, TELLING);
    Tells(c, files, LEARNING);
    Learns(c, files);
  }

  lemma {:induction false} PushAll(c: Config, s: State, n: nat)
    requires s.client.Pushing? && |s.client.toPush| == n > 0
    ensures Run(c, s, Pushes(n)) == Some(s.(client := Idle, toServer := s.toServer + Packets(s.client.toPush)))
    decreases n
  {
    var toPush := s.client.toPush;
    var t := Apply(c, s, PushNext);
    Goes(c, s, PushNext, t, Pushes(n - 1));
    Assoc(s.toServer, [Framed(toPush[0])], Packets(toPush[1..]));
    if n > 1 {
      PushAll(c, t, n - 1);
    } else {
      assert Packets(toPush) == [Framed(toPush[0])];
    }
  }

  function Pushes(n: nat): seq<Step> {
    if n == 0 then [] else [PushNext] + Pushes(n - 1)
  }

  /** The four steps of a request until its answer is heard. */
  function Exchange(r: Request, body: Body): seq<Step> {
    [Ask(r)] + ([TakeRequest] + ([Respond(body)] + ([HearReply] + [])))
  }

  /** An upload request is accepted by a server that is asked for nothing it refuses. */
  predicate Acceptable(c: Config, s: State, r: Request) {
    && ValidRequest(r) && r.Push? && r.bufferSize <= c.maxBufferSize && SentPath(r.path) !in c.locked
    && s.peer.logged && s.peer.version >= VERSION_1_0_0
  }

  lemma Accepted(c: Config, s: State, r: Request, body: Body)
    requires Acceptable(c, s, r)
    ensures var request := RequestBytes(r);
            && request != [] && request[0] != QUIT && !Ran(s.peer, request, body)
            && TransferOf(c, s.peer, s.files, request, body) ==
               Transfer.Upload(SentPath(r.path), |r.content|, r.bufferSize, Count(|r.content|, r.bufferSize))
  {
    UploadUnderstood(r.path, |r.content|, r.bufferSize, c.locked, c.maxBufferSize, c.texts);
  }

  /** A session at rest whose client asks `r`. */
  function AfterAsking(s: State, r: Request): State
    requires ValidRequest(r)
  {
    s.(client := Awaiting(r), server := Handling(RequestBytes(r)), asked := s.asked + 1)
  }

  lemma Asks(c: Config, s: State, r: Request, rest: seq<Step>)
    requires AtRest(s) && s.client.Idle? && ValidRequest(r) && RequestBytes(r) != [] && RequestBytes(r)[0] != QUIT
    ensures Run(c, s, [Ask(r)] + ([TakeRequest] + rest)) == Run(c, AfterAsking(s, r), rest)
  {
    var s1 := s.(client := Awaiting(r), toServer := [Framed(RequestBytes(r))], asked := s.asked + 1);
    Goes(c, s, Ask(r), s1, [TakeRequest] + rest);
    Goes(c, s1, TakeRequest, AfterAsking(s, r), rest);
  }

  lemma Hears(c: Config, s: State, response: seq<byte>, t: State)
    requires s.client.Awaiting? && s.toClient == [Framed(response)]
    requires Hear(s.(toClient := [], heard := s.heard + 1), s.client.request, Framed(response)) == t
    ensures Run(c, s, [HearReply] + []) == Some(t)
  {
    Goes(c, s, HearReply, t, []);
  }

  /** A granted upload up to its first frame. */
  function AfterGrant(s: State, r: Request): State
    requires ValidRequest(r) && r.Push?
  {
    s.(client := Pushing(UploadFrames(r.content, r.bufferSize)),
       server := Receiving(SentPath(r.path), Count(|r.content|, r.bufferSize), []),
       asked := s.asked + 1, answered := s.answered + 1, heard := s.heard + 1,
       offered := s.offered + [NamedFile(SentPath(r.path), r.content)])
  }

  lemma ProceedGranted(s: State, r: Request, response: seq<byte>)
    requires ValidRequest(r) && r.Push? && AtRest(s) && ReadReply(response).Granted?
    ensures var count := Count(|r.content|, r.bufferSize);
            var t := Proceed(AfterAsking(s, r), response, Transfer.Upload(SentPath(r.path), |r.content|, r.bufferSize, count), None);
            && t.client == Awaiting(r) && t.toClient == [Framed(response)]
            && Hear(t.(toClient := [], heard := t.heard + 1), r, Framed(response)) == AfterGrant(s, r)
  {
  }

  lemma Grants(c: Config, s: State, r: Request)
    requires Inv(s) && AtRest(s) && s.client.Idle? && Acceptable(c, s, r)
    ensures Run(c, s, Exchange(r, Quiet(s))) == Some(AfterGrant(s, r))
  {
    var b, s2, request := Quiet(s), AfterAsking(s, r), RequestBytes(r);
    Accepted(c, s2, r, b);
    QuietFits(c, s2, request);
    PushAnswer(c, s2, r, b);
    var response := Content(ResponseTo(c, s2.peer, s2.files, request, b));
    var t := TransferOf(c, s2.peer, s2.files, request, b);
    var s3 := Proceed(s2, response, t, None);
    ProceedGranted(s, r, response);
    Asks(c, s, r, [Respond(b)] + ([HearReply] + []));
    Goes(c, s2, Respond(b), s3, [HearReply] + []);
    Hears(c, s3, response, AfterGrant(s, r));
  }

  /** The client has asked for an upload, and the reply at hand grants it. */
  predicate GrantsUpload(s: State) {
    s.client.Awaiting? && s.client.request.Push? && s.toClient != [] && ReadReply(s.toClient[0].bytes).Granted?
  }

  /** There is no acknowledgement of an upload. After every upload that is granted, the client can be ready for its
      next request while the server has not read a single frame. */
  lemma AheadOfServer(c: Config, s: State)
    requires Reachable(c, s) && GrantsUpload(s)
    ensures s.client.request.bufferSize > 0
    ensures var count := Count(|s.client.request.content|, s.client.request.bufferSize);
            var t := Run(c, s, [HearReply] + Pushes(count));
            && t.Some? && t.value.client.Idle? && t.value.server.Receiving? && |t.value.toServer| == count > 0
            && NothingAsked([HearReply] + Pushes(count))
  {
    ReachableInv(c, s);
    var r, t := s.client.request, Apply(c, s, HearReply);
    var count := Count(|r.content|, r.bufferSize);
    UploadExact(r.content, r.bufferSize);
    Goes(c, s, HearReply, t, Pushes(count));
    PushAll(c, t, count);
    OnlyPushes(count);
  }

  lemma {:induction false} OnlyPushes(n: nat)
    ensures forall step :: step in Pushes(n) ==> step == PushNext
    decreases n
  {
    if n > 0 {
      OnlyPushes(n - 1);
    }
  }

  // ---------------------------------------------------------------- when both ends are ready together

  predicate NothingAsked(steps: seq<Step>) {
    forall step :: step in steps ==> !step.Ask? && !step.Quit?
  }

  predicate ReadyTogether(s: State) {
    s.server.Waiting? && s.toServer == [] && s.toClient == []
  }

  /** However the two ends go on, when the client is ready for its next request the server waits for it and both
      channels are empty. */
  ghost predicate WillBeReadyTogether(c: Config, s: State) {
    forall steps :: NothingAsked(steps) && Run(c, s, steps).Some? && Run(c, s, steps).value.client.Idle? ==>
                      ReadyTogether(Run(c, s, steps).value)
  }

  /** No request is under way, and no upload. */
  predicate Calm(s: State) {
    && !s.client.Awaiting? && !s.client.Pushing? && !s.server.Receiving? && !s.server.Handling?
    && s.stored == s.offered
  }

  lemma HandshakeStaysCalm(c: Config, s: State, step: Step)
    requires Inv(s) && Calm(s) && Enabled(c, s, step)
    requires step in {Greet, ReadFlag, SendVersion, ReadVersion, TakeGreeting, TakeVersion, TellVersion}
    ensures Calm(Apply(c, s, step))
  {
  }

  lemma StaysCalm(c: Config, s: State, step: Step)
    requires Inv(s) && Calm(s) && Enabled(c, s, step) && !step.Ask? && !step.Quit?
    ensures Calm(Apply(c, s, step))
  {
    match step
    case FetchNext =>
    case SendNext =>
    case TakeRequest =>
    case _ => HandshakeStaysCalm(c, s, step);
  }

  lemma {:induction false} CalmRun(c: Config, s: State, steps: seq<Step>)
    requires Inv(s) && Calm(s) && NothingAsked(steps) && Run(c, s, steps).Some?
    ensures var t := Run(c, s, steps).value; t.client.Idle? ==> ReadyTogether(t)
    decreases |steps|
  {
    if steps != [] {
      StepKeeps(c, s, steps[0]);
      StaysCalm(c, s, steps[0]);
      assert forall step :: step in steps[1..] ==> step in steps;
      CalmRun(c, Apply(c, s, steps[0]), steps[1..]);
    }
  }

  lemma CalmIsReady(c: Config, s: State)
    requires Inv(s) && Calm(s)
    ensures WillBeReadyTogether(c, s)
  {
    forall steps | NothingAsked(steps) && Run(c, s, steps).Some? && Run(c, s, steps).value.client.Idle?
      ensures ReadyTogether(Run(c, s, steps).value)
    {
      CalmRun(c, s, steps);
    }
  }

  /** A client that has just connected finds the server ready. */
  lemma ReadyAtFirst(c: Config, files: map<seq<byte>, seq<byte>>)
    requires SmallFiles(files)
    ensures WillBeReadyTogether(c, Start(files))
  {
    StartInv(files);
    CalmIsReady(c, Start(files));
  }

  lemma CalmAfterReply(c: Config, s: State)
    requires Inv(s) && Enabled(c, s, HearReply) && !GrantsUpload(s)
    ensures Calm(Apply(c, s, HearReply))
  {
  }

  /** After a reply, the client will find the server ready and both channels empty when it sends its next request, if
      and only if the reply does not grant an upload: what the client asked and what it was told decides. */
  lemma ReadyAfterReply(c: Config, s: State)
    requires Reachable(c, s) && Enabled(c, s, HearReply)
    ensures WillBeReadyTogether(c, Apply(c, s, HearReply)) <==> !GrantsUpload(s)
  {
    ReachableInv(c, s);
    StepKeeps(c, s, HearReply);
    if GrantsUpload(s) {
      AheadOfServer(c, s);
      var r := s.client.request;
      var pushes := Pushes(Count(|r.content|, r.bufferSize));
      Goes(c, s, HearReply, Apply(c, s, HearReply), pushes);
      assert forall step :: step in pushes ==> step in [HearReply] + pushes;
      assert NothingAsked(pushes);
      assert !ReadyTogether(Run(c, Apply(c, s, HearReply), pushes).value);
    } else {
      CalmAfterReply(c, s);
      CalmIsReady(c, Apply(c, s, HearReply));
    }
  }

  const LOGIN: byte := 0x21

  function LoggedIn(s: State): State {
    s.(peer := s.peer.(logged := true), asked := s.asked + 1, answered := s.answered + 1, heard := s.heard + 1)
  }

  lemma ProceedLogin(s: State, response: seq<byte>, t: Transfer, body: Body)
    requires AtRest(s) && s.client.Idle? && t.Denied? && body == Quiet(s).(logged := true)
    ensures var r := Other(LOGIN, []); var u := Proceed(AfterAsking(s, r), response, t, Some(body));
            && u.client == Awaiting(r) && u.toClient == [Framed(response)]
            && Hear(u.(toClient := [], heard := u.heard + 1), r, Framed(response)) == LoggedIn(s)
  {
  }

  /** A login that is granted. */
  lemma LogsIn(c: Config, s: State)
    requires Inv(s) && AtRest(s) && s.client.Idle? && s.peer.version >= VERSION_1_0_0
    ensures Run(c, s, Exchange(Other(LOGIN, []), Quiet(s).(logged := true))) == Some(LoggedIn(s))
  {
    var r, b := Other(LOGIN, []), Quiet(s).(logged := true);
    var s2, request := AfterAsking(s, r), RequestBytes(r);
    var response, t := Content(ResponseTo(c, s2.peer, s2.files, request, b)), TransferOf(c, s2.peer, s2.files, request, b);
    ShortResponse(ResponseTo(c, s2.peer, s2.files, request, b));
    ProceedLogin(s, response, t, b);
    var s3 := Proceed(s2, response, t, Some(b));
    Asks(c, s, r, [Respond(b)] + ([HearReply] + []));
    Goes(c, s2, Respond(b), s3, [HearReply] + []);
    Hears(c, s3, response, LoggedIn(s));
  }

  lemma Chain(c: Config, s: State, a: seq<Step>, t: State, b: seq<Step>, u: State)
    requires Run(c, s, a) == Some(t) && Run(c, t, b) == Some(u)
    ensures Run(c, s, a + b) == Some(u)
  {
    RunAppend(c, s, a, b);
  }

  lemma ConnectsBy(c: Config, files: map<seq<byte>, seq<byte>>) returns (steps: seq<Step>)
    requires ValidConfig(c)
    ensures Run(c, Start(files), steps) == Some(Connected(c, files))
  {
    Connects(c, files);
    steps := HANDSHAKE;
  }

  /** A connected session whose client has logged in. */
  lemma LoggedInReachable(c: Config) returns (steps: seq<Step>, s: State)
    requires ValidConfig(c) && c.client >= VERSION_1_0_0
    ensures Run(c, Start(map[]), steps) == Some(s) && s == LoggedIn(Connected(c, map[]))
  {
    var t := Connected(c, map[]);
    var connect := ConnectsBy(c, map[]);
    StartInv(map[]);
    RunKeeps(c, Start(map[]), connect);
    var login := Exchange(Other(LOGIN, []), Quiet(t).(logged := true));
    LogsIn(c, t);
    s := LoggedIn(t);
    steps := connect + login;
    Chain(c, Start(map[]), connect, t, login, s);
  }

  /** A session in which the client is ahead: the handshake, a login, and the upload of an empty file. */
  lemma NotLockstep(c: Config) returns (s: State)
    requires ValidConfig(c) && c.client >= VERSION_1_0_0 && c.maxBufferSize > 0 && [] !in c.locked
    ensures Reachable(c, s) && s.client.Idle? && s.server.Receiving? && s.toServer != []
  {
    var start := Start(map[]);
    var steps, s2 := LoggedInReachable(c);
    StartInv(map[]);
    RunKeeps(c, start, steps);
    var r := Push([], [], 1);
    var upload := Exchange(r, Quiet(s2)) + Pushes(Count(0, 1));
    assert SentPath([]) == [];
    Grants(c, s2, r);
    UploadExact(r.content, r.bufferSize);
    var t := AfterGrant(s2, r);
    PushAll(c, t, Count(0, 1));
    s := t.(client := Idle, toServer := t.toServer + Packets(t.client.toPush));
    Chain(c, s2, Exchange(r, Quiet(s2)), t, Pushes(Count(0, 1)), s);
    Chain(c, start, steps, s2, upload, s);
  }

  // ---------------------------------------------------------------- the bytes of the channels

  /** What is on the wire: handshake values as they are, buffers behind their length. */
  function Wire(ch: seq<Packet>): seq<byte> {
    if ch == [] then [] else (if ch[0].Raw? then ch[0].bytes else Frame(ch[0].bytes)) + Wire(ch[1..])
  }

  predicate Short(frames: seq<seq<byte>>) {
    forall f :: f in frames ==> |f| < MAX_FRAME
  }

  predicate Fits(ch: seq<Packet>) {
    forall p :: p in ch ==> p.Framed? ==> |p.bytes| < MAX_FRAME
  }

  /** Everything sent and still to be sent fits the length field of a frame. */
  predicate AllFit(s: State) {
    && Fits(s.toServer) && Fits(s.toClient)
    && (s.server.Sending? ==> Short(s.server.toSend)) && (s.client.Pushing? ==> Short(s.client.toPush))
    && (s.client.Awaiting? ==> ValidRequest(s.client.request))
  }

  lemma RequestFits(r: Request)
    requires ValidRequest(r)
    ensures |RequestBytes(r)| < MAX_FRAME
  {
    Widths();
  }

  lemma ClientStepFits(c: Config, s: State, step: Step)
    requires AllFit(s) && Enabled(c, s, step)
    requires step.Greet? || step.ReadFlag? || step.SendVersion? || step.ReadVersion? || step.Ask? || step.Quit?
             || step.FetchNext? || step.PushNext?
    ensures AllFit(Apply(c, s, step))
  {
    if step.Ask? {
      RequestFits(step.request);
    }
  }

  lemma HearFits(c: Config, s: State)
    requires AllFit(s) && Enabled(c, s, HearReply)
    ensures AllFit(Apply(c, s, HearReply))
  {
    var r := s.client.request;
    if r.Push? {
      UploadExact(r.content, r.bufferSize);
    }
  }

  lemma ServerStepFits(c: Config, s: State, step: Step)
    requires AllFit(s) && Enabled(c, s, step)
    requires step.TakeGreeting? || step.TakeVersion? || step.TellVersion? || step.TakeRequest? || step.SendNext? || step.ReceiveNext?
    ensures AllFit(Apply(c, s, step))
  {
  }

  lemma ProceedFits(s: State, response: seq<byte>, t: Transfer, ran: Option<Body>)
    requires AllFit(s) && |response| < MAX_FRAME && (t.Download? ==> 0 < t.bufferSize < MAX_FRAME)
    ensures AllFit(Proceed(s, response, t, ran))
  {
    if t.Download? {
      DownloadExact(t.content, t.bufferSize, Zeros(t.bufferSize));
    }
  }

  lemma StepFits(c: Config, s: State, step: Step)
    requires ValidConfig(c) && AllFit(s) && Enabled(c, s, step)
    ensures AllFit(Apply(c, s, step))
  {
    match step
    case HearReply => HearFits(c, s);
    case Respond(body) =>
      var request := s.server.request;
      TransferBound(c, s, request, body);
      ProceedFits(s, Content(ResponseTo(c, s.peer, s.files, request, body)), TransferOf(c, s.peer, s.files, request, body),
                  if Ran(s.peer, request, body) then Some(body) else None);
    case TakeGreeting => ServerStepFits(c, s, step);
    case TakeVersion => ServerStepFits(c, s, step);
    case TellVersion => ServerStepFits(c, s, step);
    case TakeRequest => ServerStepFits(c, s, step);
    case SendNext => ServerStepFits(c, s, step);
    case ReceiveNext => ServerStepFits(c, s, step);
    case _ => ClientStepFits(c, s, step);
  }

  lemma TransferBound(c: Config, s: State, request: seq<byte>, body: Body)
    requires request != []
    ensures var t := TransferOf(c, s.peer, s.files, request, body); t.Download? ==> t.bufferSize <= c.maxBufferSize
  {
  }

  lemma {:induction false} RunFits(c: Config, s: State, steps: seq<Step>)
    requires ValidConfig(c) && AllFit(s) && Run(c, s, steps).Some?
    ensures AllFit(Run(c, s, steps).value)
    decreases |steps|
  {
    if steps != [] {
      StepFits(c, s, steps[0]);
      RunFits(c, Apply(c, s, steps[0]), steps[1..]);
    }
  }

  /** Reading the bytes of a channel as what its next packet is gives that packet and leaves the bytes of the rest. */
  predicate ReadsNext(ch: seq<Packet>)
    requires ch != []
  {
    match ch[0]
    case Raw(b) => |Wire(ch)| >= |b| && Wire(ch)[..|b|] == b && Wire(ch)[|b|..] == Wire(ch[1..])
    case Framed(b) => ReadFrame(Wire(ch)) == Some((b, Wire(ch[1..])))
  }

  lemma WireReadsNext(ch: seq<Packet>)
    requires ch != [] && Fits(ch)
    ensures ReadsNext(ch)
  {
    match ch[0]
    case Raw(b) => Split(b, Wire(ch[1..]));
    case Framed(b) => FrameRoundTrip(b, Wire(ch[1..]));
  }

  /** In every reachable state the packets are what the two ends read off the bytes that were written. */
  lemma PacketsOnTheWire(c: Config, s: State)
    requires ValidConfig(c) && Reachable(c, s)
    ensures s.toServer != [] ==> ReadsNext(s.toServer)
    ensures s.toClient != [] ==> ReadsNext(s.toClient)
  {
    var files, steps :| SmallFiles(files) && Run(c, Start(files), steps) == Some(s);
    RunFits(c, Start(files), steps);
    if s.toServer != [] {
      WireReadsNext(s.toServer);
    }
    if s.toClient != [] {
      WireReadsNext(s.toClient);
    }
  }

  lemma {:induction false} WireAppend(a: seq<Packet>, b: seq<Packet>)
    ensures Wire(a + b) == Wire(a) + Wire(b)
    decreases |a|
  {
    if a == [] {
      assert a + b == b;
    } else {
      assert (a + b)[1..] == a[1..] + b;
      WireAppend(a[1..], b);
      Assoc(if a[0].Raw? then a[0].bytes else Frame(a[0].bytes), Wire(a[1..]), Wire(b));
    }
  }
}
