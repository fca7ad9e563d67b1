/** What comes of a transfer that the server can grant, however the two ends go on. */
module SessionTransfers {
  import opened Bytes
  import opened ClientRequests
  import opened Framing
  import opened Options
  import opened RequestHandlers
  import opened Responses
  import opened Seqs
  import opened Transfers
  import opened SessionInvariant
  import opened SessionRuns
  import opened Sessions

  // ---------------------------------------------------------------- a download

  /** A download request by a client that is logged, for a file that is there, with a buffer that is not too large. */
  predicate CanFetch(c: Config, s: State, r: Request) {
    && ValidRequest(r) && r.Fetch? && r.bufferSize <= c.maxBufferSize && SentPath(r.path) in s.files
    && s.peer.logged && s.peer.version >= 0x1_0000_0000
  }

  lemma FetchGranted(c: Config, s: State, t: State, r: Request, body: Body)
    requires CanFetch(c, s, r) && t.files == s.files && t.peer == s.peer
    ensures TransferOf(c, t.peer, t.files, RequestBytes(r), body) == Download(s.files[SentPath(r.path)], r.bufferSize)
  {
    DownloadUnderstood(r.path, r.bufferSize, s.files, c.maxBufferSize, c.texts);
  }

  /** Asked and not answered, nothing else having happened since `s`. */
  predicate Asked(s: State, t: State, r: Request) {
    && t.client == Awaiting(r) && (t.server.Waiting? || t.server.Handling?) && t.answered == s.answered && t.heard == s.heard
    && t.files == s.files && t.peer == s.peer && t.served == s.served && t.stored == s.stored && t.offered == s.offered
  }

  /** The request is under way, or it was answered and the file is being served or was served. */
  ghost predicate Serving(s: State, t: State, r: Request, content: seq<byte>) {
    Inv(t) && t.asked == s.asked + 1 && (Asked(s, t, r) || (t.answered == t.asked && t.served == s.served + [content]))
  }

  lemma AskedStays(c: Config, s: State, t: State, r: Request, step: Step)
    requires AtRest(s) && s.asked == s.answered == s.heard && Inv(t) && t.asked == s.asked + 1 && Asked(s, t, r)
    requires Enabled(c, t, step) && !step.Ask? && !step.Quit? && !step.Respond?
    ensures Asked(s, Apply(c, t, step), r) && Apply(c, t, step).asked == t.asked
  {
  }

  lemma NothingToAnswer(t: State)
    requires Inv(t) && t.answered == t.asked
    ensures !t.server.Handling?
  {
  }

  lemma ServedStays(c: Config, t: State, step: Step)
    requires Enabled(c, t, step) && !step.Ask? && !step.Quit? && !step.Respond?
    ensures var u := Apply(c, t, step); u.asked == t.asked && u.answered == t.answered && u.served == t.served
  {
  }

  lemma StepServing(c: Config, s: State, t: State, r: Request, step: Step)
    requires AtRest(s) && s.asked == s.answered == s.heard && CanFetch(c, s, r)
    requires Serving(s, t, r, s.files[SentPath(r.path)]) && Enabled(c, t, step) && !step.Ask? && !step.Quit?
    ensures Serving(s, Apply(c, t, step), r, s.files[SentPath(r.path)])
  {
    StepKeeps(c, t, step);
    if step.Respond? {
      if t.answered == t.asked {
        NothingToAnswer(t);
      } else {
        assert t.server.request == RequestBytes(r);
        FetchGranted(c, s, t, r, step.body);
      }
    } else if t.answered == t.asked {
      ServedStays(c, t, step);
    } else {
      AskedStays(c, s, t, r, step);
    }
  }

  lemma {:induction false} RunServing(c: Config, s: State, t: State, r: Request, steps: seq<Step>)
    requires AtRest(s) && s.asked == s.answered == s.heard && CanFetch(c, s, r)
    requires Serving(s, t, r, s.files[SentPath(r.path)]) && Run(c, t, steps).Some? && NothingAsked(steps)
    ensures Serving(s, Run(c, t, steps).value, r, s.files[SentPath(r.path)])
    decreases |steps|
  {
    if steps != [] {
      assert steps[0] in steps && forall step :: step in steps[1..] ==> step in steps;
      StepServing(c, s, t, r, steps[0]);
      RunServing(c, s, Apply(c, t, steps[0]), r, steps[1..]);
    }
  }

  lemma RestIsCounted(c: Config, s: State)
    requires Inv(s) && AtRest(s)
    ensures s.asked == s.answered == s.heard
  {
  }

  /** A session at rest whose client asks for a file the server can serve: whatever the two ends do, when the session is
      at rest again the client has one more file, and it is that file. */
  lemma FetchCompletes(c: Config, s: State, r: Request, steps: seq<Step>)
    requires Reachable(c, s) && AtRest(s) && s.client.Idle? && CanFetch(c, s, r)
    requires NothingAsked(steps) && Run(c, s, [Ask(r)] + steps).Some? && AtRest(Run(c, s, [Ask(r)] + steps).value)
    ensures Run(c, s, [Ask(r)] + steps).value.fetched == s.fetched + [s.files[SentPath(r.path)]]
  {
    ReachableInv(c, s);
    RestIsCounted(c, s);
    var t := Apply(c, s, Ask(r));
    StepKeeps(c, s, Ask(r));
    Goes(c, s, Ask(r), t, steps);
    RunServing(c, s, t, r, steps);
  }

  // ---------------------------------------------------------------- an upload

  /** An upload request by a client that is logged, for a path that can be opened, with a buffer that is not too large. */
  predicate CanPush(c: Config, s: State, r: Request) {
    && ValidRequest(r) && r.Push? && r.bufferSize <= c.maxBufferSize && SentPath(r.path) !in c.locked
    && s.peer.logged && s.peer.version >= 0x1_0000_0000
  }

  lemma PushGranted(c: Config, s: State, t: State, r: Request, body: Body)
    requires CanPush(c, s, r) && t.peer == s.peer
    ensures TransferOf(c, t.peer, t.files, RequestBytes(r), body) ==
            Transfer.Upload(SentPath(r.path), |r.content|, r.bufferSize, Count(|r.content|, r.bufferSize))
  {
    UploadUnderstood(r.path, |r.content|, r.bufferSize, c.locked, c.maxBufferSize, c.texts);
  }

  /** A transfer has at least one frame. */
  lemma SomeFrame(size: nat, chunk: nat)
    requires chunk > 0
    ensures Count(size, chunk) > 0
  {
  }

  lemma PushOpens(c: Config, s: State, t: State, r: Request, body: Body)
    requires CanPush(c, s, r) && t.peer == s.peer
    ensures var transfer := TransferOf(c, t.peer, t.files, RequestBytes(r), body); transfer.Upload? && transfer.bufferCount > 0
  {
    SomeFrame(|r.content|, r.bufferSize);
    PushGranted(c, s, t, r, body);
  }

  /** The server handles the request that the client awaits. */
  lemma HandlesAwaited(t: State, r: Request)
    requires Inv(t) && t.client == Awaiting(r) && t.server.Handling?
    ensures ValidRequest(r) && t.server.request == RequestBytes(r)
  {
  }

  /** Granted, but not heard yet: the server has nothing of the file. */
  predicate Opened(s: State, t: State, r: Request) {
    && t.client == Awaiting(r) && t.server.Receiving? && t.answered == t.asked && t.heard == s.heard
    && t.files == s.files && t.stored == s.stored && t.offered == s.offered
  }

  /** Heard; the file is being pushed or is stored. */
  predicate Storing(s: State, t: State, f: NamedFile) {
    && t.heard == t.answered == t.asked && t.offered == s.offered + [f]
    && if t.stored == s.stored then t.files == s.files else t.stored == s.stored + [f] && t.files == s.files[f.path := f.content]
  }

  ghost predicate Pushed(s: State, t: State, r: Request)
    requires r.Push?
  {
    Inv(t) && t.asked == s.asked + 1 && (Asked(s, t, r) || Opened(s, t, r) || Storing(s, t, NamedFile(SentPath(r.path), r.content)))
  }

  lemma OpenedStays(c: Config, s: State, t: State, r: Request, step: Step)
    requires AtRest(s) && Inv(t) && r.Push? && Opened(s, t, r)
    requires Enabled(c, t, step) && !step.Ask? && !step.Quit? && !step.Respond?
    ensures var u := Apply(c, t, step);
            u.asked == t.asked && (Opened(s, u, r) || Storing(s, u, NamedFile(SentPath(r.path), r.content)))
  {
  }

  lemma StoreOne(s: State, t: State, p: Packet, f: NamedFile)
    requires AtRest(s) && Inv(t) && Storing(s, t, f) && t.server.Receiving? && t.toServer != [] && p == t.toServer[0]
    requires Inv(ReceiveOne(t.(toServer := t.toServer[1..]), p))
    ensures Storing(s, ReceiveOne(t.(toServer := t.toServer[1..]), p), f)
  {
    var u := ReceiveOne(t.(toServer := t.toServer[1..]), p);
    StoredExact(u);
    StoredExact(t);
    if u.stored != t.stored {
      assert |u.stored| == |t.stored| + 1 && u.stored[..|t.stored|] == t.stored;
      assert u.stored <= s.offered + [f];
      assert u.stored == s.stored + [f];
    }
  }

  lemma StoringStays(c: Config, s: State, t: State, f: NamedFile, step: Step)
    requires AtRest(s) && Inv(t) && Storing(s, t, f)
    requires Enabled(c, t, step) && !step.Ask? && !step.Quit? && !step.Respond? && !step.ReceiveNext?
    ensures Storing(s, Apply(c, t, step), f) && Apply(c, t, step).asked == t.asked
  {
  }

  lemma AnsweredStays(c: Config, s: State, t: State, r: Request, step: Step)
    requires AtRest(s) && r.Push? && Pushed(s, t, r) && t.answered == t.asked
    requires Enabled(c, t, step) && !step.Ask? && !step.Quit? && !step.Respond?
    requires Inv(Apply(c, t, step)) && s.asked == s.answered
    ensures Pushed(s, Apply(c, t, step), r)
  {
    var f := NamedFile(SentPath(r.path), r.content);
    if Opened(s, t, r) {
      OpenedStays(c, s, t, r, step);
    } else if step.ReceiveNext? {
      StoreOne(s, t, t.toServer[0], f);
    } else {
      StoringStays(c, s, t, f, step);
    }
  }

  lemma ProceedOpens(s: State, t: State, r: Request, response: seq<byte>, transfer: Transfer, ran: Option<Body>)
    requires Asked(s, t, r) && t.asked == t.answered + 1 && transfer.Upload? && transfer.bufferCount > 0
    ensures Opened(s, Proceed(t, response, transfer, ran), r) && Proceed(t, response, transfer, ran).asked == t.asked
  {
  }

  lemma RespondOpens(c: Config, s: State, t: State, r: Request, body: Body)
    requires CanPush(c, s, r) && Asked(s, t, r) && t.asked == t.answered + 1 && Enabled(c, t, Respond(body))
    requires t.server.request == RequestBytes(r)
    ensures Opened(s, Apply(c, t, Respond(body)), r) && Apply(c, t, Respond(body)).asked == t.asked
  {
    var request := RequestBytes(r);
    PushOpens(c, s, t, r, body);
    ProceedOpens(s, t, r, Content(ResponseTo(c, t.peer, t.files, request, body)), TransferOf(c, t.peer, t.files, request, body),
                 if Ran(t.peer, request, body) then Some(body) else None);
  }

  lemma StepPushed(c: Config, s: State, t: State, r: Request, step: Step)
    requires AtRest(s) && s.asked == s.answered == s.heard && CanPush(c, s, r)
    requires Pushed(s, t, r) && Enabled(c, t, step) && !step.Ask? && !step.Quit?
    ensures Pushed(s, Apply(c, t, step), r)
  {
    StepKeeps(c, t, step);
    if t.answered == t.asked {
      NothingToAnswer(t);
      AnsweredStays(c, s, t, r, step);
    } else if step.Respond? {
      HandlesAwaited(t, r);
      RespondOpens(c, s, t, r, step.body);
    } else {
      AskedStays(c, s, t, r, step);
    }
  }

  lemma {:induction false} RunPushed(c: Config, s: State, t: State, r: Request, steps: seq<Step>)
    requires AtRest(s) && s.asked == s.answered == s.heard && CanPush(c, s, r)
    requires Pushed(s, t, r) && Run(c, t, steps).Some? && NothingAsked(steps)
    ensures Pushed(s, Run(c, t, steps).value, r)
    decreases |steps|
  {
    if steps != [] {
      assert steps[0] in steps && forall step :: step in steps[1..] ==> step in steps;
      StepPushed(c, s, t, r, steps[0]);
      RunPushed(c, s, Apply(c, t, steps[0]), r, steps[1..]);
    }
  }

  /** A session at rest whose client offers a file the server can store: whatever the two ends do, when the session is
      at rest again the file at that path has this content, and no other file has changed. */
  lemma PushCompletes(c: Config, s: State, r: Request, steps: seq<Step>)
    requires Reachable(c, s) && AtRest(s) && s.client.Idle? && CanPush(c, s, r)
    requires NothingAsked(steps) && Run(c, s, [Ask(r)] + steps).Some? && AtRest(Run(c, s, [Ask(r)] + steps).value)
    ensures var t := Run(c, s, [Ask(r)] + steps).value;
            t.files == s.files[SentPath(r.path) := r.content] && t.stored == s.stored + [NamedFile(SentPath(r.path), r.content)]
  {
    ReachableInv(c, s);
    RestIsCounted(c, s);
    var t := Apply(c, s, Ask(r));
    StepKeeps(c, s, Ask(r));
    Goes(c, s, Ask(r), t, steps);
    RunPushed(c, s, t, r, steps);
  }

  // ---------------------------------------------------------------- the end

  /** A client at rest can end the session. */
  lemma Quits(c: Config, s: State)
    requires AtRest(s) && s.client.Idle?
    ensures Run(c, s, [Quit] + ([TakeRequest] + [])) == Some(s.(client := Gone, server := Closed))
  {
    var t := s.(client := Gone, toServer := [Framed([0x20, 0x00])]);
    Goes(c, s, Quit, t, [TakeRequest] + []);
    Goes(c, t, TakeRequest, s.(client := Gone, server := Closed), []);
  }
}
