/** Which requests the server serves to whom, by the ids on the wire. Nothing here refers to the table of requirements
    the server works with; that they agree is what is proved. */
module Permissions {
  import opened Bytes
  import opened Framing
  import opened Options
  import opened RequestHandlers
  import opened Responses
  import opened Seqs
  import opened ServerSessions
  import opened SessionInvariant
  import opened SessionRuns
  import opened Sessions
  import opened Transfers

  // ---------------------------------------------------------------- one request

  /** The ids with a handler; 0x20, which ends the session, has none. */
  predicate Known(id: byte) {
    || id == 0x00 || id == 0x21 || id == 0x22 || id == 0x23
    || id == 0x40 || id == 0x41 || id == 0x42 || id == 0x43 || id == 0x44 || id == 0x45
    || id == 0x60 || id == 0x61
    || id == 0x80 || id == 0x81 || id == 0x82 || id == 0x83 || id == 0x84
    || id == 0xA0
  }

  /** Asking for the version, logging in, moving and copying a file. */
  predicate Open(id: byte) {
    id == 0x00 || id == 0x21 || id == 0x83 || id == 0x84
  }

  /** Running a system command and restarting the server. */
  predicate ForDevelopers(id: byte) {
    id == 0x23 || id == 0xA0
  }

  /** The error that answers a request, unless its handler runs: an unknown id, a version before 1.0.0, no login,
      a role below that of a developer. */
  function Denial(id: byte, peer: Peer): Option<byte> {
    if !Known(id) then Some(0x02)
    else if peer.version < 0x1_0000_0000 then Some(0x00)
    else if !Open(id) && !peer.logged then Some(0x10)
    else if ForDevelopers(id) && peer.role < 2 then Some(0x20)
    else None
  }

  lemma DenialIsRefusal(id: byte, peer: Peer)
    ensures Known(id) <==> RequirementsOf(id).Some?
    ensures Known(id) ==> Denial(id, peer) == Refusal(RequirementsOf(id).value, peer)
  {
  }

  /** A request that is denied is answered by one frame, the error without a message, and changes nothing. */
  lemma Denied(c: Config, peer: Peer, files: map<seq<byte>, seq<byte>>, request: seq<byte>, rest: seq<byte>, body: Body)
    requires request != [] && Denial(request[0], peer).Some?
    ensures var id := Denial(request[0], peer).value;
            && ServeRequest(c, peer, files, request, rest, body) == Served([[0xFF, id, 0x00, 0x00]], peer, files, rest, true)
            && ReadReply([0xFF, id, 0x00, 0x00]) == Refused(id, [])
  {
    DenialIsRefusal(request[0], peer);
    ErrorFrame(Denial(request[0], peer).value);
  }

  /** A peer that is not logged gets no handler but that of an open id: every other request is answered by one error,
      and leaves the files, the peer and the stream as they are. */
  lemma NotLogged(c: Config, peer: Peer, files: map<seq<byte>, seq<byte>>, request: seq<byte>, rest: seq<byte>, body: Body)
    requires request != [] && |request| < MAX_FRAME && !peer.logged
    requires request[0] != 0x00 && request[0] != 0x20 && request[0] != 0x21 && request[0] != 0x83 && request[0] != 0x84
    ensures var r := Serve(c, peer, files, Frame(request) + rest, body);
            && r.peer == peer && r.files == files && r.rest == rest && r.connected && |r.sent| == 1
            && ReadReply(r.sent[0]) == Refused(if !Known(request[0]) then 0x02
                                               else if peer.version < 0x1_0000_0000 then 0x00 else 0x10, [])
  {
    ServeFrame(c, peer, files, request, rest, body);
    Denied(c, peer, files, request, rest, body);
  }

  /** The answer of a handler other than those of the transfers, and what it leaves. */
  function Answering(c: Config, peer: Peer, request: seq<byte>, rest: seq<byte>, body: Body): Served
    requires request != []
  {
    Served([Content(FinalResponse(None, body.actions, request[1..], c.texts.invalidRequest))],
           peer.(logged := body.logged, role := body.role), body.files, rest, true)
  }

  lemma Allowed(c: Config, peer: Peer, files: map<seq<byte>, seq<byte>>, request: seq<byte>, rest: seq<byte>, body: Body)
    requires request != [] && Denial(request[0], peer).None? && request[0] != 0x44 && request[0] != 0x60
    ensures ServeRequest(c, peer, files, request, rest, body) == Answering(c, peer, request, rest, body)
  {
    DenialIsRefusal(request[0], peer);
  }

  lemma ServeFrame(c: Config, peer: Peer, files: map<seq<byte>, seq<byte>>, request: seq<byte>, rest: seq<byte>, body: Body)
    requires request != [] && |request| < MAX_FRAME && request[0] != 0x20
    ensures Serve(c, peer, files, Frame(request) + rest, body) == ServeRequest(c, peer, files, request, rest, body)
  {
    FrameRoundTrip(request, rest);
  }

  /** A request with the id 0x20 ends the session and is not answered; an empty one is ignored. */
  lemma QuitsUnanswered(c: Config, peer: Peer, files: map<seq<byte>, seq<byte>>, request: seq<byte>, rest: seq<byte>, body: Body)
    requires |request| < MAX_FRAME && (request == [] || request[0] == 0x20)
    ensures Serve(c, peer, files, Frame(request) + rest, body) == Served([], peer, files, rest, request == [])
  {
    FrameRoundTrip(request, rest);
  }

  /** The handler of an open id runs whoever asks, if the version suffices. */
  lemma OpenToAll(c: Config, peer: Peer, files: map<seq<byte>, seq<byte>>, request: seq<byte>, rest: seq<byte>, body: Body)
    requires request != [] && |request| < MAX_FRAME
    requires request[0] == 0x00 || request[0] == 0x21 || request[0] == 0x83 || request[0] == 0x84
    ensures Serve(c, peer, files, Frame(request) + rest, body) ==
            if peer.version >= 0x1_0000_0000 then Answering(c, peer, request, rest, body)
            else Served([[0xFF, 0x00, 0x00, 0x00]], peer, files, rest, true)
  {
    ServeFrame(c, peer, files, request, rest, body);
    if peer.version >= 0x1_0000_0000 {
      Allowed(c, peer, files, request, rest, body);
    } else {
      Denied(c, peer, files, request, rest, body);
    }
  }

  /** To run a system command (0x23) or to restart the server (0xA0) takes the role of a developer. */
  lemma DevelopersOnly(c: Config, peer: Peer, files: map<seq<byte>, seq<byte>>, request: seq<byte>, rest: seq<byte>, body: Body)
    requires request != [] && |request| < MAX_FRAME && (request[0] == 0x23 || request[0] == 0xA0)
    requires peer.version >= 0x1_0000_0000 && peer.logged
    ensures Serve(c, peer, files, Frame(request) + rest, body) ==
            if peer.role >= 2 then Answering(c, peer, request, rest, body)
            else Served([[0xFF, 0x20, 0x00, 0x00]], peer, files, rest, true)
  {
    ServeFrame(c, peer, files, request, rest, body);
    if peer.role >= 2 {
      Allowed(c, peer, files, request, rest, body);
    } else {
      Denied(c, peer, files, request, rest, body);
    }
  }

  /** Whoever is logged is served, in any role: the two transfers, and every other handler. */
  lemma LoggedIsServed(c: Config, peer: Peer, files: map<seq<byte>, seq<byte>>, request: seq<byte>, rest: seq<byte>, body: Body)
    requires request != [] && |request| < MAX_FRAME && peer.version >= 0x1_0000_0000 && peer.logged
    requires Known(request[0]) && request[0] != 0x23 && request[0] != 0xA0
    ensures request[0] != 0x44 && request[0] != 0x60 ==>
              Serve(c, peer, files, Frame(request) + rest, body) == Answering(c, peer, request, rest, body)
    ensures request[0] == 0x44 ==> TransferOf(c, peer, files, request, body) == Opening(request[1..], files, c.maxBufferSize, c.texts)
    ensures request[0] == 0x60 ==> TransferOf(c, peer, files, request, body) == Creating(request[1..], c.locked, c.maxBufferSize, c.texts)
  {
    ServeFrame(c, peer, files, request, rest, body);
    if request[0] == 0x44 || request[0] == 0x60 {
      DenialIsRefusal(request[0], peer);
    } else {
      Allowed(c, peer, files, request, rest, body);
    }
  }

  // ---------------------------------------------------------------- whole connections

  ghost predicate NoLogins(bodies: seq<Body>) {
    forall b :: b in bodies ==> !b.logged
  }

  /** Answered by an error that says why, unless it is empty or its id is open. */
  predicate Rebuffed(e: Exchange, version: nat) {
    e.request != [] && !Open(e.request[0]) ==>
      e.sent == [[0xFF, if !Known(e.request[0]) then 0x02 else if version < 0x1_0000_0000 then 0x00 else 0x10, 0x00, 0x00]]
  }

  lemma ServeWithoutLogin(c: Config, peer: Peer, files: map<seq<byte>, seq<byte>>, input: seq<byte>, body: Body)
    requires !peer.logged && !body.logged
    ensures var r := Serve(c, peer, files, input, body);
            && !r.peer.logged && r.peer.version == peer.version
            && (r.connected ==> Rebuffed(Exchange(ReadFrame(input).value.0, r.sent), peer.version))
            && (r.files == files || (r.connected && ReadFrame(input).value.0 != [] && Open(ReadFrame(input).value.0[0])))
  {
    if ReadFrame(input).Some? {
      var (request, rest) := ReadFrame(input).value;
      if request != [] && request[0] != 0x20 && !Open(request[0]) {
        Denied(c, peer, files, request, rest, body);
      }
    }
  }

  /** Whatever bytes arrive: as long as no handler leaves a login, every request that needs one, or that no handler
      knows, is answered by its error; the files change only if some handler of an open id changes them. */
  lemma {:induction false} NoneServedWithoutLogin(c: Config, peer: Peer, files: map<seq<byte>, seq<byte>>, input: seq<byte>, bodies: seq<Body>)
    requires SmallFiles(files) && ValidBodies(bodies) && |input| < FILE_LIMIT && !peer.logged && NoLogins(bodies)
    ensures var all := ServeAll(c, peer, files, input, bodies);
            && (forall e :: e in all.0 ==> Rebuffed(e, peer.version))
            && ((forall e :: e in all.0 && e.request != [] ==> !Open(e.request[0])) ==> all.1 == files)
    decreases |input|
  {
    var body := HeadOr(bodies, peer, files);
    var r := Serve(c, peer, files, input, body);
    ServeShrinks(c, peer, files, input, body);
    ServeWithoutLogin(c, peer, files, input, body);
    if r.connected {
      NoneServedWithoutLogin(c, r.peer, r.files, r.rest, Rest(bodies));
      var all := ServeAll(c, peer, files, input, bodies);
      var more := ServeAll(c, r.peer, r.files, r.rest, Rest(bodies));
      var first := Exchange(ReadFrame(input).value.0, r.sent);
      assert all.0 == [first] + more.0;
      assert first in all.0 && forall e :: e in more.0 ==> e in all.0;
    }
  }

  // ---------------------------------------------------------------- sessions

  ghost predicate LeavesNoLogin(steps: seq<Step>) {
    forall step :: step in steps && step.Respond? ==> !step.body.logged
  }

  /** Nothing was transferred, and nothing is being transferred. */
  predicate Idling(s: State) {
    && !s.peer.logged && s.served == [] && s.fetched == [] && s.offered == [] && s.stored == []
    && !s.server.Sending? && !s.server.Receiving? && !s.client.Fetching? && !s.client.Pushing?
  }

  lemma RespondIdles(c: Config, s: State, body: Body)
    requires Idling(s) && Enabled(c, s, Respond(body)) && !body.logged
    ensures Idling(Apply(c, s, Respond(body)))
    ensures Apply(c, s, Respond(body)).files != s.files ==> Open(s.server.request[0])
  {
    DenialIsRefusal(s.server.request[0], s.peer);
  }

  lemma HearIdles(c: Config, s: State)
    requires Inv(s) && Idling(s) && Enabled(c, s, HearReply)
    ensures Idling(Apply(c, s, HearReply)) && Apply(c, s, HearReply).files == s.files
  {
  }

  lemma OtherIdles(c: Config, s: State, step: Step)
    requires Idling(s) && Enabled(c, s, step) && !step.Respond? && !step.HearReply?
    ensures Idling(Apply(c, s, step)) && Apply(c, s, step).files == s.files
  {
  }

  lemma StepIdles(c: Config, s: State, step: Step)
    requires Inv(s) && Idling(s) && Enabled(c, s, step) && (step.Respond? ==> !step.body.logged)
    ensures Idling(Apply(c, s, step))
    ensures Apply(c, s, step).files == s.files || (step.Respond? && Open(s.server.request[0]))
  {
    if step.Respond? {
      RespondIdles(c, s, step.body);
    } else if step.HearReply? {
      HearIdles(c, s);
    } else {
      OtherIdles(c, s, step);
    }
  }

  /** A step that changes the files is the response to a request with an open id. */
  ghost predicate OnlyOpenChanges(c: Config, s: State, steps: seq<Step>)
    decreases |steps|
  {
    steps != [] && Enabled(c, s, steps[0]) ==>
      && (Apply(c, s, steps[0]).files == s.files
          || (steps[0].Respond? && (s.server.request[0] == 0x00 || s.server.request[0] == 0x21
                                    || s.server.request[0] == 0x83 || s.server.request[0] == 0x84)))
      && OnlyOpenChanges(c, Apply(c, s, steps[0]), steps[1..])
  }

  lemma {:induction false} RunIdles(c: Config, s: State, steps: seq<Step>)
    requires Inv(s) && Idling(s) && Run(c, s, steps).Some? && LeavesNoLogin(steps)
    ensures Idling(Run(c, s, steps).value) && OnlyOpenChanges(c, s, steps)
    decreases |steps|
  {
    if steps != [] {
      StepKeeps(c, s, steps[0]);
      StepIdles(c, s, steps[0]);
      RunIdles(c, Apply(c, s, steps[0]), steps[1..]);
    }
  }

  /** Whatever client and server do: as long as no handler leaves a login, no file is served or stored, none is
      downloaded or offered, and no file changes but through a request with an open id. */
  lemma NothingWithoutLogin(c: Config, files: map<seq<byte>, seq<byte>>, steps: seq<Step>)
    requires SmallFiles(files) && Run(c, Start(files), steps).Some? && LeavesNoLogin(steps)
    ensures var s := Run(c, Start(files), steps).value;
            !s.peer.logged && s.served == [] && s.stored == [] && s.fetched == [] && s.offered == []
    ensures OnlyOpenChanges(c, Start(files), steps)
  {
    StartInv(files);
    RunIdles(c, Start(files), steps);
  }
}
