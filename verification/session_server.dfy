/** The server of the step system is the server of the byte stream. */
module SessionServer {
  import opened Bytes
  import opened ClientRequests
  import opened Framing
  import opened Options
  import opened RequestHandlers
  import opened Responses
  import opened Seqs
  import opened ServerSessions
  import opened SessionInvariant
  import opened SessionRuns
  import opened Sessions
  import opened Transfers

  function Repeat(step: Step, n: nat): seq<Step> {
    if n == 0 then [] else [step] + Repeat(step, n - 1)
  }

  lemma WirePackets(frames: seq<seq<byte>>)
    ensures Wire(Packets(frames)) == Frames(frames)
    decreases |frames|
  {
    if frames != [] {
      Tail(Framed(frames[0]), Packets(frames[1..]));
      WirePackets(frames[1..]);
    }
  }

  /** All frames of a download are sent. */
  lemma {:induction false} SendAll(c: Config, s: State, n: nat)
    requires s.server.Sending? && |s.server.toSend| == n > 0
    ensures Run(c, s, Repeat(SendNext, n)) == Some(s.(server := Waiting, toClient := s.toClient + Packets(s.server.toSend)))
    decreases n
  {
    var toSend := s.server.toSend;
    var t := Apply(c, s, SendNext);
    Goes(c, s, SendNext, t, Repeat(SendNext, n - 1));
    Assoc(s.toClient, [Framed(toSend[0])], Packets(toSend[1..]));
    if n > 1 {
      SendAll(c, t, n - 1);
    } else {
      assert Packets(toSend) == [Framed(toSend[0])];
    }
  }

  predicate Readable(ch: seq<Packet>) {
    AllFramed(ch) && Fits(ch)
  }

  /** The state after some frames of an upload were read, which may be all. */
  function AfterFrames(s: State, n: nat): State
    requires s.server.Receiving? && n <= s.server.left && n <= |s.toServer|
  {
    var r := s.server;
    Stored(s.(server := r.(left := r.left - n, got := r.got + Concat(Contents(s.toServer[..n]))), toServer := s.toServer[n..]))
  }

  /** Reading one frame and then the others is reading them all. */
  lemma FrameByFrame(s: State, n: nat)
    requires s.server.Receiving? && 0 < n <= s.server.left && n <= |s.toServer| && Readable(s.toServer)
    ensures var t := ReceiveOne(s.(toServer := s.toServer[1..]), s.toServer[0]);
            if s.server.left == 1 then t == AfterFrames(s, n)
            else t.server.Receiving? && t.server.left == s.server.left - 1 && t.toServer == s.toServer[1..]
                 && AfterFrames(t, n - 1) == AfterFrames(s, n)
  {
    var p, mine := s.toServer[0], s.toServer[..n];
    assert mine[1..] == s.toServer[1..][..n - 1] && s.toServer[1..][n - 1..] == s.toServer[n..];
    Assoc(s.server.got, p.bytes, Concat(Contents(mine[1..])));
    if n == 1 {
      Unit(p.bytes);
    }
  }

  lemma {:induction false} ReceiveSome(c: Config, s: State, n: nat)
    requires s.server.Receiving? && 0 < s.server.left && n <= s.server.left && n <= |s.toServer| && Readable(s.toServer)
    ensures Run(c, s, Repeat(ReceiveNext, n)) == Some(AfterFrames(s, n))
    decreases n
  {
    if n == 0 {
      Unit(s.server.got);
    } else {
      var t := ReceiveOne(s.(toServer := s.toServer[1..]), s.toServer[0]);
      FrameByFrame(s, n);
      Goes(c, s, ReceiveNext, t, Repeat(ReceiveNext, n - 1));
      if s.server.left > 1 {
        ReceiveSome(c, t, n - 1);
      }
    }
  }

  /** The bytes of framed packets are frames that can be read back. */
  lemma {:induction false} WireIsFrames(ch: seq<Packet>)
    requires Readable(ch)
    ensures Wire(ch) == Frames(Contents(ch)) && |Contents(ch)| == |ch|
    ensures forall i :: 0 <= i < |ch| ==> |Contents(ch)[i]| < MAX_FRAME
    decreases |ch|
  {
    if ch != [] {
      var rest := ch[1..];
      WireIsFrames(rest);
      Tail(ch[0].bytes, Contents(rest));
    }
  }

  lemma {:induction false} ReadableParts(ch: seq<Packet>, n: nat)
    requires Readable(ch) && n <= |ch|
    ensures Readable(ch[..n]) && Readable(ch[n..])
    decreases n
  {
    if n == 0 {
      assert ch[..0] == [] && ch[0..] == ch;
    } else {
      ReadableParts(ch[1..], n - 1);
      FirstAndMore(ch, n);
      Tail(ch[0], ch[1..][..n - 1]);
    }
  }

  /** Reading frames off the bytes of a channel takes its packets. */
  lemma ReadPackets(ch: seq<Packet>, n: nat)
    requires Readable(ch) && n <= |ch|
    ensures ReadFrames(Wire(ch), n) == (Contents(ch[..n]), Wire(ch[n..]), true)
  {
    ReadableParts(ch, n);
    WireIsFrames(ch[..n]);
    Halves(ch, n);
    WireAppend(ch[..n], ch[n..]);
    FramesRoundTrip(Contents(ch[..n]), Wire(ch[n..]));
  }

  /** Reading more frames than there are takes them all. */
  lemma ReadAllPackets(ch: seq<Packet>, n: nat)
    requires Readable(ch) && n > |ch|
    ensures ReadFrames(Wire(ch), n) == (Contents(ch), [], false)
  {
    WireIsFrames(ch);
    ReadAllFrames(Contents(ch), n);
  }

  /** The files, with what has arrived of an upload. */
  function FilesSoFar(s: State): map<seq<byte>, seq<byte>> {
    if s.server.Receiving? then s.files[s.server.path := s.server.got] else s.files
  }

  /** The state agrees with what the loop makes of the same bytes. If they end within an upload, the server waits for
      the rest of it. */
  predicate Agrees(s: State, t: State, r: Served) {
    && Wire(t.toClient) == Wire(s.toClient) + Frames(r.sent)
    && t.peer == r.peer && FilesSoFar(t) == r.files && Wire(t.toServer) == r.rest
    && if r.connected then t.server.Waiting? || (t.server.Receiving? && t.toServer == []) else t.server.Closed?
  }

  /** A request is at the head of the channel. */
  predicate AtRequest(c: Config, s: State, body: Body) {
    && s.server.Waiting? && s.toServer != [] && Readable(s.toServer) && SmallFiles(body.files)
    && var request := s.toServer[0].bytes;
       request != [] ==> |Content(ResponseTo(c, s.peer, s.files, request, body))| < MAX_FRAME
  }

  lemma ServeRead(c: Config, s: State, body: Body)
    requires AtRequest(c, s, body)
    ensures var request := s.toServer[0].bytes;
            Serve(c, s.peer, s.files, Wire(s.toServer), body) ==
            if request == [] then Served([], s.peer, s.files, Wire(s.toServer[1..]), true)
            else if request[0] == QUIT then Served([], s.peer, s.files, Wire(s.toServer[1..]), false)
            else ServeRequest(c, s.peer, s.files, request, Wire(s.toServer[1..]), body)
  {
    WireReadsNext(s.toServer);
  }

  /** The state in which the request is taken and the response sent. */
  function Responded(c: Config, s: State, body: Body): State
    requires s.toServer != [] && s.toServer[0].bytes != []
  {
    var request := s.toServer[0].bytes;
    Proceed(s.(server := Handling(request), toServer := s.toServer[1..]),
            Content(ResponseTo(c, s.peer, s.files, request, body)), TransferOf(c, s.peer, s.files, request, body),
            if Ran(s.peer, request, body) then Some(body) else None)
  }

  lemma Responding(c: Config, s: State, body: Body, rest: seq<Step>)
    requires AtRequest(c, s, body) && s.toServer[0].bytes != [] && s.toServer[0].bytes[0] != QUIT
    ensures Run(c, s, [TakeRequest] + ([Respond(body)] + rest)) == Run(c, Responded(c, s, body), rest)
  {
    var t := s.(server := Handling(s.toServer[0].bytes), toServer := s.toServer[1..]);
    Goes(c, s, TakeRequest, t, [Respond(body)] + rest);
    Goes(c, t, Respond(body), Responded(c, s, body), rest);
  }

  /** The wire after one more response. */
  lemma WireResponse(ch: seq<Packet>, response: seq<byte>, data: seq<seq<byte>>)
    ensures Wire(ch + [Framed(response)]) == Wire(ch) + Frames([response])
    ensures Wire(ch + [Framed(response)] + Packets(data)) == Wire(ch) + Frames([response] + data)
  {
    WireAppend(ch, [Framed(response)]);
    assert Frame(response) + [] == Frame(response);
    assert Wire([Framed(response)]) == Frame(response) == Frames([response]);
    WireAppend(ch + [Framed(response)], Packets(data));
    WirePackets(data);
    FramesAppend([response], data);
    Assoc(Wire(ch), Frames([response]), Frames(data));
  }

  lemma {:induction false} RepeatOnly(step: Step, n: nat)
    ensures forall other :: other in Repeat(step, n) ==> other == step
    decreases n
  {
    if n > 0 {
      RepeatOnly(step, n - 1);
    }
  }

  /** The steps after the response, and where they lead. */
  ghost predicate Finishes(c: Config, s: State, u: State, r: Served, more: seq<Step>) {
    && Run(c, u, more).Some? && Agrees(s, Run(c, u, more).value, r)
    && forall step :: step in more ==> step.SendNext? || step.ReceiveNext?
  }

  lemma FinishDownload(c: Config, s: State, response: seq<byte>, t: Transfer, ran: Option<Body>, request: seq<byte>)
    returns (more: seq<Step>)
    requires t.Download? && t.bufferSize > 0 && s.toServer != []
    ensures var frames := DownloadFrames(t.content, t.bufferSize, Zeros(t.bufferSize));
            Finishes(c, s, Proceed(s.(server := Handling(request), toServer := s.toServer[1..]), response, t, ran),
                     Served([response] + frames, s.peer, s.files, Wire(s.toServer[1..]), true), more)
  {
    var frames := DownloadFrames(t.content, t.bufferSize, Zeros(t.bufferSize));
    WireResponse(s.toClient, response, frames);
    SendAll(c, Proceed(s.(server := Handling(request), toServer := s.toServer[1..]), response, t, ran), |frames|);
    RepeatOnly(SendNext, |frames|);
    more := Repeat(SendNext, |frames|);
  }

  /** What of an upload can be read off the wire, and the steps that read it. */
  lemma ReceiveWhatThereIs(c: Config, u: State, n: nat)
    requires u.server.Receiving? && u.server.left > 0 && u.server.got == [] && Readable(u.toServer)
    requires n == if u.server.left <= |u.toServer| then u.server.left else |u.toServer|
    ensures var r := ReadFrames(Wire(u.toServer), u.server.left); var t := Run(c, u, Repeat(ReceiveNext, n));
            && t == Some(AfterFrames(u, n)) && t.value.toClient == u.toClient && t.value.peer == u.peer
            && FilesSoFar(t.value) == u.files[u.server.path := Concat(r.0)] && Wire(t.value.toServer) == r.1
            && (t.value.server.Waiting? || (t.value.server.Receiving? && t.value.toServer == []))
  {
    var ch := u.toServer;
    if n < u.server.left {
      ReadAllPackets(ch, u.server.left);
      assert ch[..n] == ch && ch[n..] == [];
    } else {
      ReadPackets(ch, n);
    }
    ReceiveSome(c, u, n);
    Unit(Concat(Contents(ch[..n])));
  }

  lemma FinishUpload(c: Config, s: State, response: seq<byte>, t: Transfer, ran: Option<Body>, request: seq<byte>)
    returns (more: seq<Step>)
    requires t.Upload? && s.toServer != [] && Readable(s.toServer)
    ensures var r := ReadFrames(Wire(s.toServer[1..]), t.bufferCount);
            Finishes(c, s, Proceed(s.(server := Handling(request), toServer := s.toServer[1..]), response, t, ran),
                     Served([response], s.peer, s.files[t.path := Concat(r.0)], r.1, true), more)
  {
    var u := Proceed(s.(server := Handling(request), toServer := s.toServer[1..]), response, t, ran);
    var rest := s.toServer[1..];
    WireResponse(s.toClient, response, []);
    if t.bufferCount == 0 {
      more := [];
    } else {
      var n := if t.bufferCount <= |rest| then t.bufferCount else |rest|;
      ReceiveWhatThereIs(c, u, n);
      RepeatOnly(ReceiveNext, n);
      more := Repeat(ReceiveNext, n);
    }
  }

  lemma FinishOther(c: Config, s: State, response: seq<byte>, t: Transfer, ran: Option<Body>, request: seq<byte>)
    requires t.Denied? && s.toServer != []
    ensures Finishes(c, s, Proceed(s.(server := Handling(request), toServer := s.toServer[1..]), response, t, ran),
                     match ran
                     case Some(b) => Served([response], s.peer.(logged := b.logged, role := b.role), b.files, Wire(s.toServer[1..]), true)
                     case None => Served([response], s.peer, s.files, Wire(s.toServer[1..]), true), [])
  {
    WireResponse(s.toClient, response, []);
  }

  lemma Finish(c: Config, s: State, body: Body) returns (more: seq<Step>)
    requires AtRequest(c, s, body) && s.toServer[0].bytes != [] && s.toServer[0].bytes[0] != QUIT
    ensures Finishes(c, s, Responded(c, s, body),
                     ServeRequest(c, s.peer, s.files, s.toServer[0].bytes, Wire(s.toServer[1..]), body), more)
  {
    var request := s.toServer[0].bytes;
    var t, response := TransferOf(c, s.peer, s.files, request, body), Content(ResponseTo(c, s.peer, s.files, request, body));
    var ran := if Ran(s.peer, request, body) then Some(body) else None;
    match t {
      case Download(_, _) => more := FinishDownload(c, s, response, t, ran, request);
      case Upload(_, _, _, _) => more := FinishUpload(c, s, response, t, ran, request);
      case Denied(_) =>
        FinishOther(c, s, response, t, ran, request);
        more := [];
    }
  }

  /** An empty request, or the end of the session. */
  lemma StepsIgnore(c: Config, s: State, body: Body)
    requires AtRequest(c, s, body) && (s.toServer[0].bytes == [] || s.toServer[0].bytes[0] == QUIT)
    ensures var t := Run(c, s, [TakeRequest] + []);
            t.Some? && Agrees(s, t.value, Served([], s.peer, s.files, Wire(s.toServer[1..]), s.toServer[0].bytes == []))
  {
    Goes(c, s, TakeRequest, Apply(c, s, TakeRequest), []);
    Unit(Wire(s.toClient));
  }

  /** A request that is answered. */
  lemma StepsAnswer(c: Config, s: State, body: Body) returns (steps: seq<Step>)
    requires AtRequest(c, s, body) && s.toServer[0].bytes != [] && s.toServer[0].bytes[0] != QUIT
    ensures Run(c, s, steps).Some?
    ensures Agrees(s, Run(c, s, steps).value,
                   ServeRequest(c, s.peer, s.files, s.toServer[0].bytes, Wire(s.toServer[1..]), body))
    ensures forall step :: step in steps ==> step.TakeRequest? || step.Respond? || step.SendNext? || step.ReceiveNext?
  {
    var more := Finish(c, s, body);
    Responding(c, s, body, more);
    steps := [TakeRequest] + ([Respond(body)] + more);
  }

  /** From a request on, the server's steps do what the loop does with the bytes on the wire: it sends the same bytes,
      leaves the same bytes unread, and the same session and files, also when the wire ends within an upload. */
  lemma StepsServe(c: Config, s: State, body: Body) returns (steps: seq<Step>)
    requires AtRequest(c, s, body)
    ensures Run(c, s, steps).Some? && Agrees(s, Run(c, s, steps).value, Serve(c, s.peer, s.files, Wire(s.toServer), body))
    ensures forall step :: step in steps ==> step.TakeRequest? || step.Respond? || step.SendNext? || step.ReceiveNext?
  {
    ServeRead(c, s, body);
    var request := s.toServer[0].bytes;
    if request == [] || request[0] == QUIT {
      StepsIgnore(c, s, body);
      steps := [TakeRequest] + [];
    } else {
      steps := StepsAnswer(c, s, body);
    }
  }
}
