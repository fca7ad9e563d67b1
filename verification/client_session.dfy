/** The client's side of a connection: the handshake and its end. */
module ClientSessions {
  import opened Bytes
  import opened ClientRequests
  import opened Framing
  import opened Responses
  import opened Seqs
  import opened Sessions
  import opened Versions
  import S = ServerSessions
  import H = RequestHandlers

  class Client {
    const version: Version
    /** To the server, and from it, with everything that will arrive. */
    const output: Channel
    const input: Channel
    var server_ver: Version
    var min_client_version: Version
    var max_client_version: Version
    var is_logged: bool
    var is_connected: bool

    constructor (version: Version, output: Channel, input: Channel)
      ensures this.version == version && this.output == output && this.input == input
      ensures !is_logged && !is_connected
    {
      this.version, this.output, this.input := version, output, input;
      server_ver, min_client_version, max_client_version := Version(0, 0, 0), Version(0, 0, 0), Version(0, 0, 0);
      is_logged, is_connected := false, false;
    }

    /** The versions are those that arrived, one after the other; the others are as before. A stream that ends within
        one is used up. */
    twostate predicate Learned(arrived: seq<byte>)
      reads this, input
    {
      && server_ver == (if |arrived| >= 8 then FromCombined(ValueOf(arrived[..8])) else old(server_ver))
      && min_client_version == (if |arrived| >= 16 then FromCombined(ValueOf(arrived[8..][..8])) else old(min_client_version))
      && max_client_version == (if |arrived| >= 24 then FromCombined(ValueOf(arrived[8..][8..][..8])) else old(max_client_version))
      && input.bytes == if |arrived| >= 24 then arrived[8..][8..][8..] else []
    }

    method resetState()
      modifies this`is_logged, this`is_connected
      ensures !is_logged && !is_connected
    {
      is_logged, is_connected := false, false;
    }

    /** `reached` says whether the server could be reached at all. A client that is turned away stays marked as
        connected. */
    method connect(reached: bool) returns (ok: bool)
      requires Valid(version) && output != input
      modifies this, output, input
      ensures is_connected == reached && !is_logged
      ensures !reached ==> !ok && output.bytes == old(output.bytes)
      ensures reached ==> ok == (old(input.bytes) != [] && old(input.bytes)[0] != 0)
      ensures reached ==> output.bytes == old(output.bytes) + WELCOME + if ok then LittleEndian(Combine(version), 8) else []
      ensures ok ==> Learned(old(input.bytes)[1..])
    {
      resetState();
      is_connected := reached;
      if !is_connected {
        return false;
      }
      ok := checkWelcomeMessage();
      if !ok {
        assert output.bytes + [] == output.bytes;
        return;
      }
      checkVersion();
    }

    method checkWelcomeMessage() returns (ok: bool)
      requires output != input
      modifies output, input
      ensures output.bytes == old(output.bytes) + WELCOME
      ensures ok == (old(input.bytes) != [] && old(input.bytes)[0] != 0)
      ensures ok ==> input.bytes == old(input.bytes)[1..]
    {
      output.bytes := output.bytes + WELCOME;
      var response;
      ok, response := input.readInt(1);
      if ok {
        ghost var first := old(input.bytes)[..1];
        assert first == [old(input.bytes)[0]] && first[1..] == [];
        ok := response != 0;
      }
    }

    /** The three versions are read one after the other, up to the first that does not arrive. */
    method checkVersion()
      requires Valid(version) && output != input
      modifies this`server_ver, this`min_client_version, this`max_client_version, output, input
      ensures output.bytes == old(output.bytes) + LittleEndian(Combine(version), 8)
      ensures Learned(old(input.bytes))
    {
      Widths();
      output.sendInt(8, Combine(version));
      var ok, ver := readVersion();
      if !ok {
        return;
      }
      server_ver := ver;
      ok, ver := readVersion();
      if !ok {
        return;
      }
      min_client_version := ver;
      ok, ver := readVersion();
      if !ok {
        return;
      }
      max_client_version := ver;
    }

    method readVersion() returns (ok: bool, ver: Version)
      modifies input
      ensures ok == (|old(input.bytes)| >= 8) && (!ok ==> input.bytes == [])
      ensures ok ==> ver == FromCombined(ValueOf(old(input.bytes)[..8])) && input.bytes == old(input.bytes)[8..]
    {
      var verInt;
      ok, verInt := input.readInt(8);
      ver := FromCombined(verInt);
    }

    /** The end of the session is announced with a request of two bytes. */
    method close()
      modifies this, output
      ensures !is_logged && !is_connected && output.bytes == old(output.bytes) + Frame(QUIT_REQUEST)
    {
      resetState();
      output.sendBuffer([QUIT, 0]);
    }
  }

  lemma OneOfThree(a: seq<byte>, b: seq<byte>, c: seq<byte>)
    requires |a| == 8 && |b| == 8 && |c| == 8
    ensures var s := a + b + c; s[..8] == a && s[8..][..8] == b && s[8..][8..] == c && c[..8] == c && c[8..] == []
  {
    Assoc(a, b, c);
    Split(a, b + c);
    Split(b, c);
  }

  lemma VersionBack(v: Version)
    requires Valid(v)
    ensures FromCombined(ValueOf(LittleEndian(Combine(v), 8))) == v
  {
    Widths();
    ReadBack(Combine(v), 8);
    FromCombinedOfCombine(v);
  }

  /** The server's handshake with a client that has written its welcome message and its version. */
  method ServerHandshake(client: nat, config: Config, toServer: Channel, toClient: Channel) returns (ok: bool, known: nat)
    requires ValidConfig(config) && toServer != toClient && client < VERSION_LIMIT
    requires toServer.bytes == WELCOME + LittleEndian(client, 8) && toClient.bytes == []
    modifies toServer, toClient
    ensures ok && known == client && toServer.bytes == []
    ensures toClient.bytes == [1] + (LittleEndian(config.server, 8) + LittleEndian(config.oldest, 8) + LittleEndian(config.newest, 8))
  {
    var disk := new H.Disk(map[], config.locked);
    var end := new S.Client(config, toServer, toClient, disk);
    Split(WELCOME, LittleEndian(client, 8));
    ok := end.checkWelcomeMessage();
    OneByte(1);
    Widths();
    toClient.sendInt(1, 1);
    assert toClient.bytes == [1];
    var arriving := toServer.bytes;
    assert arriving[..8] == arriving;
    end.checkVersion();
    S.VersionsSent(config, arriving, [1], toClient.bytes);
    ReadBack(client, 8);
    CombineOfFromCombined(client);
    known := end.version;
  }

  /** The client's handshake with a server that has accepted it and written its three versions. */
  method ClientHandshake(version: Version, server: Version, oldest: Version, newest: Version, toServer: Channel, toClient: Channel)
    returns (ok: bool, learned: (Version, Version, Version))
    requires Valid(version) && Valid(server) && Valid(oldest) && Valid(newest) && toServer != toClient
    requires toServer.bytes == []
    requires toClient.bytes == [1] + (LittleEndian(Combine(server), 8) + LittleEndian(Combine(oldest), 8)
                                      + LittleEndian(Combine(newest), 8))
    modifies toServer, toClient
    ensures ok && learned == (server, oldest, newest) && toClient.bytes == []
    ensures toServer.bytes == WELCOME + LittleEndian(Combine(version), 8)
  {
    ghost var a, b, c := LittleEndian(Combine(server), 8), LittleEndian(Combine(oldest), 8), LittleEndian(Combine(newest), 8);
    Tail(1, a + b + c);
    OneOfThree(a, b, c);
    VersionBack(server);
    VersionBack(oldest);
    VersionBack(newest);
    var client := new Client(version, toServer, toClient);
    ok := client.connect(true);
    assert [] + WELCOME == WELCOME;
    learned := (client.server_ver, client.min_client_version, client.max_client_version);
  }

  /** Both ends of a handshake: each reads what the other writes, both succeed, and each learns the other's versions,
      nothing being left over. */
  method Handshake(version: Version, server: Version, oldest: Version, newest: Version, max: nat, texts: H.Texts)
    returns (ok: bool, known: nat, learned: (Version, Version, Version))
    requires Valid(version) && Valid(server) && Valid(oldest) && Valid(newest) && max < MAX_FRAME
    ensures ok && known == Combine(version) && learned == (server, oldest, newest)
  {
    var written := new Channel();
    written.bytes := WELCOME + LittleEndian(Combine(version), 8);
    ghost var expected := written.bytes;
    var toClient := new Channel();
    var toServer := new Channel();
    var config := Config(Combine(version), Combine(server), Combine(oldest), Combine(newest), max, texts, {});
    var greeted;
    greeted, known := ServerHandshake(Combine(version), config, written, toClient);
    ok, learned := ClientHandshake(version, server, oldest, newest, toServer, toClient);
    ok := ok && greeted;
    assert toServer.bytes == expected;
  }
}
