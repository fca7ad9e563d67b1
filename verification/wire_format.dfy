/** The bytes on the wire, spelled out: what the codecs, frames, requests, responses and listings look like to someone
    who does not have this program. */
module WireFormat {
  import opened ArrayEditors
  import opened Bfl
  import opened Bytes
  import opened ClientRequests
  import opened Framing
  import opened RequestHandlers
  import opened Responses
  import opened Seqs
  import opened Sessions
  import opened Transfers
  import opened Versions

  // ---------------------------------------------------------------- integers

  /** Two, four and eight bytes, least significant first. */
  function Two(v: nat): seq<byte> {
    [v % 256, v / 0x100 % 256]
  }

  function Four(v: nat): seq<byte> {
    [v % 256, v / 0x100 % 256, v / 0x1_0000 % 256, v / 0x100_0000 % 256]
  }

  function Eight(v: nat): seq<byte> {
    [v % 256, v / 0x100 % 256, v / 0x1_0000 % 256, v / 0x100_0000 % 256,
     v / 0x1_0000_0000 % 256, v / 0x100_0000_0000 % 256, v / 0x1_0000_0000_0000 % 256, v / 0x100_0000_0000_0000 % 256]
  }

  lemma Ranges()
    ensures Range(0) == 1 && Range(1) == 0x100 && Range(2) == 0x1_0000 && Range(3) == 0x100_0000
    ensures Range(4) == 0x1_0000_0000 && Range(5) == 0x100_0000_0000 && Range(6) == 0x1_0000_0000_0000
    ensures Range(7) == 0x100_0000_0000_0000
  {
    Widths();
  }

  lemma TwoBytes(v: nat)
    ensures LittleEndian(v, 2) == Two(v)
  {
    Ranges();
    LittleEndianByte(v, 2, 0);
    LittleEndianByte(v, 2, 1);
  }

  lemma FourBytes(v: nat)
    ensures LittleEndian(v, 4) == Four(v)
  {
    Ranges();
    LittleEndianByte(v, 4, 0);
    LittleEndianByte(v, 4, 1);
    LittleEndianByte(v, 4, 2);
    LittleEndianByte(v, 4, 3);
  }

  lemma ByteOfEight(v: nat, i: nat, unit: nat)
    requires i < 8 && Range(i) == unit
    ensures unit > 0 && LittleEndian(v, 8)[i] == v / unit % 256
  {
    LittleEndianByte(v, 8, i);
  }

  lemma EightBytes(v: nat)
    ensures LittleEndian(v, 8) == Eight(v)
  {
    Ranges();
    ByteOfEight(v, 0, 1);
    ByteOfEight(v, 1, 0x100);
    ByteOfEight(v, 2, 0x1_0000);
    ByteOfEight(v, 3, 0x100_0000);
    ByteOfEight(v, 4, 0x1_0000_0000);
    ByteOfEight(v, 5, 0x100_0000_0000);
    ByteOfEight(v, 6, 0x1_0000_0000_0000);
    ByteOfEight(v, 7, 0x100_0000_0000_0000);
  }

  /** Integers are little-endian. */
  lemma IntegerBytes(v: nat)
    ensures LittleEndian(v, 1) == [v % 256] && LittleEndian(v, 2) == Two(v)
    ensures LittleEndian(v, 4) == Four(v) && LittleEndian(v, 8) == Eight(v)
  {
    Ranges();
    LittleEndianByte(v, 1, 0);
    TwoBytes(v);
    FourBytes(v);
    EightBytes(v);
  }

  /** The value of two bytes. */
  function Pair(low: nat, high: nat): nat {
    low + 256 * high
  }

  // ---------------------------------------------------------------- fields

  /** A buffer behind a length of two bytes; a longer one than that can say is cut. */
  function Short(content: seq<byte>): seq<byte> {
    if |content| <= 0xFFFF then Two(|content|) + content else [0xFF, 0xFF] + content[..0xFFFF]
  }

  lemma CutBytes(content: seq<byte>)
    ensures Cut(2, content) == if |content| <= 0xFFFF then content else content[..0xFFFF]
    ensures SentPath(content) == Cut(2, content)
  {
    Widths();
  }

  lemma FieldBytes(v: nat, flag: bool, content: seq<byte>)
    ensures Encode(IntField(1, v)) == [v % 256] && Encode(IntField(2, v)) == Two(v)
    ensures Encode(IntField(4, v)) == Four(v) && Encode(IntField(8, v)) == Eight(v)
    ensures Encode(BoolField(flag)) == [if flag then 1 else 0]
    ensures Encode(BufferField(2, content)) == Short(content)
  {
    IntegerBytes(v);
    CutBytes(content);
    TwoBytes(|Cut(2, content)|);
  }

  // ---------------------------------------------------------------- frames and responses

  /** Four bytes of length, then the content. */
  lemma FrameBytes(buffer: seq<byte>)
    ensures Frame(buffer) == Four(|buffer|) + buffer
  {
    FourBytes(|buffer|);
  }

  lemma ErrorHeader(id: byte, message: seq<byte>)
    ensures Header(Failure(id, message, [])) == [0xFF, id] + Short(message)
  {
    OneByte(ERROR);
    OneByte(id);
    FieldBytes(0, false, message);
    assert [0xFF] + [id] == [0xFF, id];
  }

  /** A zero and the fields, or 0xFF, the error, its message and any fields. */
  lemma ResponseBytes(id: byte, message: seq<byte>, fields: seq<Field>)
    ensures Content(Normal(fields)) == [0x00] + EncodeAll(fields)
    ensures Content(Failure(id, message, fields)) == ([0xFF, id] + Short(message)) + EncodeAll(fields)
  {
    OneByte(OK);
    ErrorHeader(id, message);
  }

  /** A frame is read by its first byte, an error only if its message is there. */
  lemma ReplyBytes(frame: seq<byte>)
    ensures frame == [] ==> ReadReply(frame) == Malformed
    ensures frame != [] && frame[0] == 0x00 ==> ReadReply(frame) == Granted(frame[1..])
    ensures frame != [] && frame[0] != 0x00 && frame[0] != 0xFF ==> ReadReply(frame) == UnknownType(frame[0])
    ensures frame != [] && frame[0] == 0xFF ==>
              ReadReply(frame) ==
              if |frame| >= 4 && |frame| >= 4 + Pair(frame[2], frame[3])
              then Refused(frame[1], frame[4..4 + Pair(frame[2], frame[3])]) else Malformed
  {
    if |frame| >= 4 {
      var size := Pair(frame[2], frame[3]);
      var rest := frame[1..][1..];
      assert rest == frame[2..];
      TwoValue(rest);
      if |frame| >= 4 + size {
        Ahead(frame, 2, 2);
        Ahead(frame, 4, size);
      }
    }
  }

  lemma TwoValue(b: seq<byte>)
    requires |b| >= 2
    ensures ValueOf(b[..2]) == Pair(b[0], b[1])
  {
    var two := b[..2];
    assert two == [b[0], b[1]];
    assert two[1..] == [b[1]];
    assert [b[1]][1..] == [];
    assert ValueOf([b[1]]) == b[1] + 256 * ValueOf([]);
    assert ValueOf(two) == two[0] + 256 * ValueOf(two[1..]);
  }

  // ---------------------------------------------------------------- requests

  /** Id, path and buffer size; id, path, size, buffer size and frame count. The sizes are those of the file. */
  lemma RequestLayout(path: seq<byte>, size: nat, bufferSize: nat, count: nat)
    ensures DownloadRequest(path, bufferSize) == [0x44] + Short(path) + Four(bufferSize)
    ensures UploadRequest(path, size, bufferSize, count) == [0x60] + Short(path) + Eight(size) + Four(bufferSize) + Eight(count)
    ensures QUIT_REQUEST == [0x20, 0x00]
  {
    OneByte(IO_GET_FILE_CONTENT);
    OneByte(IO_SET_FILE_CONTENT);
    FieldBytes(size, false, path);
    FieldBytes(bufferSize, false, path);
    FieldBytes(count, false, path);
  }

  lemma TakesShort(path: seq<byte>, rest: seq<byte>)
    requires |path| <= 0xFFFF
    ensures Extract(BufferKind(2), (Two(|path|) + path) + rest) == Got(BufferField(2, path), rest)
  {
    FieldBytes(0, false, path);
    CutBytes(path);
    ExtractEncoded(BufferField(2, path), rest);
  }

  lemma TakesInt(v: nat, rest: seq<byte>)
    ensures v < 0x1_0000_0000 ==> Extract(IntKind(4), Four(v) + rest) == Got(IntField(4, v), rest)
    ensures v < 0x1_0000_0000_0000_0000 ==> Extract(IntKind(8), Eight(v) + rest) == Got(IntField(8, v), rest)
  {
    Widths();
    IntegerBytes(v);
    if v < 0x1_0000_0000 {
      ExtractEncoded(IntField(4, v), rest);
    }
    if v < 0x1_0000_0000_0000_0000 {
      ExtractEncoded(IntField(8, v), rest);
    }
  }

  /** What the server makes of the bytes of a download request: error 0x41 for the buffer size, then 0x42 for the file. */
  lemma DownloadBytes(path: seq<byte>, size: nat, more: seq<byte>, files: map<seq<byte>, seq<byte>>, max: nat, texts: Texts)
    requires |path| <= 0xFFFF && size < 0x1_0000_0000
    ensures Opening((Two(|path|) + path) + (Four(size) + more), files, max, texts) ==
            if size == 0 || size > max then Transfer.Denied(Failure(0x41, texts.invalidBufferSize, []))
            else if path !in files then Transfer.Denied(Failure(0x42, texts.openFileError, []))
            else Download(files[path], size)
  {
    TakesShort(path, Four(size) + more);
    TakesInt(size, more);
  }

  lemma UploadBytes(path: seq<byte>, fileSize: nat, size: nat, count: nat, more: seq<byte>, locked: set<seq<byte>>, max: nat, texts: Texts)
    requires |path| <= 0xFFFF && size < 0x1_0000_0000
    requires fileSize < 0x1_0000_0000_0000_0000 && count < 0x1_0000_0000_0000_0000
    ensures Creating((Two(|path|) + path) + (Eight(fileSize) + (Four(size) + (Eight(count) + more))), locked, max, texts) ==
            if size == 0 || size > max then Transfer.Denied(Failure(0x41, texts.invalidBufferSize, []))
            else if path in locked then Transfer.Denied(Failure(0x42, texts.openFileError, []))
            else Upload(path, fileSize, size, count)
  {
    TakesShort(path, Eight(fileSize) + (Four(size) + (Eight(count) + more)));
    TakesInt(fileSize, Four(size) + (Eight(count) + more));
    TakesInt(size, Eight(count) + more);
    TakesInt(count, more);
  }

  /** Where the path ends; there is none in fewer bytes than its length says. */
  function PathEnd(body: seq<byte>): nat {
    if |body| < 2 then 2 else 2 + Pair(body[0], body[1])
  }

  /** A request that ends too early is invalid: error 0x01. */
  lemma TooShort(body: seq<byte>, files: map<seq<byte>, seq<byte>>, locked: set<seq<byte>>, max: nat, texts: Texts)
    ensures |body| < PathEnd(body) + 4 ==>
              Opening(body, files, max, texts) == Transfer.Denied(Failure(0x01, texts.invalidRequest, []))
    ensures |body| < PathEnd(body) + 20 ==>
              Creating(body, locked, max, texts) == Transfer.Denied(Failure(0x01, texts.invalidRequest, []))
  {
    if |body| >= 2 {
      TwoValue(body);
    }
  }

  /** The response that opens a download, the size of the file and the number of frames; an upload has no more than
      the zero. */
  lemma OpenedBytes(content: seq<byte>, path: seq<byte>, fileSize: nat, size: nat, count: nat)
    requires size > 0
    ensures Content(Opened(Download(content, size))) == [0x00] + (Eight(|content|) + Eight(|content| / size + 1))
    ensures Content(Opened(Upload(path, fileSize, size, count))) == [0x00]
  {
    SizeFieldBytes(content, size);
    ResponseBytes(0, [], SizeFields(content, size));
    ResponseBytes(0, [], []);
    FieldBytes(|content|, false, []);
    FieldBytes(|content| / size + 1, false, []);
  }

  // ---------------------------------------------------------------- listings and versions

  /** A record: type, eight bytes of size, two of length, the name. A list: four bytes of count, and the records. */
  lemma ListBytes(f: FileInfo, more: seq<FileInfo>)
    ensures EncodeFile(f) == [f.kind] + (Eight(f.size) + (Two(|f.name|) + f.name))
    ensures EncodeList([f] + more) == Four(|more| + 1) + (EncodeFile(f) + EncodeFiles(more))
    ensures EncodeList([]) == [0x00, 0x00, 0x00, 0x00] && EncodeFiles([]) == []
  {
    EightBytes(f.size);
    TwoBytes(|f.name|);
    FourBytes(|more| + 1);
    FourBytes(0);
    Tail(f, more);
    Unit(Four(0));
  }

  /** A version takes eight bytes: patch, minor and major, two bytes each, and two zeros. */
  lemma VersionBytes(v: Version)
    requires v.major < 0x1_0000 && v.minor < 0x1_0000 && v.patch < 0x1_0000
    ensures LittleEndian(Combine(v), 8) == Two(v.patch) + Two(v.minor) + Two(v.major) + [0x00, 0x00]
  {
    var n := Combine(v);
    EightBytes(n);
    Places(n, v.patch, v.minor, v.major);
  }

  lemma Places(n: nat, patch: nat, minor: nat, major: nat)
    requires n == major * 0x1_0000_0000 + minor * 0x1_0000 + patch
    requires major < 0x1_0000 && minor < 0x1_0000 && patch < 0x1_0000
    ensures Eight(n) == Two(patch) + Two(minor) + Two(major) + [0x00, 0x00]
  {
    var high := major * 0x1_0000 + minor;
    LowPart(n, patch, high);
    LowPart(high, minor, major);
    LowPart(major, major, 0);
    HighPart(n, high);
    HighPart(high, major);
    assert n / 0x1_0000_0000_0000 == 0 && n / 0x100_0000_0000_0000 == 0;
    assert n / 0x1_0000_0000 == major && n / 0x100_0000_0000 == major / 0x100;
  }

  lemma LowPart(n: nat, low: nat, high: nat)
    requires n == high * 0x1_0000 + low && low < 0x1_0000
    ensures n % 256 == low % 256 && n / 0x100 % 256 == low / 0x100 % 256
    ensures n / 0x1_0000 == high
  {
    var a, b := low / 0x100, low % 0x100;
    assert low == 0x100 * a + b && a < 0x100;
    DivSmall(a, 0x100);
    QuotientUnique(n, 0x1_0000, high, low);
    QuotientUnique(n, 0x100, 0x100 * high + a, b);
    QuotientUnique(0x100 * high + a, 0x100, high, a);
  }

  lemma HighPart(n: nat, high: nat)
    requires n / 0x1_0000 == high
    ensures n / 0x100_0000 == high / 0x100 && n / 0x1_0000_0000 == high / 0x1_0000
    ensures n / 0x100_0000_0000 == high / 0x100_0000
  {
  }

  /** The handshake begins with the three letters, and ends with a client that has no version, login or role yet. */
  lemma GreetingBytes(files: map<seq<byte>, seq<byte>>)
    ensures WELCOME == [83, 77, 67]
    ensures Start(files).peer == Peer(0, false, 0xFF)
  {
  }
}
