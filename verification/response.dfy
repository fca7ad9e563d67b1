/** Response frames: how the server builds them and what the client makes of them. */
module Responses {
  import opened ArrayEditors
  import opened Bytes
  import opened Seqs

  const OK: byte := 0x00
  const ERROR: byte := 0xFF

  const VERSION_TOO_OLD: byte := 0x00
  const INVALID_REQUEST_DATA: byte := 0x01
  const UNKNOWN_REQUEST: byte := 0x02
  const NOT_LOGGED: byte := 0x10
  const INVALID_PERMISSIONS: byte := 0x20
  const IO_INVALID_BUFFER_SIZE: byte := 0x41
  const IO_OPEN_FILE_ERROR: byte := 0x42

  // ---------------------------------------------------------------- what a builder holds

  /** A response under construction: normal or an error, and the fields inserted since it was begun. */
  datatype Response = Normal(fields: seq<Field>) | Failure(id: byte, message: seq<byte>, fields: seq<Field>)

  function Header(r: Response): seq<byte> {
    match r
    case Normal(_) => LittleEndian(OK, 1)
    case Failure(id, message, _) => LittleEndian(ERROR, 1) + LittleEndian(id, 1) + Encode(BufferField(2, message))
  }

  function Content(r: Response): seq<byte> {
    Header(r) + EncodeAll(r.fields)
  }

  // ---------------------------------------------------------------- what the client reads

  /** The client's view of a response frame. */
  datatype Reply =
    | Granted(payload: seq<byte>)
    | Refused(id: byte, message: seq<byte>)
    | UnknownType(code: byte)
    | Malformed

  function ReadReply(frame: seq<byte>): Reply {
    if frame == [] then Malformed
    else if frame[0] == ERROR then
      var rest := frame[1..];
      if rest == [] then Malformed
      else
        match Extract(BufferKind(2), rest[1..])
        case Got(f, _) => Refused(rest[0], f.content)
        case Failed(_) => Malformed
    else if frame[0] == OK then Granted(frame[1..])
    else UnknownType(frame[0])
  }

  /** What a response says to whoever reads it. */
  function Meaning(r: Response): Reply {
    match r
    case Normal(fields) => Granted(EncodeAll(fields))
    case Failure(id, message, _) => Refused(id, Cut(2, message))
  }

  lemma OneByte(b: byte)
    ensures LittleEndian(b, 1) == [b]
  {
    assert LittleEndian(b, 1) == [b % 256] + LittleEndian(b / 256, 0);
  }

  /** Whatever was inserted after an error was built, the client reads that error, with its message cut to 65535
      bytes; a normal response is read as its fields. */
  lemma ReplyIsMeaning(r: Response)
    ensures ReadReply(Content(r)) == Meaning(r)
  {
    var more := EncodeAll(r.fields);
    match r
    case Normal(_) =>
      OneByte(OK);
      Tail(OK, more);
    case Failure(id, message, _) =>
      var text := Encode(BufferField(2, message));
      OneByte(ERROR);
      OneByte(id);
      Assoc([ERROR], [id], text);
      Assoc([ERROR], [id] + text, more);
      Tail(ERROR, ([id] + text) + more);
      Assoc([id], text, more);
      Tail(id, text + more);
      ExtractEncoded(BufferField(2, message), more);
  }

  /** An error without a message is four bytes, and is read as that error. */
  lemma ErrorFrame(id: byte)
    ensures Content(Failure(id, [], [])) == [0xFF, id, 0x00, 0x00]
    ensures ReadReply([0xFF, id, 0x00, 0x00]) == Refused(id, [])
  {
    OneByte(ERROR);
    OneByte(id);
    assert LittleEndian(0, 2) == [0] + LittleEndian(0, 1);
    OneByte(0);
    ReplyIsMeaning(Failure(id, [], []));
  }

  /** Inserting a field adds its encoding at the end. */
  lemma {:induction false} EncodeSnoc(fields: seq<Field>, f: Field)
    ensures EncodeAll(fields + [f]) == EncodeAll(fields) + Encode(f)
    decreases |fields|
  {
    if fields == [] {
      assert [] + [f] == [f] && Encode(f) + [] == Encode(f) == [] + Encode(f);
    } else {
      assert (fields + [f])[1..] == fields[1..] + [f];
      EncodeSnoc(fields[1..], f);
      Assoc(Encode(fields[0]), EncodeAll(fields[1..]), Encode(f));
    }
  }

  /** `r` with one more field inserted. */
  function With(r: Response, f: Field): Response {
    match r
    case Normal(fields) => Normal(fields + [f])
    case Failure(id, message, fields) => Failure(id, message, fields + [f])
  }

  // ---------------------------------------------------------------- the builder

  class ResponseBuilder {
    const base: ArrayBuilder
    var kind: byte
    var error: byte
    var error_message: seq<byte>
    /** The fields inserted since the response was begun. */
    ghost var fields: seq<Field>

    constructor ()
      ensures kind == OK && error == 0 && error_message == [] && fresh(base)
    {
      base := new ArrayBuilder();
      kind := OK;
      error := 0;
      error_message := [];
      fields := [];
    }

    ghost function Value(): Response
      reads this
    {
      if kind == ERROR then Failure(error, error_message, fields) else Normal(fields)
    }

    /** The bytes built so far are those of a begun response. */
    ghost predicate Valid()
      reads this, base
    {
      (kind == OK || kind == ERROR) && base.data == Content(Value())
    }

    method buildNormal()
      modifies this, base
      ensures Valid() && Value() == Normal([])
    {
      base.data := [];
      kind := OK;
      fields := [];
      insertType();
      assert base.data == LittleEndian(OK, 1) == LittleEndian(OK, 1) + [];
    }

    /** Forgets everything built before. */
    method buildError(id: byte, message: seq<byte>)
      modifies this, base
      ensures Valid() && Value() == Failure(id, message, [])
    {
      base.data := [];
      kind := ERROR;
      error := id;
      error_message := message;
      fields := [];
      insertType();
      base.insertInt(1, id);
      base.insertBuffer(2, message);
      assert base.data == Header(Value()) == Header(Value()) + [];
    }

    method insertType()
      modifies base
      ensures base.data == old(base.data) + LittleEndian(kind, 1)
    {
      assert Range(1) == 256;
      base.insertInt(1, kind);
    }

    /** Any of the inherited insertions. */
    method InsertField(f: Field)
      requires Valid() && InRange(f)
      modifies this, base
      ensures Valid() && Value() == With(old(Value()), f) && kind == old(kind)
    {
      ghost var before := Value();
      base.InsertField(f);
      EncodeSnoc(fields, f);
      Assoc(Header(before), EncodeAll(fields), Encode(f));
      fields := fields + [f];
      assert Header(Value()) == Header(before);
    }
  }
}
