/** The typed byte codec under every request and response: `ArrayBuilder` appends fields, `ArrayAnalyzer` takes
    them off again with a cursor. Integer types are given by their width in bytes. */
module ArrayEditors {
  import opened Bytes
  import opened Seqs

  /** `numeric_limits<T>::max()` for the unsigned type of `w` bytes. */
  function MaxOf(w: nat): nat {
    Range(w) - 1
  }

  function Min(a: nat, b: nat): nat {
    if a < b then a else b
  }

  /** A buffer as it is stored behind a length of `w` bytes: cut to the longest length there is. */
  function Cut(w: nat, buffer: seq<byte>): (r: seq<byte>)
    ensures |r| == Min(|buffer|, MaxOf(w)) < Range(w) && r <= buffer
  {
    buffer[..Min(|buffer|, MaxOf(w))]
  }

  // ---------------------------------------------------------------- fields

  datatype Field =
    | IntField(width: nat, value: nat)
    | BoolField(flag: bool)
    | BufferField(width: nat, content: seq<byte>)

  datatype Kind = IntKind(width: nat) | BoolKind | BufferKind(width: nat)

  function KindOf(f: Field): Kind {
    match f
    case IntField(w, _) => IntKind(w)
    case BoolField(_) => BoolKind
    case BufferField(w, _) => BufferKind(w)
  }

  predicate InRange(f: Field) {
    f.IntField? ==> f.value < Range(f.width)
  }

  /** What comes back of a field: a buffer that is too long for its length field is cut. */
  function Kept(f: Field): Field {
    match f
    case BufferField(w, content) => BufferField(w, Cut(w, content))
    case _ => f
  }

  function Encode(f: Field): seq<byte> {
    match f
    case IntField(w, v) => LittleEndian(v, w)
    case BoolField(flag) => [if flag then 1 else 0]
    case BufferField(w, content) => LittleEndian(|Cut(w, content)|, w) + Cut(w, content)
  }

  function EncodeAll(fields: seq<Field>): seq<byte> {
    if fields == [] then [] else Encode(fields[0]) + EncodeAll(fields[1..])
  }

  /** One extraction from the bytes ahead of the cursor: the field, or nothing, and the bytes then ahead. */
  datatype Extraction = Got(field: Field, rest: seq<byte>) | Failed(rest: seq<byte>)

  function Extract(kind: Kind, ahead: seq<byte>): (r: Extraction)
    ensures |r.rest| <= |ahead|
    ensures r.Got? ==> KindOf(r.field) == kind && InRange(r.field)
  {
    match kind
    case IntKind(w) =>
      if |ahead| < w then Failed(ahead)
      else
        ValueBound(ahead[..w]);
        Got(IntField(w, ValueOf(ahead[..w])), ahead[w..])
    case BoolKind =>
      if ahead == [] then Failed(ahead) else Got(BoolField(ahead[0] != 0), ahead[1..])
    case BufferKind(w) =>
      if |ahead| < w then Failed(ahead)
      else
        var size, rest := ValueOf(ahead[..w]), ahead[w..];
        if |rest| < size then Failed(rest) else Got(BufferField(w, rest[..size]), rest[size..])
  }

  /** Extracting fields in order, up to the first failure: the fields, the bytes then ahead, and success. */
  function ExtractAll(kinds: seq<Kind>, ahead: seq<byte>): (r: (seq<Field>, seq<byte>, bool))
    ensures |r.1| <= |ahead|
  {
    if kinds == [] then ([], ahead, true)
    else
      match Extract(kinds[0], ahead)
      case Failed(rest) => ([], rest, false)
      case Got(f, rest) =>
        var more := ExtractAll(kinds[1..], rest);
        ([f] + more.0, more.1, more.2)
  }

  function KindsOf(fields: seq<Field>): seq<Kind> {
    if fields == [] then [] else [KindOf(fields[0])] + KindsOf(fields[1..])
  }

  function KeptAll(fields: seq<Field>): seq<Field> {
    if fields == [] then [] else [Kept(fields[0])] + KeptAll(fields[1..])
  }

  predicate AllInRange(fields: seq<Field>) {
    fields != [] ==> InRange(fields[0]) && AllInRange(fields[1..])
  }

  lemma ExtractEncoded(f: Field, after: seq<byte>)
    requires InRange(f)
    ensures Extract(KindOf(f), Encode(f) + after) == Got(Kept(f), after)
  {
    match f
    case IntField(w, v) =>
      Split(LittleEndian(v, w), after);
      ReadBack(v, w);
    case BoolField(flag) =>
      Tail(Encode(f)[0], after);
    case BufferField(w, content) =>
      var cut := Cut(w, content);
      Assoc(LittleEndian(|cut|, w), cut, after);
      Split(LittleEndian(|cut|, w), cut + after);
      ReadBack(|cut|, w);
      Split(cut, after);
  }

  /** Any sequence of fields, whatever follows it, is extracted as it was inserted, over-long buffers cut, and the
      cursor ends right behind it. */
  lemma {:induction false} FieldsRoundTrip(fields: seq<Field>, after: seq<byte>)
    requires AllInRange(fields)
    ensures ExtractAll(KindsOf(fields), EncodeAll(fields) + after) == (KeptAll(fields), after, true)
    decreases |fields|
  {
    if fields == [] {
      assert [] + after == after;
    } else {
      var first, rest := Encode(fields[0]), EncodeAll(fields[1..]);
      Assoc(first, rest, after);
      ExtractEncoded(fields[0], rest + after);
      FieldsRoundTrip(fields[1..], after);
    }
  }

  /** The bytes an integer or a buffer was extracted from are its encoding; a boolean was any byte. */
  lemma ExtractedIsEncoding(kind: Kind, ahead: seq<byte>)
    requires Extract(kind, ahead).Got?
    ensures var r := Extract(kind, ahead);
            if r.field.BoolField? then ahead == [ahead[0]] + r.rest && r.field.flag == (ahead[0] != 0)
            else Kept(r.field) == r.field && ahead == Encode(r.field) + r.rest
  {
    var r := Extract(kind, ahead);
    match kind
    case IntKind(w) =>
      WriteBack(ahead[..w]);
      Halves(ahead, w);
    case BoolKind => Uncons(ahead);
    case BufferKind(w) =>
      var size, rest := ValueOf(ahead[..w]), ahead[w..];
      WriteBack(ahead[..w]);
      ValueBound(ahead[..w]);
      assert rest[..size][..size] == rest[..size];
      Halves(ahead, w);
      Halves(rest, size);
      Assoc(ahead[..w], rest[..size], rest[size..]);
  }

  // ---------------------------------------------------------------- the builder

  class ArrayBuilder {
    var data: seq<byte>

    constructor ()
      ensures data == []
    {
      data := [];
    }

    method insertInt(width: nat, value: nat)
      requires value < Range(width)
      modifies this
      ensures data == old(data) + Encode(IntField(width, value))
    {
      var cursor := |data|;
      data := data + Zeros(width);
      ghost var bytes := LittleEndian(value, width);
      assert data[..cursor] == old(data) + bytes[..0];
      for i := 0 to width
        invariant |data| == cursor + width && data[..cursor + i] == old(data) + bytes[..i]
      {
        LittleEndianByte(value, width, i);
        WriteNext(data, cursor + i, bytes[i]);
        OneMore(bytes, i);
        Assoc(old(data), bytes[..i], [bytes[i]]);
        data := data[cursor + i := value / Range(i) % 256];
      }
      assert data[..cursor + width] == data && bytes[..width] == bytes;
    }

    method insertBool(value: bool)
      modifies this
      ensures data == old(data) + Encode(BoolField(value))
    {
      var v := if value then 1 else 0;
      insertInt(1, v);
      assert LittleEndian(v, 1) == [v];
    }

    /** Also `insertString`, and `insertPath` with a length of two bytes. */
    method insertBuffer(width: nat, buffer: seq<byte>)
      modifies this
      ensures data == old(data) + Encode(BufferField(width, buffer))
    {
      var bufferSize := |buffer|;
      var maxSize := MaxOf(width);
      if bufferSize > maxSize {
        bufferSize := maxSize;
      }
      insertInt(width, bufferSize);
      Assoc(old(data), LittleEndian(bufferSize, width), buffer[..bufferSize]);
      data := data + buffer[..bufferSize];
    }

    method InsertField(f: Field)
      requires InRange(f)
      modifies this
      ensures data == old(data) + Encode(f)
    {
      match f
      case IntField(w, v) => insertInt(w, v);
      case BoolField(flag) => insertBool(flag);
      case BufferField(w, content) => insertBuffer(w, content);
    }
  }

  // ---------------------------------------------------------------- the analyzer

  class ArrayAnalyzer {
    var data: seq<byte>
    var cursor: nat
    /** The texts of the messages are left out: an error is there or not. */
    var is_error: bool

    constructor (data: seq<byte>)
      ensures this.data == data && cursor == 0 && !is_error
    {
      this.data := data;
      cursor := 0;
      is_error := false;
    }

    /** The cursor never passes the end, so the unsigned difference `data.size() - cursor` never wraps. */
    ghost predicate Valid()
      reads this
    {
      cursor <= |data|
    }

    ghost function Ahead(): seq<byte>
      requires Valid()
      reads this
    {
      data[cursor..]
    }

    /** The outcome of one extraction is that of `Extract`; a failure is remembered. */
    twostate predicate Extracted(ok: bool, field: Field, kind: Kind)
      requires old(Valid()) && Valid()
      reads this
    {
      var r := Extract(kind, old(Ahead()));
      && data == old(data)
      && ok == r.Got?
      && Ahead() == r.rest
      && (ok ==> field == r.field)
      && is_error == (old(is_error) || !ok)
    }

    method extractInt(width: nat) returns (ok: bool, output: nat)
      requires Valid()
      modifies this`cursor, this`is_error
      ensures Valid() && Extracted(ok, IntField(width, output), IntKind(width))
    {
      output := 0;
      if |data| - cursor < width {
        is_error := true;
        return false, 0;
      }
      ghost var bytes := Ahead()[..width];
      for i := 0 to width
        invariant cursor == old(cursor) && is_error == old(is_error)
        invariant output == ValueOf(bytes[..i])
      {
        assert bytes[..i + 1] == bytes[..i] + [bytes[i]];
        ValueSnoc(bytes[..i], bytes[i]);
        output := output + Shifted(data[cursor + i], i);
      }
      assert bytes[..width] == bytes;
      assert Ahead()[width..] == data[cursor + width..];
      cursor := cursor + width;
      ok := true;
    }

    method extractBool() returns (ok: bool, output: bool)
      requires Valid()
      modifies this`cursor, this`is_error
      ensures Valid() && Extracted(ok, BoolField(output), BoolKind)
    {
      var b;
      ok, b := extractInt(1);
      output := b != 0;
      if ok {
        ghost var one := old(Ahead())[..1];
        assert one == [data[old(cursor)]] && one[1..] == [];
      }
    }

    /** Also `extractString`, and `extractPath` with a length of two bytes. */
    method extractBuffer(width: nat) returns (ok: bool, output: seq<byte>)
      requires Valid()
      modifies this`cursor, this`is_error
      ensures Valid() && Extracted(ok, BufferField(width, output), BufferKind(width))
    {
      output := [];
      var size;
      ok, size := extractInt(width);
      if !ok {
        return;
      }
      if |data| - cursor < size {
        is_error := true;
        return false, [];
      }
      output := CopyNext(size);
      Seqs.Ahead(data, cursor, size);
      cursor := cursor + size;
    }

    /** The bytes from the cursor on, copied one by one. */
    method CopyNext(size: nat) returns (output: seq<byte>)
      requires cursor + size <= |data|
      ensures output == data[cursor..cursor + size]
    {
      ghost var content := data[cursor..cursor + size];
      output := Zeros(size);
      for i := 0 to size
        invariant |output| == size && output[..i] == content[..i]
      {
        WriteNext(output, i, data[cursor + i]);
        OneMore(content, i);
        output := output[i := data[cursor + i]];
      }
      assert output[..size] == output && content[..size] == content;
    }
  }
}
