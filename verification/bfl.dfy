/** The buffered file list: the server encodes a directory listing into a pre-sized buffer, the client decodes it. */
module Bfl {
  import opened Bytes
  import opened Options
  import opened Seqs

  type uint64 = x: int | 0 <= x < 0x1_0000_0000_0000_0000

  datatype FileInfo = FileInfo(name: seq<byte>, kind: byte, size: uint64)

  const NAME_LIMIT := 0x1_0000
  const COUNT_LIMIT := 0x1_0000_0000

  // ---------------------------------------------------------------- the format

  /** Type, size, name size (cast to `uint16_t`), name. */
  function EncodeFile(f: FileInfo): seq<byte> {
    [f.kind] + (LittleEndian(f.size, 8) + (LittleEndian(|f.name|, 2) + f.name))
  }

  function EncodeFiles(files: seq<FileInfo>): seq<byte> {
    if files == [] then [] else EncodeFile(files[0]) + EncodeFiles(files[1..])
  }

  /** The number of files (cast to `uint32_t`) and the files. */
  function EncodeList(files: seq<FileInfo>): seq<byte> {
    LittleEndian(|files|, 4) + EncodeFiles(files)
  }

  function DecodeName(ahead: seq<byte>): (r: Option<(seq<byte>, seq<byte>)>)
    ensures r.Some? ==> |r.value.1| < |ahead|
  {
    if |ahead| < 2 then None
    else
      var size, rest := ValueOf(ahead[..2]), ahead[2..];
      if |rest| < size then None else Some((rest[..size], rest[size..]))
  }

  function DecodeFile(ahead: seq<byte>): (r: Option<(FileInfo, seq<byte>)>)
    ensures r.Some? ==> |r.value.1| < |ahead|
  {
    if ahead == [] then None
    else
      var afterType := ahead[1..];
      if |afterType| < 8 then None
      else
        match DecodeName(afterType[8..])
        case None => None
        case Some((name, rest)) =>
          EightBytes(afterType[..8]);
          Some((FileInfo(name, ahead[0], ValueOf(afterType[..8])), rest))
  }

  lemma EightBytes(b: seq<byte>)
    requires |b| == 8
    ensures ValueOf(b) < 0x1_0000_0000_0000_0000
  {
    ValueBound(b);
    Widths();
  }

  // ---------------------------------------------------------------- decoding is the inverse of encoding

  lemma DecodeNameEncoded(name: seq<byte>, rest: seq<byte>)
    requires |name| < NAME_LIMIT
    ensures DecodeName(LittleEndian(|name|, 2) + (name + rest)) == Some((name, rest))
  {
    Split(LittleEndian(|name|, 2), name + rest);
    Widths();
    ReadBack(|name|, 2);
    Split(name, rest);
  }

  lemma DecodeEncoded(f: FileInfo, rest: seq<byte>)
    requires |f.name| < NAME_LIMIT
    ensures DecodeFile(EncodeFile(f) + rest) == Some((f, rest))
  {
    var size, nameSize := LittleEndian(f.size, 8), LittleEndian(|f.name|, 2);
    FileBytes(f, rest);
    Tail(f.kind, size + (nameSize + (f.name + rest)));
    Split(size, nameSize + (f.name + rest));
    Widths();
    ReadBack(f.size, 8);
    DecodeNameEncoded(f.name, rest);
  }

  lemma FileBytes(f: FileInfo, rest: seq<byte>)
    ensures EncodeFile(f) + rest == [f.kind] + (LittleEndian(f.size, 8) + (LittleEndian(|f.name|, 2) + (f.name + rest)))
  {
    var size, nameSize := LittleEndian(f.size, 8), LittleEndian(|f.name|, 2);
    Assoc([f.kind], size + (nameSize + f.name), rest);
    Assoc(size, nameSize + f.name, rest);
    Assoc(nameSize, f.name, rest);
  }

  lemma DecodedNameIsEncoding(ahead: seq<byte>)
    requires DecodeName(ahead).Some?
    ensures var (name, rest) := DecodeName(ahead).value;
            ahead == LittleEndian(|name|, 2) + (name + rest) && |name| < NAME_LIMIT
  {
    WriteBack(ahead[..2]);
    ValueBound(ahead[..2]);
    Widths();
    Halves(ahead, 2);
    Halves(ahead[2..], ValueOf(ahead[..2]));
  }

  lemma DecodedIsEncoding(ahead: seq<byte>)
    requires DecodeFile(ahead).Some?
    ensures var (f, rest) := DecodeFile(ahead).value;
            ahead == EncodeFile(f) + rest && |f.name| < NAME_LIMIT && |ahead| >= 11 + |rest|
  {
    var (f, rest) := DecodeFile(ahead).value;
    var afterType := ahead[1..];
    WriteBack(afterType[..8]);
    DecodedNameIsEncoding(afterType[8..]);
    Uncons(ahead);
    Halves(afterType, 8);
    FileBytes(f, rest);
  }

  /** Every name fits its length field. */
  predicate ShortNames(files: seq<FileInfo>) {
    files != [] ==> |files[0].name| < NAME_LIMIT && ShortNames(files[1..])
  }

  lemma {:induction false} ShortNamesMeans(files: seq<FileInfo>)
    ensures ShortNames(files) <==> forall i :: 0 <= i < |files| ==> |files[i].name| < NAME_LIMIT
    decreases |files|
  {
    if files != [] {
      ShortNamesMeans(files[1..]);
      assert forall i :: 1 <= i < |files| ==> files[i] == files[1..][i - 1];
      assert forall i :: 0 <= i < |files[1..]| ==> files[1..][i] == files[i + 1];
    }
  }

  /** `bytes` start with the encoding of `f`, whose name fits its length field, and continue with `rest`. */
  ghost predicate IsFile(bytes: seq<byte>, f: FileInfo, rest: seq<byte>) {
    |f.name| < NAME_LIMIT && bytes == EncodeFile(f) + rest
  }

  /** One record is read from `bytes` exactly when they start with the encoding of one, and it is that one. */
  lemma ReadsFile(bytes: seq<byte>)
    ensures match DecodeFile(bytes)
            case None => forall f, rest :: !IsFile(bytes, f, rest)
            case Some((f, rest)) => IsFile(bytes, f, rest)
    ensures forall f, rest :: IsFile(bytes, f, rest) ==> DecodeFile(bytes) == Some((f, rest))
  {
    forall f, rest | IsFile(bytes, f, rest)
      ensures DecodeFile(bytes) == Some((f, rest))
    {
      DecodeEncoded(f, rest);
    }
    if DecodeFile(bytes).Some? {
      DecodedIsEncoding(bytes);
    }
  }

  lemma FileUnique(bytes: seq<byte>, f: FileInfo, rest: seq<byte>, g: FileInfo, after: seq<byte>)
    requires IsFile(bytes, f, rest) && IsFile(bytes, g, after)
    ensures f == g && rest == after
  {
    ReadsFile(bytes);
  }

  /** Encodings with a common start: the longer list continues the shorter one. */
  lemma {:induction false} FilesUnique(files: seq<FileInfo>, rest: seq<byte>, more: seq<FileInfo>, after: seq<byte>)
    requires ShortNames(files) && ShortNames(more) && |files| <= |more|
    requires EncodeFiles(files) + rest == EncodeFiles(more) + after
    ensures more[..|files|] == files && rest == EncodeFiles(more[|files|..]) + after && ShortNames(more[|files|..])
    decreases |files|
  {
    if files == [] {
      assert [] + rest == rest && more[0..] == more;
    } else {
      Assoc(EncodeFile(files[0]), EncodeFiles(files[1..]), rest);
      Assoc(EncodeFile(more[0]), EncodeFiles(more[1..]), after);
      var bytes := EncodeFiles(files) + rest;
      FileUnique(bytes, files[0], EncodeFiles(files[1..]) + rest, more[0], EncodeFiles(more[1..]) + after);
      FilesUnique(files[1..], rest, more[1..], after);
      Uncons(files);
      Uncons(more);
      assert more[1..][|files| - 1..] == more[|files|..];
    }
  }

  /** `bytes` start with an encoded list, its count and all its names within their limits. */
  ghost predicate IsList(bytes: seq<byte>, files: seq<FileInfo>, rest: seq<byte>) {
    |files| < COUNT_LIMIT && ShortNames(files) && bytes == EncodeList(files) + rest
  }

  lemma ListBytes(files: seq<FileInfo>, rest: seq<byte>)
    requires |files| < COUNT_LIMIT
    ensures var bytes := EncodeList(files) + rest;
            |bytes| >= 4 && ValueOf(bytes[..4]) == |files| && bytes[4..] == EncodeFiles(files) + rest
  {
    Assoc(LittleEndian(|files|, 4), EncodeFiles(files), rest);
    Split(LittleEndian(|files|, 4), EncodeFiles(files) + rest);
    Widths();
    ReadBack(|files|, 4);
  }

  lemma BytesList(bytes: seq<byte>, files: seq<FileInfo>, rest: seq<byte>)
    requires |bytes| >= 4 && ValueOf(bytes[..4]) == |files| && bytes[4..] == EncodeFiles(files) + rest && ShortNames(files)
    ensures IsList(bytes, files, rest)
  {
    WriteBack(bytes[..4]);
    ValueBound(bytes[..4]);
    Widths();
    Halves(bytes, 4);
    Assoc(LittleEndian(|files|, 4), EncodeFiles(files), rest);
  }

  /** The format is unambiguous: no bytes start with the encodings of two lists. */
  lemma ListUnique(bytes: seq<byte>, files: seq<FileInfo>, rest: seq<byte>, more: seq<FileInfo>, after: seq<byte>)
    requires IsList(bytes, files, rest) && IsList(bytes, more, after)
    ensures files == more && rest == after
  {
    ListBytes(files, rest);
    ListBytes(more, after);
    FilesUnique(files, rest, more, after);
    assert more[..|files|] == more && more[|files|..] == [];
    assert [] + after == after;
  }

  /** A list takes at least four bytes and eleven for each file. */
  lemma {:induction false} ListSize(files: seq<FileInfo>)
    ensures |EncodeList(files)| >= 4 + 11 * |files| && |EncodeFiles(files)| == SizeInBuffer(files)
    decreases |files|
  {
    if files != [] {
      ListSize(files[1..]);
    }
  }

  // ---------------------------------------------------------------- the encoder

  class BFLEncoder {
    const data: seq<FileInfo>
    var bfl: array<byte>
    var current_offset: nat

    constructor (data: seq<FileInfo>)
      ensures this.data == data && bfl.Length == 0 && current_offset == 0 && fresh(bfl)
    {
      this.data := data;
      bfl := new byte[0];
      current_offset := 0;
    }

    /** The bytes already written. */
    ghost function Done(): seq<byte>
      requires current_offset <= bfl.Length
      reads this, bfl
    {
      bfl[..current_offset]
    }

    /** The buffer allocated up front is filled exactly, every write inside it, and holds the encoded list behind what
        was written before. */
    method encode()
      requires current_offset <= bfl.Length
      modifies this, bfl
      ensures fresh(bfl) && current_offset == bfl.Length && bfl[..] == old(Done()) + EncodeList(data)
    {
      ghost var before := Done();
      pushFileCount();
      allocMemoryForFiles();
      ghost var buffer, start := bfl, Done();
      Assoc(before, LittleEndian(|data|, 4), EncodeFiles(data));
      assert data[0..] == data;
      for i := 0 to |data|
        invariant bfl == buffer && fresh(bfl)
        invariant current_offset + SizeInBuffer(data[i..]) == bfl.Length
        invariant Done() + EncodeFiles(data[i..]) == before + EncodeList(data)
      {
        assert data[i..][1..] == data[i + 1..];
        Assoc(Done(), EncodeFile(data[i]), EncodeFiles(data[i + 1..]));
        pushFile(data[i]);
      }
      assert Done() + [] == Done();
      assert bfl[..current_offset] == bfl[..];
    }

    method pushFileCount()
      requires current_offset <= bfl.Length
      modifies this, bfl
      ensures fresh(bfl) && current_offset == bfl.Length == old(current_offset) + 4
      ensures Done() == old(Done()) + LittleEndian(|data|, 4)
    {
      Resize(current_offset + 4);
      Push(LittleEndian(|data|, 4));
    }

    method allocMemoryForFiles()
      requires current_offset <= bfl.Length
      modifies this`bfl
      ensures fresh(bfl) && bfl.Length == current_offset + SizeInBuffer(data) && Done() == old(Done())
    {
      var finalSize := 0;
      assert data[0..] == data;
      for i := 0 to |data|
        invariant bfl == old(bfl)
        invariant finalSize + SizeInBuffer(data[i..]) == SizeInBuffer(data)
      {
        assert data[i..][1..] == data[i + 1..];
        finalSize := finalSize + FileSizeInBuffer(data[i]);
      }
      Resize(current_offset + finalSize);
    }

    method pushFile(file: FileInfo)
      requires current_offset + FileSizeInBuffer(file) <= bfl.Length
      modifies this`current_offset, bfl
      ensures current_offset == old(current_offset) + FileSizeInBuffer(file) && bfl == old(bfl) && current_offset <= bfl.Length
      ensures Done() == old(Done()) + EncodeFile(file)
    {
      Push([file.kind]);
      Push(LittleEndian(file.size, 8));
      Push(LittleEndian(|file.name|, 2));
      Push(file.name);
      ghost var a, b, c, d := old(Done()), LittleEndian(file.size, 8), LittleEndian(|file.name|, 2), file.name;
      Assoc(a + [file.kind] + b, c, d);
      Assoc(a + [file.kind], b, c + d);
      Assoc(a, [file.kind], b + (c + d));
    }

    /** `memcpy` to the current offset, which is moved behind it. */
    method Push(bytes: seq<byte>)
      requires current_offset + |bytes| <= bfl.Length
      modifies this`current_offset, bfl
      ensures current_offset == old(current_offset) + |bytes| && bfl == old(bfl) && current_offset <= bfl.Length
      ensures Done() == old(Done()) + bytes
    {
      forall i | 0 <= i < |bytes| {
        bfl[current_offset + i] := bytes[i];
      }
      current_offset := current_offset + |bytes|;
    }

    method Resize(size: nat)
      requires current_offset <= bfl.Length && current_offset <= size
      modifies this`bfl
      ensures fresh(bfl) && bfl.Length == size && Done() == old(Done())
    {
      var bigger := new byte[size];
      forall i | 0 <= i < size {
        bigger[i] := if i < bfl.Length then bfl[i] else 0;
      }
      bfl := bigger;
    }
  }

  function FileSizeInBuffer(file: FileInfo): (n: nat)
    ensures n == |EncodeFile(file)|
  {
    1 + 8 + 2 + |file.name|
  }

  function SizeInBuffer(files: seq<FileInfo>): nat {
    if files == [] then 0 else FileSizeInBuffer(files[0]) + SizeInBuffer(files[1..])
  }

  // ---------------------------------------------------------------- the decoder

  lemma {:induction false} FilesSnoc(files: seq<FileInfo>, f: FileInfo, rest: seq<byte>)
    requires ShortNames(files) && |f.name| < NAME_LIMIT
    ensures EncodeFiles(files + [f]) + rest == EncodeFiles(files) + (EncodeFile(f) + rest) && ShortNames(files + [f])
    decreases |files|
  {
    if files == [] {
      assert [] + [f] == [f] && EncodeFiles([f]) == EncodeFile(f) + [] == EncodeFile(f);
      assert [] + (EncodeFile(f) + rest) == EncodeFile(f) + rest;
    } else {
      assert (files + [f])[1..] == files[1..] + [f];
      FilesSnoc(files[1..], f, rest);
      Assoc(EncodeFile(files[0]), EncodeFiles(files[1..] + [f]), rest);
      Assoc(EncodeFile(files[0]), EncodeFiles(files[1..]), EncodeFile(f) + rest);
    }
  }

  /** When no record follows the files read so far and more are announced, there is no list. */
  lemma NoList(bytes: seq<byte>, files: seq<FileInfo>, ahead: seq<byte>)
    requires |bytes| >= 4 && |files| < ValueOf(bytes[..4]) && bytes[4..] == EncodeFiles(files) + ahead && ShortNames(files)
    requires forall f, rest :: !IsFile(ahead, f, rest)
    ensures forall more, rest :: !IsList(bytes, more, rest)
  {
    forall more, rest
      ensures !IsList(bytes, more, rest)
    {
      if IsList(bytes, more, rest) {
        ListBytes(more, rest);
        FilesUnique(files, ahead, more, rest);
        var left := more[|files|..];
        Assoc(EncodeFile(left[0]), EncodeFiles(left[1..]), rest);
        assert !IsFile(ahead, left[0], EncodeFiles(left[1..]) + rest);
        assert false;
      }
    }
  }

  class BFLDecoder {
    const bfl: seq<byte>
    var data: seq<FileInfo>
    var file_count: nat
    var current_offset: nat

    constructor (bfl: seq<byte>)
      ensures this.bfl == bfl && data == [] && current_offset == 0
    {
      this.bfl := bfl;
      data := [];
      file_count := 0;
      current_offset := 0;
    }

    ghost predicate Valid()
      reads this
    {
      current_offset <= |bfl|
    }

    /** It succeeds exactly when the bytes from the offset on start with an encoded list, and then adds that list to what
        was decoded before and stops right behind it. A new decoder is total on any bytes. */
    method decode() returns (ok: bool)
      requires CountReadable()
      modifies this
      ensures Valid()
      ensures ok ==> old(data) <= data && IsList(old(Ahead()), data[|old(data)|..], Ahead())
      ensures !ok ==> forall files, rest :: !IsList(old(Ahead()), files, rest)
    {
      ghost var start, before := Ahead(), data;
      ok := getFileCount();
      if !ok {
        return;
      }
      ghost var count := file_count;
      ghost var files: seq<FileInfo> := [];
      assert start[4..] == EncodeFiles(files) + Ahead();
      assert before + files == before;
      for i := 0 to file_count
        invariant Valid() && file_count == count && |files| == i && data == before + files
        invariant start[4..] == EncodeFiles(files) + Ahead() && ShortNames(files)
      {
        ghost var ahead := Ahead();
        ok := decodeFile();
        if !ok {
          NoList(start, files, ahead);
          return;
        }
        ghost var file := data[|data| - 1];
        FilesSnoc(files, file, Ahead());
        assert data == data[..|data| - 1] + [file];
        Assoc(before, files, [file]);
        files := files + [file];
      }
      BytesList(start, files, Ahead());
      Split(before, files);
      ok := true;
    }

    /** The size is checked against the four bytes of a count, not from the offset on: with a list decoded before, there
        must be four more bytes. */
    ghost predicate CountReadable()
      reads this
    {
      Valid() && (|bfl| < 4 || current_offset + 4 <= |bfl|)
    }

    method getFileCount() returns (ok: bool)
      requires CountReadable()
      modifies this`file_count, this`current_offset
      ensures Valid() && ok == (|old(Ahead())| >= 4)
      ensures ok ==> file_count == ValueOf(old(Ahead())[..4]) && Ahead() == old(Ahead())[4..]
    {
      if |bfl| < 4 {
        return false;
      }
      Seqs.Ahead(bfl, current_offset, 4);
      file_count := ValueOf(bfl[current_offset..current_offset + 4]);
      current_offset := current_offset + 4;
      ok := true;
    }

    /** The bytes still to be decoded. */
    ghost function Ahead(): seq<byte>
      requires Valid()
      reads this
    {
      bfl[current_offset..]
    }

    method decodeFile() returns (ok: bool)
      requires Valid()
      modifies this`data, this`current_offset
      ensures Valid()
      ensures ok ==> |data| == |old(data)| + 1 && data[..|data| - 1] == old(data) && IsFile(old(Ahead()), data[|data| - 1], Ahead())
      ensures !ok ==> data == old(data) && forall f, rest :: !IsFile(old(Ahead()), f, rest)
    {
      ReadsFile(Ahead());
      var kind, size, name;
      ok, kind := getFileType();
      if !ok {
        return;
      }
      ok, size := getFileSize();
      if !ok {
        return;
      }
      ok, name := getFileName();
      if !ok {
        return;
      }
      data := data + [FileInfo(name, kind, size)];
    }

    method getFileType() returns (ok: bool, kind: byte)
      requires Valid()
      modifies this`current_offset
      ensures Valid() && ok == (old(Ahead()) != [])
      ensures ok ==> kind == old(Ahead())[0] && Ahead() == old(Ahead())[1..]
    {
      if |bfl| < current_offset + 1 {
        return false, 0;
      }
      kind := bfl[current_offset];
      current_offset := current_offset + 1;
      ok := true;
    }

    method getFileSize() returns (ok: bool, size: uint64)
      requires Valid()
      modifies this`current_offset
      ensures Valid() && ok == (|old(Ahead())| >= 8)
      ensures ok ==> size == ValueOf(old(Ahead())[..8]) && Ahead() == old(Ahead())[8..]
    {
      if |bfl| < current_offset + 8 {
        return false, 0;
      }
      assert Ahead()[..8] == bfl[current_offset..current_offset + 8];
      EightBytes(bfl[current_offset..current_offset + 8]);
      size := ValueOf(bfl[current_offset..current_offset + 8]);
      current_offset := current_offset + 8;
      ok := true;
    }

    /** The name size, and then as many bytes. */
    method getFileName() returns (ok: bool, name: seq<byte>)
      requires Valid()
      modifies this`current_offset
      ensures Valid() && ok == DecodeName(old(Ahead())).Some?
      ensures ok ==> (name, Ahead()) == DecodeName(old(Ahead())).value
    {
      ghost var ahead := Ahead();
      if |bfl| < current_offset + 2 {
        return false, [];
      }
      assert ahead[..2] == bfl[current_offset..current_offset + 2];
      var nameSize := ValueOf(bfl[current_offset..current_offset + 2]);
      current_offset := current_offset + 2;
      ghost var rest := Ahead();
      assert rest == ahead[2..];
      if |bfl| < current_offset + nameSize {
        return false, [];
      }
      name := bfl[current_offset..current_offset + nameSize];
      assert rest[..nameSize] == name;
      current_offset := current_offset + nameSize;
      assert rest[nameSize..] == Ahead();
      ok := true;
    }
  }

  /** A directory listing from the server to the client: the client gets the list back if and only if there are
      fewer than 2^32 files, all with names shorter than 2^16 bytes. */
  method SendList(files: seq<FileInfo>) returns (ok: bool, received: seq<FileInfo>)
    ensures ok && received == files <==>
              |files| < COUNT_LIMIT && forall i :: 0 <= i < |files| ==> |files[i].name| < NAME_LIMIT
  {
    var encoder := new BFLEncoder(files);
    encoder.encode();
    assert encoder.bfl[..] == [] + EncodeList(files) == EncodeList(files);
    var decoder := new BFLDecoder(encoder.bfl[..]);
    assert decoder.Ahead() == decoder.bfl;
    ok := decoder.decode();
    received := decoder.data;
    assert received[0..] == received;
    ShortNamesMeans(files);
    assert EncodeList(files) + [] == EncodeList(files);
    if |files| < COUNT_LIMIT && ShortNames(files) {
      assert IsList(decoder.bfl, files, []);
      ListUnique(decoder.bfl, files, [], received, decoder.Ahead());
    }
  }
}
