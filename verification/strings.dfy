/** Characters, and the loops of the shared string utilities. */
module Strings {
  import opened Seqs

  /** `isspace` in the "C" locale: blank, tab, line feed, vertical tab, form feed, carriage return. */
  predicate IsSpace(c: char) {
    c == ' ' || '\t' <= c <= '\r'
  }

  method findOccurences(str: string, chr_to_find: char) returns (occurences: seq<nat>)
    ensures forall k :: 0 <= k < |occurences| ==> occurences[k] < |str| && str[occurences[k]] == chr_to_find
    ensures forall j, k :: 0 <= j < k < |occurences| ==> occurences[j] < occurences[k]
    ensures forall i :: 0 <= i < |str| && str[i] == chr_to_find ==> i in occurences
  {
    occurences := [];
    for i := 0 to |str|
      invariant forall k :: 0 <= k < |occurences| ==> occurences[k] < i && str[occurences[k]] == chr_to_find
      invariant forall j, k :: 0 <= j < k < |occurences| ==> occurences[j] < occurences[k]
      invariant forall m :: 0 <= m < i && str[m] == chr_to_find ==> m in occurences
    {
      if str[i] == chr_to_find {
        occurences := occurences + [i];
      }
    }
  }

  // ---------------------------------------------------------------- UTF-8

  /** How many bytes the counter passes over, from the first of them. */
  function Stride(c: bv8): (n: nat)
    ensures 1 <= n <= 4
  {
    if c & 0x80 == 0x00 then 1
    else if c & 0xE0 == 0xC0 then 2
    else if c & 0xF0 == 0xE0 then 3
    else if c & 0xF8 == 0xF0 then 4
    else 1
  }

  /** The number of strides to the end of the text or past it. */
  function Strides(text: seq<bv8>): nat {
    if text == [] then 0
    else if Stride(text[0]) >= |text| then 1
    else 1 + Strides(text[Stride(text[0])..])
  }

  method utf8Length(str: seq<bv8>) returns (count: nat)
    ensures count == Strides(str)
  {
    count := 0;
    var i := 0;
    assert str[0..] == str;
    while i < |str|
      invariant count + (if i < |str| then Strides(str[i..]) else 0) == Strides(str)
    {
      var c := str[i];
      ghost var ahead := str[i..];
      assert Stride(c) < |ahead| ==> ahead[Stride(c)..] == str[i + Stride(c)..];
      if c & 0x80 == 0x00 {
        i := i + 1;
      } else if c & 0xE0 == 0xC0 {
        i := i + 2;
      } else if c & 0xF0 == 0xE0 {
        i := i + 3;
      } else if c & 0xF8 == 0xF0 {
        i := i + 4;
      } else {
        i := i + 1;
      }
      count := count + 1;
    }
  }

  /** A code point as one to four bytes, section 3 of RFC 3629. */
  function EncodePoint(p: bv32): (r: seq<bv8>)
    requires p <= 0x10FFFF
    ensures 1 <= |r| <= 4
  {
    if p < 0x80 then [p as bv8]
    else if p < 0x800 then [(0xC0 | (p >> 6)) as bv8, Continuation(p)]
    else if p < 0x1_0000 then [(0xE0 | (p >> 12)) as bv8, Continuation(p >> 6), Continuation(p)]
    else [(0xF0 | (p >> 18)) as bv8, Continuation(p >> 12), Continuation(p >> 6), Continuation(p)]
  }

  /** The low six bits, marked as a byte that continues a character. */
  function Continuation(p: bv32): bv8 {
    (0x80 | (p & 0x3F)) as bv8
  }

  type CodePoint = p: bv32 | p <= 0x10FFFF

  function EncodePoints(points: seq<CodePoint>): seq<bv8> {
    if points == [] then [] else EncodePoint(points[0]) + EncodePoints(points[1..])
  }

  /** The first byte of a character tells how many bytes it has. */
  lemma StrideOfPoint(p: CodePoint)
    ensures Stride(EncodePoint(p)[0]) == |EncodePoint(p)|
  {
  }

  /** The length of any encoded text is the number of its code points. */
  lemma {:induction false} LengthOfEncoded(points: seq<CodePoint>)
    ensures Strides(EncodePoints(points)) == |points|
    decreases |points|
  {
    if points != [] {
      var first, rest := EncodePoint(points[0]), EncodePoints(points[1..]);
      StrideOfPoint(points[0]);
      Split(first, rest);
      LengthOfEncoded(points[1..]);
      assert points[1..] != [] ==> |rest| > 0;
    }
  }
}
