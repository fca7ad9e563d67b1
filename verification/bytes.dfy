/** Bytes, and unsigned integers as little-endian bytes. */
module Bytes {
  import opened Seqs

  type byte = x: int | 0 <= x < 256

  /** 256 to the power `w`: the number of values of an unsigned type of `w` bytes. */
  function Range(w: nat): (r: nat)
    ensures r > 0
  {
    if w == 0 then 1 else 256 * Range(w - 1)
  }

  /** The low `w` bytes of `v`, least significant first. */
  function LittleEndian(v: nat, w: nat): (r: seq<byte>)
    ensures |r| == w
  {
    if w == 0 then [] else [v % 256] + LittleEndian(v / 256, w - 1)
  }

  function ValueOf(b: seq<byte>): nat {
    if b == [] then 0 else b[0] + 256 * ValueOf(b[1..])
  }

  lemma {:induction false} ValueBound(b: seq<byte>)
    ensures ValueOf(b) < Range(|b|)
  {
    if b != [] {
      ValueBound(b[1..]);
    }
  }

  /** Writing and reading back keeps the value modulo the range of the type. */
  lemma {:induction false} ValueOfLittleEndian(v: nat, w: nat)
    ensures ValueOf(LittleEndian(v, w)) == v % Range(w)
  {
    if w > 0 {
      ValueOfLittleEndian(v / 256, w - 1);
      Tail(v % 256, LittleEndian(v / 256, w - 1));
      ModStep(v, Range(w - 1));
    }
  }

  lemma ModStep(v: nat, r: nat)
    requires r > 0
    ensures v % (256 * r) == v % 256 + 256 * ((v / 256) % r)
  {
    var q, m := v / 256, v % 256;
    var k, n := q / r, q % r;
    assert v == 256 * q + m && q == r * k + n;
    assert v == (256 * r) * k + (256 * n + m) by {
      assert 256 * (r * k) == (256 * r) * k;
    }
    QuotientUnique(v, 256 * r, k, 256 * n + m);
  }

  lemma DivSmall(v: nat, d: nat)
    requires v < d
    ensures v / d == 0 && v % d == v
  {
  }

  lemma DivDown(v: nat, d: nat)
    requires 0 < d <= v
    ensures v / d == (v - d) / d + 1 && v % d == (v - d) % d
  {
    var q, m := (v - d) / d, (v - d) % d;
    assert v == d * (q + 1) + m by {
      assert d * (q + 1) == d * q + d;
    }
    QuotientUnique(v, d, q + 1, m);
  }

  lemma QuotientUnique(v: nat, d: nat, q: nat, m: nat)
    requires d > 0 && v == d * q + m && m < d
    ensures v / d == q && v % d == m
  {
    var q', m' := v / d, v % d;
    assert v == d * q' + m';
    if q' < q {
      Gap(d, q', q);
    } else if q < q' {
      Gap(d, q, q');
    }
  }

  lemma {:induction false} Gap(d: nat, a: nat, b: nat)
    requires a < b
    ensures d * a + d <= d * b
    decreases b
  {
    assert d * b == d * (b - 1) + d;
    if a < b - 1 {
      Gap(d, a, b - 1);
    }
  }

  lemma ReadBack(v: nat, w: nat)
    requires v < Range(w)
    ensures ValueOf(LittleEndian(v, w)) == v
  {
    ValueOfLittleEndian(v, w);
  }

  lemma {:induction false} WriteBack(b: seq<byte>)
    ensures LittleEndian(ValueOf(b), |b|) == b
  {
    if b != [] {
      WriteBack(b[1..]);
      assert ValueOf(b) % 256 == b[0] && ValueOf(b) / 256 == ValueOf(b[1..]);
      Uncons(b);
    }
  }

  /** Byte `i` is the value shifted right by `8 * i` bits, masked. */
  lemma {:induction false} LittleEndianByte(v: nat, w: nat, i: nat)
    requires i < w
    ensures LittleEndian(v, w)[i] == v / Range(i) % 256
  {
    if i > 0 {
      LittleEndianByte(v / 256, w - 1, i - 1);
      DivStep(v, Range(i - 1));
    }
  }

  lemma DivStep(v: nat, r: nat)
    requires r > 0
    ensures v / 256 / r == v / (256 * r)
  {
    var q := v / 256;
    var k, n := q / r, q % r;
    assert v == 256 * q + v % 256 && q == r * k + n;
    assert 256 * (r * k) == (256 * r) * k;
    QuotientUnique(v, 256 * r, k, 256 * n + v % 256);
  }

  /** A byte shifted left by `8 * i` bits. */
  function Shifted(x: byte, i: nat): nat {
    x * Range(i)
  }

  lemma {:induction false} ValueSnoc(b: seq<byte>, x: byte)
    ensures ValueOf(b + [x]) == ValueOf(b) + Shifted(x, |b|)
  {
    if b == [] {
      assert [] + [x] == [x];
      assert ValueOf([x][1..]) == 0;
    } else {
      assert (b + [x])[1..] == b[1..] + [x];
      ValueSnoc(b[1..], x);
      assert 256 * (x * Range(|b| - 1)) == x * (256 * Range(|b| - 1));
    }
  }

  /** A vector of this size, as it is constructed. */
  function Zeros(n: nat): (r: seq<byte>)
    ensures |r| == n && forall i :: 0 <= i < n ==> r[i] == 0
  {
    seq(n, _ => 0)
  }

  /** The ranges of the unsigned types of one, two, four and eight bytes. */
  lemma Widths()
    ensures Range(1) == 256 && Range(2) == 0x1_0000 && Range(4) == 0x1_0000_0000 && Range(8) == 0x1_0000_0000_0000_0000
  {
    assert Range(3) == 0x100_0000;
    assert Range(5) == 0x100_0000_0000 && Range(6) == 0x1_0000_0000_0000 && Range(7) == 0x100_0000_0000_0000;
  }
}
