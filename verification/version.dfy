/** Version numbers: three parts of 16 bits. */
module Versions {
  import opened Bytes

  datatype Version = Version(major: nat, minor: nat, patch: nat)

  const PART := 0x1_0000

  /** The conversion of an integer to `uint16_t`. */
  function ToUInt16(x: int): (r: nat)
    ensures r < PART
  {
    x % PART
  }

  predicate Valid(v: Version) {
    v.major < PART && v.minor < PART && v.patch < PART
  }

  /** The parts shifted to their places and put together. */
  function Combine(v: Version): nat {
    v.major * 0x1_0000_0000 + v.minor * PART + v.patch
  }

  /** The parts shifted back and masked. */
  function FromCombined(n: nat): (v: Version)
    ensures Valid(v)
  {
    Version(n / 0x1_0000_0000 % PART, n / PART % PART, n % PART)
  }

  /** Shifting and masking of the 64-bit number is this arithmetic. */
  lemma ShiftsAdd(major: bv64, minor: bv64, patch: bv64)
    requires major < 0x1_0000 && minor < 0x1_0000 && patch < 0x1_0000
    ensures (major << 32) | (minor << 16) | patch == major * 0x1_0000_0000 + minor * 0x1_0000 + patch
  {
  }

  lemma FromCombinedOfCombine(v: Version)
    requires Valid(v)
    ensures FromCombined(Combine(v)) == v
  {
    QuotientUnique(Combine(v), PART, v.major * PART + v.minor, v.patch);
    QuotientUnique(v.major * PART + v.minor, PART, v.major, v.minor);
    QuotientUnique(Combine(v), 0x1_0000_0000, v.major, v.minor * PART + v.patch);
  }

  /** A number is the combination of the parts read from it exactly when it has no more than 48 bits. */
  lemma CombineOfFromCombined(n: nat)
    ensures Combine(FromCombined(n)) == n <==> n < 0x1_0000_0000_0000
  {
    var high := n / PART;
    QuotientUnique(n, 0x1_0000_0000, high / PART, high % PART * PART + n % PART);
    assert n == high * PART + n % PART && high == high / PART * PART + high % PART;
    if n < 0x1_0000_0000_0000 {
      assert high / PART < PART;
    }
  }

  /** Part by part, the first difference decides. */
  predicate Less(v: Version, w: Version) {
    if v.major != w.major then v.major < w.major
    else if v.minor != w.minor then v.minor < w.minor
    else v.patch < w.patch
  }

  /** Comparing combined versions, as client and server do, compares versions. */
  lemma CombineOrders(v: Version, w: Version)
    requires Valid(v) && Valid(w)
    ensures Combine(v) < Combine(w) <==> Less(v, w)
  {
  }
}
