/** Version numbers as text, and as the fields of the `Version` struct. */
module VersionText {
  import opened Options
  import opened Seqs
  import opened SmclLexer
  import opened SmclText
  import opened Strings
  import opened Versions

  // ---------------------------------------------------------------- `stoi`

  function DigitsValue(digits: string): int {
    if digits == "" then 0 else DigitsValue(digits[..|digits| - 1]) * 10 + DigitValue(digits[|digits| - 1])
  }

  /** Digits, as many as there are, and at least one. */
  function Unsigned(s: string): Option<int> {
    var n := Run(Digit, s);
    if n == 0 then None else Some(DigitsValue(s[..n]))
  }

  function Signed(s: string): Option<int> {
    if s != "" && s[0] == '+' then Unsigned(s[1..])
    else if s != "" && s[0] == '-' then
      match Unsigned(s[1..])
      case None => None
      case Some(x) => Some(-x)
    else Unsigned(s)
  }

  /** `stoi` of the C library, without its exceptions: blanks, a sign, digits that make an `int`; the rest is ignored. */
  function Stoi(s: string): Option<int> {
    match Signed(SkipSpace(s))
    case None => None
    case Some(x) => if -0x8000_0000 <= x < 0x8000_0000 then Some(x) else None
  }

  lemma {:induction false} RunStops(x: string, y: string)
    ensures Run(Digit, x + "." + y) == Run(Digit, x)
    ensures (x + "." + y)[..Run(Digit, x)] == x[..Run(Digit, x)]
    decreases |x|
  {
    var s := x + "." + y;
    var n := Run(Digit, x);
    assert s[..n] == x[..n];
    assert n < |x| ==> s[n] == x[n];
    RunUnique(Digit, s, n);
  }

  lemma {:induction false} SkipStops(x: string, y: string)
    ensures SkipSpace(x + "." + y) == SkipSpace(x) + "." + y
    decreases |x|
  {
    if x != "" && IsSpace(x[0]) {
      assert (x + "." + y)[1..] == x[1..] + "." + y;
      SkipStops(x[1..], y);
    }
  }

  /** A number ends at a dot, whatever follows. */
  lemma StoiStops(x: string, y: string)
    ensures Stoi(x + "." + y) == Stoi(x)
  {
    SkipStops(x, y);
    var t := SkipSpace(x);
    RunStops(t, y);
    if t != "" {
      assert (t + "." + y)[1..] == t[1..] + "." + y;
      RunStops(t[1..], y);
    }
  }

  // ---------------------------------------------------------------- character by character

  lemma {:induction false} DigitsAreDecimals(digits: string)
    ensures DigitsValue(digits) == Decimals(digits)
    decreases |digits|
  {
    if digits != "" {
      DigitsAreDecimals(digits[..|digits| - 1]);
    }
  }

  lemma UnsignedReads(digits: string, rest: string)
    requires forall i :: 0 <= i < |digits| ==> '0' <= digits[i] <= '9'
    requires rest == "" || !('0' <= rest[0] <= '9')
    ensures Unsigned(digits + rest) == if digits == "" then None else Some(Decimals(digits))
  {
    RunAppend(Digit, digits, rest);
    DigitsAreDecimals(digits);
  }

  /** Digits, and something that is none. */
  predicate NumberText(digits: string, rest: string) {
    (forall i :: 0 <= i < |digits| ==> '0' <= digits[i] <= '9') && (rest == "" || !('0' <= rest[0] <= '9'))
  }

  function Negated(sign: string, value: int): int {
    if sign == "-" then -value else value
  }

  lemma SignAhead(number: string)
    ensures Signed("+" + number) == Unsigned(number)
    ensures Signed("-" + number) == if Unsigned(number).None? then None else Some(-Unsigned(number).value)
  {
    Tail('+', number);
    Tail('-', number);
  }

  lemma SignedReads(sign: string, digits: string, rest: string)
    requires (sign == "" || sign == "+" || sign == "-") && NumberText(digits, rest)
    requires sign == "" && digits == "" && rest != "" ==> rest[0] != '+' && rest[0] != '-'
    ensures Signed(sign + (digits + rest)) == if digits == "" then None else Some(Negated(sign, Decimals(digits)))
  {
    UnsignedReads(digits, rest);
    var number := digits + rest;
    if sign == "" {
      Unit(number);
      NoSignAhead(digits, rest);
    } else {
      SignAhead(number);
    }
  }

  lemma NoSignAhead(digits: string, rest: string)
    requires NumberText(digits, rest) && (digits == "" && rest != "" ==> rest[0] != '+' && rest[0] != '-')
    ensures Signed(digits + rest) == Unsigned(digits + rest)
  {
    var number := digits + rest;
    assert digits != "" ==> number[0] == digits[0];
    assert digits == "" ==> number == rest;
  }

  lemma StartsUnblank(sign: string, digits: string, rest: string)
    requires (sign == "" || sign == "+" || sign == "-") && NumberText(digits, rest)
    requires sign == "" && digits == "" && rest != "" ==> !IsSpace(rest[0])
    ensures var s := sign + (digits + rest); s != "" ==> !IsSpace(s[0])
  {
    var s := sign + (digits + rest);
    if sign != "" {
      assert s[0] == sign[0];
    } else if digits != "" {
      assert s[0] == digits[0];
    } else {
      assert s == rest;
    }
  }

  /** Blanks, a sign or none, and as many digits as there are; without a digit, or with a value that is no `int`, there
      is no number. */
  lemma StoiReads(gap: string, sign: string, digits: string, rest: string)
    requires All(Blank, gap) && (sign == "" || sign == "+" || sign == "-") && NumberText(digits, rest)
    requires sign == "" && digits == "" && rest != "" ==> !IsSpace(rest[0]) && rest[0] != '+' && rest[0] != '-'
    ensures var value := if sign == "-" then -Decimals(digits) else Decimals(digits);
            Stoi(gap + (sign + (digits + rest))) ==
            if digits != "" && -0x8000_0000 <= value < 0x8000_0000 then Some(value) else None
  {
    StartsUnblank(sign, digits, rest);
    SkipGap(gap, sign + (digits + rest));
    SignedReads(sign, digits, rest);
  }

  lemma {:induction false} DecimalDigits(n: nat)
    ensures DigitsValue(Decimal(n)) == n && '.' !in Decimal(n)
  {
    var s := Decimal(n);
    assert s[..|s| - 1] == if n < 10 then "" else Decimal(n / 10);
    if n >= 10 {
      DecimalDigits(n / 10);
    }
  }

  lemma StoiDecimal(n: nat)
    requires n < PART
    ensures Stoi(Decimal(n)) == Some(n)
  {
    DecimalDigits(n);
    var s := Decimal(n);
    assert Is(Digit, s[0]);
    RunUnique(Digit, s, |s|);
    assert s[..|s|] == s;
  }

  // ---------------------------------------------------------------- the text

  function ToString(v: Version, delim: char): string {
    Decimal(v.major) + [delim] + Decimal(v.minor) + [delim] + Decimal(v.patch)
  }

  /** Three parts around the only two dots. */
  ghost predicate ThreeParts(s: string, a: string, b: string, c: string) {
    s == a + "." + b + "." + c && '.' !in a && '.' !in b && '.' !in c
  }

  /** The positions of the dots, in order. */
  ghost predicate Dots(s: string, at: seq<nat>) {
    && (forall k :: 0 <= k < |at| ==> at[k] < |s| && s[at[k]] == '.')
    && (forall j, k :: 0 <= j < k < |at| ==> at[j] < at[k])
    && (forall i :: 0 <= i < |s| && s[i] == '.' ==> i in at)
  }

  lemma DotsOfParts(s: string, a: string, b: string, c: string)
    requires ThreeParts(s, a, b, c)
    ensures forall i :: 0 <= i < |s| && s[i] == '.' ==> i == |a| || i == |a| + 1 + |b|
    ensures s[|a|] == '.' && s[|a| + 1 + |b|] == '.'
    ensures s[..|a|] == a && s[|a| + 1..|a| + 1 + |b|] == b && s[|a| + 1 + |b| + 1..] == c
  {
    assert forall i :: 0 <= i < |a| ==> s[i] == a[i];
    assert forall i :: |a| < i < |a| + 1 + |b| ==> s[i] == b[i - |a| - 1];
    assert forall i :: |a| + 1 + |b| < i < |s| ==> s[i] == c[i - |a| - |b| - 2];
  }

  lemma FirstThree(s: string, at: seq<nat>)
    requires Dots(s, at)
    ensures |at| > 2 ==> at[0] < at[1] < at[2]
  {
  }

  lemma DotsBetween(s: string, at: seq<nat>, a: string, b: string, c: string)
    requires Dots(s, at) && ThreeParts(s, a, b, c)
    ensures |at| == 2 && at[0] == |a| && at[1] == |a| + 1 + |b|
  {
    FirstThree(s, at);
    DotsOfParts(s, a, b, c);
    var p, q := |a|, |a| + 1 + |b|;
    assert p in at && q in at && at[0] < at[1];
    assert forall k :: 0 <= k < |at| ==> at[k] == p || at[k] == q;
  }

  lemma Three(s: string, at: seq<nat>)
    requires Dots(s, at) && |at| == 2
    ensures ThreeParts(s, s[..at[0]], s[at[0] + 1..at[1]], s[at[1] + 1..])
  {
    var i, j := at[0], at[1];
    assert s == s[..i] + "." + s[i + 1..j] + "." + s[j + 1..];
    assert forall k :: 0 <= k < |s| && k != i && k != j ==> s[k] != '.';
  }

  /** Text with two dots has one division into three parts, other text has none. */
  lemma OnlyParts(s: string, at: seq<nat>)
    requires Dots(s, at)
    ensures |at| == 2 ==> ThreeParts(s, s[..at[0]], s[at[0] + 1..at[1]], s[at[1] + 1..])
    ensures forall a, b, c :: ThreeParts(s, a, b, c) ==>
              |at| == 2 && a == s[..at[0]] && b == s[at[0] + 1..at[1]] && c == s[at[1] + 1..]
  {
    forall a, b, c | ThreeParts(s, a, b, c)
      ensures |at| == 2 && a == s[..at[0]] && b == s[at[0] + 1..at[1]] && c == s[at[1] + 1..]
    {
      DotsBetween(s, at, a, b, c);
      DotsOfParts(s, a, b, c);
    }
    if |at| == 2 {
      Three(s, at);
    }
  }

  /** The fields after `setFromString` on these parts, and success. */
  function Parsed(before: Version, a: string, b: string, c: string): (Version, bool) {
    if Stoi(a).None? then (before, false)
    else
      var major := ToUInt16(Stoi(a).value);
      if Stoi(b).None? then (before.(major := major), false)
      else
        var minor := ToUInt16(Stoi(b).value);
        if Stoi(c).None? then (before.(major := major, minor := minor), false)
        else (Version(major, minor, ToUInt16(Stoi(c).value)), true)
  }

  /** The text from the first dot on, cut somewhere behind the second, starts with the number between them. */
  lemma SecondPart(s: string, i: nat, j: nat, end: nat)
    requires i < j < end <= |s| && s[j] == '.'
    ensures Stoi(s[i + 1..end]) == Stoi(s[i + 1..j])
  {
    assert s[i + 1..end] == s[i + 1..j] + "." + s[j + 1..end];
    StoiStops(s[i + 1..j], s[j + 1..end]);
  }

  /** It makes no difference where behind the second dot the second part is cut off. */
  lemma CutAnywhere(before: Version, s: string, i: nat, j: nat, end: nat)
    requires i < j < end <= |s| && s[j] == '.'
    ensures Parsed(before, s[..i], s[i + 1..end], s[j + 1..]) == Parsed(before, s[..i], s[i + 1..j], s[j + 1..])
  {
    SecondPart(s, i, j, end);
  }

  class VersionStruct {
    var major: nat
    var minor: nat
    var patch: nat

    constructor (v: Version)
      ensures Value() == v
    {
      major := v.major;
      minor := v.minor;
      patch := v.patch;
    }

    function Value(): Version
      reads this
    {
      Version(major, minor, patch)
    }

    method setFromCombined(combined: nat)
      modifies this
      ensures Value() == FromCombined(combined)
    {
      major := ToUInt16(combined / 0x1_0000_0000);
      minor := ToUInt16(combined / 0x1_0000);
      patch := ToUInt16(combined);
    }

    /** The parts are read up to the next dot although the second is cut out too long; text that does not have
        exactly two dots changes nothing. */
    method setFromString(str: string) returns (ok: bool)
      modifies this
      ensures forall a, b, c :: ThreeParts(str, a, b, c) ==> (Value(), ok) == Parsed(old(Value()), a, b, c)
      ensures (forall a, b, c :: !ThreeParts(str, a, b, c)) ==> !ok && Value() == old(Value())
    {
      var occur := findOccurences(str, '.');
      OnlyParts(str, occur);
      if |occur| != 2 {
        return false;
      }
      ok := SetBetween(str, occur[0], occur[1]);
    }

    /** The parts between two dots; the second is cut out by a length that is its end. */
    method SetBetween(str: string, i: nat, j: nat) returns (ok: bool)
      requires i < j < |str| && str[j] == '.'
      modifies this
      ensures (Value(), ok) == Parsed(old(Value()), str[..i], str[i + 1..j], str[j + 1..])
    {
      var end := if i + 1 + j <= |str| then i + 1 + j else |str|;
      CutAnywhere(Value(), str, i, j, end);
      ok := SetParts(str[..i], str[i + 1..end], str[j + 1..]);
    }

    /** The parts are set one by one, until one is no number. */
    method SetParts(first: string, second: string, third: string) returns (ok: bool)
      modifies this
      ensures (Value(), ok) == Parsed(old(Value()), first, second, third)
    {
      if Stoi(first).None? {
        return false;
      }
      major := ToUInt16(Stoi(first).value);
      if Stoi(second).None? {
        return false;
      }
      minor := ToUInt16(Stoi(second).value);
      if Stoi(third).None? {
        return false;
      }
      patch := ToUInt16(Stoi(third).value);
      ok := true;
    }
  }

  lemma ToStringParts(v: Version, delim: char)
    ensures if delim == '.' then ThreeParts(ToString(v, delim), Decimal(v.major), Decimal(v.minor), Decimal(v.patch))
            else '.' !in ToString(v, delim)
  {
    DecimalDigits(v.major);
    DecimalDigits(v.minor);
    DecimalDigits(v.patch);
  }

  lemma HasDot(x: string, y: string)
    ensures '.' in x + "." + y
  {
    assert (x + "." + y)[|x|] == '.';
  }

  lemma NoDot(s: string)
    requires '.' !in s
    ensures forall a, b, c :: !ThreeParts(s, a, b, c)
  {
    forall a, b, c
      ensures !ThreeParts(s, a, b, c)
    {
      HasDot(a + "." + b, c);
    }
  }

  lemma SmallPart(x: nat)
    requires x < PART
    ensures ToUInt16(x) == x
  {
  }

  lemma ParsedNumbers(before: Version, a: string, b: string, c: string, v: Version)
    requires Stoi(a) == Some(v.major) && Stoi(b) == Some(v.minor) && Stoi(c) == Some(v.patch) && Valid(v)
    ensures Parsed(before, a, b, c) == (v, true)
  {
    SmallPart(v.major);
    SmallPart(v.minor);
    SmallPart(v.patch);
  }

  lemma ParsedDecimals(v: Version, before: Version)
    requires Valid(v)
    ensures Parsed(before, Decimal(v.major), Decimal(v.minor), Decimal(v.patch)) == (v, true)
  {
    StoiDecimal(v.major);
    StoiDecimal(v.minor);
    StoiDecimal(v.patch);
    ParsedNumbers(before, Decimal(v.major), Decimal(v.minor), Decimal(v.patch), v);
  }

  lemma StoiDigit(c: char)
    requires '0' <= c <= '9'
    ensures Stoi([c]) == Some(c as int - 48)
  {
    var digits := [c];
    assert digits[..0] == "";
    StoiReads("", "", digits, "");
    assert "" + ("" + (digits + "")) == digits;
    assert Decimals(digits) == 10 * Decimals("") + (c as int - 48);
  }

  /** What was read before the first part that is no number is kept. */
  lemma PartlyRead(before: Version, c: char)
    requires c != '+' && c != '-' && !IsSpace(c) && !('0' <= c <= '9')
    ensures Parsed(before, [c], "8", "9") == (before, false)
    ensures Parsed(before, "7", [c], "9") == (Version(7, before.minor, before.patch), false)
    ensures Parsed(before, "7", "8", [c]) == (Version(7, 8, before.patch), false)
    ensures Parsed(before, "7", "8", "9") == (Version(7, 8, 9), true)
  {
    StoiDigit('7');
    StoiDigit('8');
    StoiDigit('9');
    StoiReads("", "", "", [c]);
    assert "" + ("" + ("" + [c])) == [c];
  }

  /** For instance. */
  lemma PrintedVersion()
    ensures ToString(Version(1, 20, 300), '.') == "1.20.300"
  {
    assert Decimal(2) == "2" && Decimal(3) == "3";
    assert Decimal(20) == "20" && Decimal(30) == "30";
    assert Decimal(300) == "300";
  }

  /** A printed version is read back as it was exactly when it was printed with dots; otherwise nothing is read. */
  method PrintAndRead(v: Version, delim: char, before: Version) returns (ok: bool, w: Version)
    requires Valid(v)
    ensures ok <==> delim == '.'
    ensures if ok then w == v else w == before
  {
    var t := new VersionStruct(before);
    var text := ToString(v, delim);
    ToStringParts(v, delim);
    ParsedDecimals(v, before);
    if delim != '.' {
      NoDot(text);
    }
    ok := t.setFromString(text);
    w := t.Value();
  }
}
