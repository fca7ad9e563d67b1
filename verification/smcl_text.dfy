/** What the lexer reads, character by character: every text is blanks, marks, strings, numbers and words, and here is
    what each of them is read as. The characters are written out; nothing here refers to the lexer's own classes of
    characters or to its table of escapes. */
module SmclText {
  import opened Options
  import opened Seqs
  import opened SmclLexer
  import opened SmclToken

  // ---------------------------------------------------------------- strings

  /** A character between the quotes of a string: one that stands for itself, or one behind a backslash. */
  datatype Letter = Plain(c: char) | Escaped(c: char)

  predicate WellSpelled(letters: seq<Letter>) {
    letters != [] ==> (letters[0].Plain? ==> letters[0].c != '"' && letters[0].c != '\\') && WellSpelled(letters[1..])
  }

  function SpellLetter(letter: Letter): string {
    if letter.Plain? then [letter.c] else ['\\', letter.c]
  }

  function Spell(letters: seq<Letter>): string {
    if letters == [] then "" else SpellLetter(letters[0]) + Spell(letters[1..])
  }

  /** What a letter stands for. */
  function Meant(letter: Letter): char {
    match letter
    case Plain(c) => c
    case Escaped('n') => '\n'
    case Escaped('t') => '\t'
    case Escaped('v') => '\U{000B}'
    case Escaped('f') => '\U{000C}'
    case Escaped('\\') => '\\'
    case Escaped('"') => '"'
    case Escaped(_) => '?'
  }

  function Decode(letters: seq<Letter>): string {
    if letters == [] then "" else [Meant(letters[0])] + Decode(letters[1..])
  }

  lemma BodyOfLetter(letter: Letter, more: string)
    requires WellSpelled([letter])
    ensures StringBody(SpellLetter(letter) + more) == Prepend(Meant(letter), StringBody(more))
  {
    var s := SpellLetter(letter) + more;
    if letter.Plain? {
      Tail(letter.c, more);
    } else {
      assert s[1..] == [letter.c] + more;
      Tail(letter.c, more);
    }
  }

  /** A string is decoded letter by letter up to the first quote that is not escaped, whatever follows. */
  lemma {:induction false} StringDecodes(letters: seq<Letter>, rest: string)
    requires WellSpelled(letters)
    ensures StringBody(Spell(letters) + (['"'] + rest)) == Some((Decode(letters), rest))
    decreases |letters|
  {
    if letters == [] {
      Unit(['"'] + rest);
      Tail('"', rest);
    } else {
      Assoc(SpellLetter(letters[0]), Spell(letters[1..]), ['"'] + rest);
      BodyOfLetter(letters[0], Spell(letters[1..]) + (['"'] + rest));
      StringDecodes(letters[1..], rest);
    }
  }

  /** Letters that no quote follows are never closed, nor is a single backslash behind them. */
  lemma {:induction false} NeverClosed(letters: seq<Letter>, end: string)
    requires WellSpelled(letters) && (end == "" || end == "\\")
    ensures StringBody(Spell(letters) + end).None?
    decreases |letters|
  {
    if letters == [] {
      Unit(end);
    } else {
      Assoc(SpellLetter(letters[0]), Spell(letters[1..]), end);
      BodyOfLetter(letters[0], Spell(letters[1..]) + end);
      NeverClosed(letters[1..], end);
    }
  }

  /** Every text is letters, and then a quote and anything, or the end, or a single backslash and the end. */
  lemma {:induction false} LettersOf(s: string) returns (letters: seq<Letter>, end: string)
    ensures WellSpelled(letters) && s == Spell(letters) + end && (end == "" || end == "\\" || end[0] == '"')
    decreases |s|
  {
    if s == "" || s[0] == '"' || s == "\\" {
      letters, end := [], s;
      Unit(s);
    } else {
      var letter := if s[0] == '\\' then Escaped(s[1]) else Plain(s[0]);
      var n := |SpellLetter(letter)|;
      assert s[..n] == SpellLetter(letter);
      Halves(s, n);
      var more;
      more, end := LettersOf(s[n..]);
      letters := [letter] + more;
      Tail(letter, more);
      Assoc(SpellLetter(letter), Spell(more), end);
    }
  }

  // ---------------------------------------------------------------- the stream

  function Before(t: Token, stream: Stream): Stream {
    Stream([t] + stream.tokens, stream.ok)
  }

  lemma LexGot(s: string, t: Token, rest: string)
    requires NextToken(s) == Got(t, rest) && t != Eof
    ensures Lex(s) == Before(t, Lex(rest))
  {
  }

  /** The six blank characters are skipped. */
  lemma LexSkips(c: char, s: string)
    requires c == ' ' || c == '\t' || c == '\n' || c == '\U{000B}' || c == '\U{000C}' || c == '\r'
    ensures Lex([c] + s) == Lex(s)
  {
    Tail(c, s);
    assert SkipSpace([c] + s) == SkipSpace(s);
  }

  /** The six marks are tokens of their own, wherever they stand. */
  lemma LexMark(s: string)
    ensures Lex(['.'] + s) == Before(Dot, Lex(s)) && Lex([';'] + s) == Before(Semicolon, Lex(s))
    ensures Lex(['='] + s) == Before(Equal, Lex(s)) && Lex([','] + s) == Before(Comma, Lex(s))
    ensures Lex(['['] + s) == Before(OpeningBracket, Lex(s)) && Lex([']'] + s) == Before(ClosingBracket, Lex(s))
  {
    LexSimple('.', s);
    LexSimple(';', s);
    LexSimple('=', s);
    LexSimple(',', s);
    LexSimple('[', s);
    LexSimple(']', s);
  }

  lemma LexSimple(c: char, s: string)
    requires IsSimple(c)
    ensures Lex([c] + s) == Before(SimpleToken(c), Lex(s))
  {
    Tail(c, s);
    assert SkipSpace([c] + s) == [c] + s;
    LexGot([c] + s, SimpleToken(c), s);
  }

  /** A string, and one that is not closed. */
  lemma LexString(letters: seq<Letter>, rest: string)
    requires WellSpelled(letters)
    ensures Lex(['"'] + (Spell(letters) + (['"'] + rest))) == Before(String(Decode(letters)), Lex(rest))
    ensures Lex(['"'] + Spell(letters)) == Stream([], false)
    ensures Lex(['"'] + (Spell(letters) + ['\\'])) == Stream([], false)
  {
    var s := Spell(letters) + (['"'] + rest);
    StringDecodes(letters, rest);
    Quoted(s);
    LexGot(['"'] + s, String(Decode(letters)), rest);
    NeverClosed(letters, "");
    Unit(Spell(letters));
    Quoted(Spell(letters));
    NeverClosed(letters, "\\");
    Quoted(Spell(letters) + ['\\']);
  }

  lemma Quoted(s: string)
    ensures NextToken(['"'] + s) == if StringBody(s).None? then Unclosed else Got(String(StringBody(s).value.0), StringBody(s).value.1)
  {
    Tail('"', s);
    assert SkipSpace(['"'] + s) == ['"'] + s;
  }

  /** The characters that end a word. */
  predicate EndsWord(c: char) {
    || c == ' ' || c == '\t' || c == '\n' || c == '\U{000B}' || c == '\U{000C}' || c == '\r'
    || c == '.' || c == ';' || c == '=' || c == '[' || c == ']' || c == ','
  }

  lemma WordCharacters(c: char)
    ensures Is(Word, c) <==> !EndsWord(c)
  {
  }

  /** A word is all the characters up to one of these twelve; it may contain digits and quotes, but not start with
      them. Four words are keywords. */
  lemma LexWord(word: string, rest: string)
    requires word != "" && (forall i :: 0 <= i < |word| ==> !EndsWord(word[i])) && (rest == "" || EndsWord(rest[0]))
    requires word[0] != '"' && !('0' <= word[0] <= '9')
    ensures Lex(word + rest) == Before(if word == "SECTION" then Section else if word == "STRBEGIN" then StrBegin
                                       else if word == "HEADER" then Header else if word == "END" then End
                                       else Identifier(word), Lex(rest))
  {
    forall i | 0 <= i < |word|
      ensures Is(Word, word[i])
    {
      WordCharacters(word[i]);
    }
    if rest != "" {
      WordCharacters(rest[0]);
    }
    WordSpelled(word);
    ScanWord(WordToken(word), word, rest);
    LexGot(word + rest, WordToken(word), rest);
  }

  /** The number that digits write. */
  function Decimals(digits: string): int {
    if digits == "" then 0 else 10 * Decimals(digits[..|digits| - 1]) + (digits[|digits| - 1] as int - 48)
  }

  lemma {:induction false} NumberMeans(digits: string)
    ensures -0x8000_0000 <= NumberValue(digits) < 0x8000_0000
    ensures (NumberValue(digits) - Decimals(digits)) % 0x1_0000_0000 == 0
    decreases |digits|
  {
    if digits != "" {
      var init, last := digits[..|digits| - 1], digits[|digits| - 1];
      NumberMeans(init);
      Wraps(NumberValue(init) * 10 + DigitValue(last));
      TenTimes(NumberValue(init), Decimals(init), DigitValue(last), NumberValue(digits));
    }
  }

  lemma Wraps(x: int)
    ensures -0x8000_0000 <= ToInt32(x) < 0x8000_0000 && (ToInt32(x) - x) % 0x1_0000_0000 == 0
  {
  }

  lemma TenTimes(a: int, b: int, d: int, r: int)
    requires (a - b) % 0x1_0000_0000 == 0 && (r - (a * 10 + d)) % 0x1_0000_0000 == 0
    ensures (r - (10 * b + d)) % 0x1_0000_0000 == 0
  {
  }

  /** A number is all the digits there are; its value is that of an `int` of 32 bits. */
  lemma LexNumber(digits: string, rest: string) returns (value: int)
    requires digits != "" && (forall i :: 0 <= i < |digits| ==> '0' <= digits[i] <= '9')
    requires rest == "" || !('0' <= rest[0] <= '9')
    ensures Lex(digits + rest) == Before(Number(value), Lex(rest))
    ensures -0x8000_0000 <= value < 0x8000_0000 && (value - Decimals(digits)) % 0x1_0000_0000 == 0
    ensures 0 <= Decimals(digits) < 0x8000_0000 ==> value == Decimals(digits)
  {
    value := NumberValue(digits);
    NumberMeans(digits);
    assert IsLexeme(Number(value), digits);
    ScanOther(Number(value), digits, rest);
    LexGot(digits + rest, Number(value), rest);
  }

  /** Nothing but blanks is the end. */
  lemma LexEnd()
    ensures Lex("") == Stream([], true)
  {
  }
}
