/** Tokens of the SMCL language (Client/include/shell/lang/smcl_token.hpp). The text a punctuation or keyword
    token carries is only used in error messages, so it is not kept. */
module SmclToken {
  datatype Token =
    | Dot
    | Semicolon
    | Equal
    | OpeningBracket
    | ClosingBracket
    | Comma
    | Identifier(name: string)
    | String(text: string)
    | Number(value: int)
    | Section
    | StrBegin
    | Header
    | End
    | Eof
}

/** The SMCL lexer: `SMCLLexer` is the class of the original; `Lex` is the token stream of a text; the layout
    lemmas say exactly which texts have which token stream. */
module SmclLexer {
  import opened Options
  import opened Seqs
  import opened SmclToken
  import opened Strings

  // ---------------------------------------------------------------- characters

  predicate IsDigit(c: char) {
    '0' <= c <= '9'
  }

  predicate IsSimple(c: char) {
    c == '.' || c == ';' || c == '=' || c == '[' || c == ']' || c == ','
  }

  /** The characters that neither end a word nor stand for themselves. */
  predicate IsWordChar(c: char) {
    !IsSpace(c) && !IsSimple(c)
  }

  datatype CharClass = Blank | Digit | Word

  predicate Is(k: CharClass, c: char) {
    match k
    case Blank => IsSpace(c)
    case Digit => IsDigit(c)
    case Word => IsWordChar(c)
  }

  predicate All(k: CharClass, s: string) {
    forall i :: 0 <= i < |s| ==> Is(k, s[i])
  }

  function SimpleToken(c: char): Token
    requires IsSimple(c)
  {
    if c == '.' then Dot
    else if c == ';' then Semicolon
    else if c == '=' then Equal
    else if c == '[' then OpeningBracket
    else if c == ']' then ClosingBracket
    else Comma
  }

  function WordToken(word: string): Token {
    if word == "SECTION" then Section
    else if word == "STRBEGIN" then StrBegin
    else if word == "HEADER" then Header
    else if word == "END" then End
    else Identifier(word)
  }

  /** `getEscapeChar`: the character a backslash followed by `c` stands for. */
  function Unescape(c: char): char {
    if c == 'n' then '\n'
    else if c == 't' then '\t'
    else if c == 'v' then '\U{000B}'
    else if c == 'f' then '\U{000C}'
    else if c == '\\' then '\\'
    else if c == '"' then '"'
    else '?'
  }

  /** The value kept in a 32-bit signed `int`, taking overflow to wrap around. */
  function ToInt32(x: int): int {
    (x + 0x8000_0000) % 0x1_0000_0000 - 0x8000_0000
  }

  function DigitValue(c: char): int {
    c as int - '0' as int
  }

  function NumberValue(digits: string): int {
    if digits == "" then 0
    else ToInt32(NumberValue(digits[..|digits| - 1]) * 10 + DigitValue(digits[|digits| - 1]))
  }

  // ---------------------------------------------------------------- one token

  function SkipSpace(s: string): (r: string)
    ensures |r| <= |s|
    ensures r != "" ==> !IsSpace(r[0])
  {
    if s != "" && IsSpace(s[0]) then SkipSpace(s[1..]) else s
  }

  /** The length of the longest prefix of `s` of class `k`. */
  function Run(k: CharClass, s: string): (n: nat)
    ensures n <= |s| && All(k, s[..n])
    ensures n < |s| ==> !Is(k, s[n])
  {
    if s != "" && Is(k, s[0]) then 1 + Run(k, s[1..]) else 0
  }

  /** What follows an opening quote: the decoded content and the text after the closing quote, or nothing when
      the text ends first. */
  function StringBody(s: string): (r: Option<(string, string)>)
    ensures r.Some? ==> |r.value.1| < |s|
  {
    if s == "" then None
    else if s[0] == '"' then Some(("", s[1..]))
    else if s[0] == '\\' then EscapedBody(s[1..])
    else Prepend(s[0], StringBody(s[1..]))
  }

  /** As `StringBody`, just after a backslash. */
  function EscapedBody(s: string): (r: Option<(string, string)>)
    ensures r.Some? ==> |r.value.1| < |s|
  {
    if s == "" then None else Prepend(Unescape(s[0]), StringBody(s[1..]))
  }

  function Prepend(c: char, r: Option<(string, string)>): Option<(string, string)> {
    if r.None? then None else Some(([c] + r.value.0, r.value.1))
  }

  datatype Scan = Got(token: Token, rest: string) | Unclosed

  /** The token that starts at the first character of `t`. */
  function TokenHere(t: string): (r: Scan)
    requires t != "" && !IsSpace(t[0])
    ensures r.Got? ==> r.token != Eof && |r.rest| < |t|
  {
    if IsSimple(t[0]) then Got(SimpleToken(t[0]), t[1..])
    else if t[0] == '"' then
      var body := StringBody(t[1..]);
      if body.None? then Unclosed else Got(String(body.value.0), body.value.1)
    else if IsDigit(t[0]) then
      var n := Run(Digit, t);
      Got(Number(NumberValue(t[..n])), t[n..])
    else
      var n := Run(Word, t);
      Got(WordToken(t[..n]), t[n..])
  }

  /** One call of the lexer on the text still ahead of it. At the end of the text the cursor does not move. */
  function NextToken(s: string): (r: Scan)
    ensures r.Got? && r.token != Eof ==> |r.rest| < |s|
    ensures r.Got? && r.token == Eof ==> r.rest == s
  {
    var t := SkipSpace(s);
    if t == "" then Got(Eof, s) else TokenHere(t)
  }

  // ---------------------------------------------------------------- the token stream

  /** The tokens before the end of the text (`ok`) or before a string that is never closed (not `ok`). */
  datatype Stream = Stream(tokens: seq<Token>, ok: bool)

  function Lex(s: string): (r: Stream)
    decreases |s|
  {
    match NextToken(s)
    case Unclosed => Stream([], false)
    case Got(t, rest) =>
      if t == Eof then Stream([], true)
      else
        var q := Lex(rest);
        Stream([t] + q.tokens, q.ok)
  }

  // ---------------------------------------------------------------- the class

  class SMCLLexer {
    const data: string
    var curr_pos: nat
    var curr_token: Token
    var is_error: bool

    constructor (data: string)
      ensures this.data == data && Valid() && !is_error && curr_pos == 0
      ensures Remaining() == Lex(data)
    {
      this.data := data;
      curr_pos := 0;
      curr_token := Dot;
      is_error := false;
      new;
      assert data[0..] == data;
    }

    ghost predicate Valid()
      reads this
    {
      curr_pos <= |data|
    }

    /** The tokens still to come; an error is never left again. */
    ghost function Remaining(): (r: Stream)
      requires Valid()
      reads this
    {
      if is_error then Stream([], false) else Lex(data[curr_pos..])
    }

    method nextToken() returns (token: Token)
      requires Valid()
      modifies this
      ensures Valid() && old(curr_pos) <= curr_pos
      ensures old(is_error) ==> is_error
      ensures old(Remaining().tokens) != [] ==>
                && !is_error
                && token == old(Remaining().tokens[0]) && token != Eof
                && Remaining() == Stream(old(Remaining().tokens[1..]), old(Remaining().ok))
                && old(curr_pos) < curr_pos
      ensures old(Remaining().tokens) == [] ==>
                && is_error == !old(Remaining().ok)
                && (old(Remaining().ok) ==> token == Eof && curr_pos == old(curr_pos))
                && Remaining() == old(Remaining())
    {
      ghost var ahead := data[curr_pos..];
      var built := buildToken();
      if !built {
        is_error := true;
      }
      token := curr_token;
      ghost var scan := NextToken(ahead);
      assert built ==> data[curr_pos..] == scan.rest;
    }

    method buildToken() returns (built: bool)
      requires Valid()
      modifies this`curr_pos, this`curr_token
      ensures Valid() && old(curr_pos) <= curr_pos
      ensures built == NextToken(data[old(curr_pos)..]).Got?
      ensures built ==> NextToken(data[old(curr_pos)..]) == Got(curr_token, data[curr_pos..])
      ensures built && curr_token == Eof ==> curr_pos == old(curr_pos)
    {
      var startIdx := getStartIdx();
      if startIdx.None? {
        curr_token := Eof;
        return true;
      }
      curr_pos := startIdx.value;
      built := buildTokenFromIdx();
    }

    method buildTokenFromIdx() returns (built: bool)
      requires curr_pos < |data| && !IsSpace(data[curr_pos])
      modifies this`curr_pos, this`curr_token
      ensures Valid() && old(curr_pos) < curr_pos
      ensures built == TokenHere(data[old(curr_pos)..]).Got?
      ensures built ==> TokenHere(data[old(curr_pos)..]) == Got(curr_token, data[curr_pos..])
    {
      ghost var ahead := data[curr_pos..];
      var ch := data[curr_pos];
      built := buildTokenFromChar(ch);
      if built {
        Ahead(data, old(curr_pos), 1);
        return;
      }
      if ch == '"' {
        Ahead(data, curr_pos, 1);
        built := buildTokenFromString();
      } else if IsDigit(ch) {
        built := true;
        buildTokenFromNumber();
      } else {
        built := true;
        BuildTokenFromWord();
      }
    }

    /** A word, up to the end of its characters. */
    method BuildTokenFromWord()
      requires curr_pos < |data| && IsWordChar(data[curr_pos])
      modifies this`curr_pos, this`curr_token
      ensures Valid() && old(curr_pos) < curr_pos
      ensures var ahead := data[old(curr_pos)..]; var n := Run(Word, ahead);
              curr_token == WordToken(ahead[..n]) && data[curr_pos..] == ahead[n..]
    {
      var endIdx := getEndIdxFromCurrPos();
      Ahead(data, curr_pos, endIdx - curr_pos);
      buildTokenFromIdentifier(data[curr_pos..endIdx]);
    }

    method buildTokenFromChar(ch: char) returns (built: bool)
      requires curr_pos < |data|
      modifies this`curr_pos, this`curr_token
      ensures built == IsSimple(ch)
      ensures built ==> curr_token == SimpleToken(ch) && curr_pos == old(curr_pos) + 1
      ensures !built ==> curr_token == old(curr_token) && curr_pos == old(curr_pos)
    {
      if ch == '.' {
        curr_token := Dot;
      } else if ch == ';' {
        curr_token := Semicolon;
      } else if ch == '=' {
        curr_token := Equal;
      } else if ch == '[' {
        curr_token := OpeningBracket;
      } else if ch == ']' {
        curr_token := ClosingBracket;
      } else if ch == ',' {
        curr_token := Comma;
      } else {
        return false;
      }
      curr_pos := curr_pos + 1;
      built := true;
    }

    method buildTokenFromIdentifier(str: string)
      requires curr_pos + |str| <= |data|
      modifies this`curr_pos, this`curr_token
      ensures curr_token == WordToken(str) && curr_pos == old(curr_pos) + |str|
    {
      if str == "SECTION" {
        curr_token := Section;
      } else if str == "STRBEGIN" {
        curr_token := StrBegin;
      } else if str == "HEADER" {
        curr_token := Header;
      } else if str == "END" {
        curr_token := End;
      } else {
        curr_token := Identifier(str);
      }
      curr_pos := curr_pos + |str|;
    }

    method buildTokenFromString() returns (built: bool)
      requires curr_pos < |data|
      modifies this`curr_pos, this`curr_token
      ensures Valid() && old(curr_pos) < curr_pos
      ensures built == StringBody(data[old(curr_pos) + 1..]).Some?
      ensures built ==> curr_token.String? && StringBody(data[old(curr_pos) + 1..]) == Some((curr_token.text, data[curr_pos..]))
    {
      var finalStr := "";
      var escaped := false;
      curr_pos := curr_pos + 1;
      ghost var whole := StringBody(data[curr_pos..]);
      PrependAllEmpty(whole);
      while curr_pos < |data|
        invariant old(curr_pos) < curr_pos <= |data|
        invariant whole == PrependAll(finalStr, if escaped then EscapedBody(data[curr_pos..]) else StringBody(data[curr_pos..]))
      {
        var ch := data[curr_pos];
        ghost var here := data[curr_pos..];
        assert here[1..] == data[curr_pos + 1..];
        if escaped {
          PrependAllSnoc(finalStr, Unescape(ch), StringBody(here[1..]));
          finalStr := finalStr + [Unescape(ch)];
          escaped := false;
        } else if ch == '\\' {
          escaped := true;
        } else if ch == '"' {
          assert finalStr + "" == finalStr;
          curr_token := String(finalStr);
          curr_pos := curr_pos + 1;
          return true;
        } else {
          PrependAllSnoc(finalStr, ch, StringBody(here[1..]));
          finalStr := finalStr + [ch];
        }
        curr_pos := curr_pos + 1;
      }
      built := false;
    }

    method buildTokenFromNumber()
      requires curr_pos < |data| && IsDigit(data[curr_pos])
      modifies this`curr_pos, this`curr_token
      ensures Valid() && old(curr_pos) < curr_pos
      ensures var ahead := data[old(curr_pos)..]; var n := Run(Digit, ahead);
              curr_token == Number(NumberValue(ahead[..n])) && data[curr_pos..] == ahead[n..]
    {
      var finalNum := 0;
      ghost var start := curr_pos;
      ghost var ahead := data[start..];
      while curr_pos < |data|
        invariant start <= curr_pos <= |data|
        invariant All(Digit, ahead[..curr_pos - start])
        invariant finalNum == NumberValue(ahead[..curr_pos - start])
      {
        var ch := data[curr_pos];
        if !IsDigit(ch) {
          break;
        }
        var chInt := DigitValue(ch);
        assert ahead[..curr_pos + 1 - start][..curr_pos - start] == ahead[..curr_pos - start];
        finalNum := ToInt32(finalNum * 10 + chInt);
        curr_pos := curr_pos + 1;
      }
      RunUnique(Digit, ahead, curr_pos - start);
      assert data[curr_pos..] == ahead[curr_pos - start..];
      curr_token := Number(finalNum);
    }

    method getStartIdx() returns (idx: Option<nat>)
      requires Valid()
      ensures idx.None? ==> SkipSpace(data[curr_pos..]) == ""
      ensures idx.Some? ==> curr_pos <= idx.value < |data| && SkipSpace(data[curr_pos..]) == data[idx.value..]
    {
      var i := curr_pos;
      while i < |data|
        invariant curr_pos <= i <= |data|
        invariant SkipSpace(data[curr_pos..]) == SkipSpace(data[i..])
      {
        if !IsSpace(data[i]) {
          return Some(i);
        }
        assert data[i..][1..] == data[i + 1..];
        i := i + 1;
      }
      idx := None;
    }

    method getEndIdxFromCurrPos() returns (i: nat)
      requires Valid()
      ensures curr_pos <= i <= |data| && i - curr_pos == Run(Word, data[curr_pos..])
    {
      i := curr_pos;
      ghost var ahead := data[curr_pos..];
      while i < |data|
        invariant curr_pos <= i <= |data|
        invariant All(Word, ahead[..i - curr_pos])
      {
        if IsSpace(data[i]) || IsSimple(data[i]) {
          RunUnique(Word, ahead, i - curr_pos);
          return;
        }
        i := i + 1;
      }
      RunUnique(Word, ahead, i - curr_pos);
    }
  }

  function PrependAll(p: string, r: Option<(string, string)>): Option<(string, string)> {
    if r.None? then None else Some((p + r.value.0, r.value.1))
  }

  lemma PrependAllEmpty(r: Option<(string, string)>)
    ensures PrependAll("", r) == r
  {
    if r.Some? {
      assert "" + r.value.0 == r.value.0;
    }
  }

  lemma PrependAllSnoc(p: string, c: char, r: Option<(string, string)>)
    ensures PrependAll(p + [c], r) == PrependAll(p, Prepend(c, r))
  {
    if r.Some? {
      assert p + [c] + r.value.0 == p + ([c] + r.value.0);
    }
  }

  /** A run that stops where it must is the run. */
  lemma {:induction false} RunUnique(k: CharClass, s: string, n: nat)
    requires n <= |s| && All(k, s[..n])
    requires n < |s| ==> !Is(k, s[n])
    ensures Run(k, s) == n
  {
    if n > 0 {
      assert s[..n][0] == s[0];
      assert s[1..][..n - 1] == s[..n][1..];
      RunUnique(k, s[1..], n - 1);
    }
  }

  // ---------------------------------------------------------------- layouts

  /** A token in a text: the blanks before it and the characters that spell it. */
  datatype Piece = Piece(gap: string, token: Token, lexeme: string)

  /** The spellings of a token. */
  predicate IsLexeme(t: Token, lexeme: string) {
    match t
    case Identifier(name) => lexeme == name && IsIdentifier(name)
    case String(text) => lexeme != "" && lexeme[0] == '"' && StringBody(lexeme[1..]) == Some((text, ""))
    case Number(value) => lexeme != "" && All(Digit, lexeme) && value == NumberValue(lexeme)
    case Section => lexeme == "SECTION"
    case StrBegin => lexeme == "STRBEGIN"
    case Header => lexeme == "HEADER"
    case End => lexeme == "END"
    case Eof => false
    case _ => |lexeme| == 1 && IsSimple(lexeme[0]) && SimpleToken(lexeme[0]) == t
  }

  predicate IsIdentifier(name: string) {
    && name != ""
    && All(Word, name)
    && name[0] != '"' && !IsDigit(name[0])
    && name !in ["SECTION", "STRBEGIN", "HEADER", "END"]
  }

  predicate IsWordToken(t: Token) {
    t.Identifier? || t.Section? || t.StrBegin? || t.Header? || t.End?
  }

  /** What may follow a token so that its spelling is not read further: words and numbers need a separator. */
  predicate Boundary(t: Token, rest: string) {
    rest != "" ==>
      && (IsWordToken(t) ==> !IsWordChar(rest[0]))
      && (t.Number? ==> !IsDigit(rest[0]))
  }

  function Layout(pieces: seq<Piece>, trail: string): string {
    if pieces == [] then trail
    else pieces[0].gap + (pieces[0].lexeme + Layout(pieces[1..], trail))
  }

  function TokensOf(pieces: seq<Piece>): seq<Token> {
    if pieces == [] then [] else [pieces[0].token] + TokensOf(pieces[1..])
  }

  /** What may follow the last token: blanks only, or blanks and a string that is never closed. */
  ghost predicate IsTrail(trail: string, ok: bool) {
    if ok then All(Blank, trail)
    else exists gap, body :: All(Blank, gap) && trail == gap + (['"'] + body) && StringBody(body).None?
  }

  ghost predicate WellLaid(pieces: seq<Piece>, trail: string, ok: bool) {
    if pieces == [] then IsTrail(trail, ok)
    else
      && All(Blank, pieces[0].gap)
      && IsLexeme(pieces[0].token, pieces[0].lexeme)
      && Boundary(pieces[0].token, Layout(pieces[1..], trail))
      && WellLaid(pieces[1..], trail, ok)
  }

  ghost predicate Spells(text: string, stream: Stream, pieces: seq<Piece>, trail: string) {
    WellLaid(pieces, trail, stream.ok) && Layout(pieces, trail) == text && TokensOf(pieces) == stream.tokens
  }

  lemma {:induction false} SkipGap(gap: string, s: string)
    requires All(Blank, gap)
    requires s != "" ==> !IsSpace(s[0])
    ensures SkipSpace(gap + s) == s
  {
    if gap == "" {
      assert gap + s == s;
    } else {
      assert (gap + s)[1..] == gap[1..] + s;
      SkipGap(gap[1..], s);
    }
  }

  lemma {:induction false} StringBodyAppend(body: string, rest: string)
    requires StringBody(body).Some?
    ensures StringBody(body + rest) == Some((StringBody(body).value.0, StringBody(body).value.1 + rest))
    decreases |body|
  {
    assert (body + rest)[1..] == body[1..] + rest;
    if body[0] == '"' {
    } else if body[0] == '\\' {
      var after := body[1..];
      assert (after + rest)[1..] == after[1..] + rest;
      StringBodyAppend(after[1..], rest);
    } else {
      StringBodyAppend(body[1..], rest);
    }
  }

  lemma RunAppend(k: CharClass, lexeme: string, rest: string)
    requires All(k, lexeme)
    requires rest != "" ==> !Is(k, rest[0])
    ensures Run(k, lexeme + rest) == |lexeme|
    ensures (lexeme + rest)[..|lexeme|] == lexeme && (lexeme + rest)[|lexeme|..] == rest
  {
    assert (lexeme + rest)[..|lexeme|] == lexeme;
    RunUnique(k, lexeme + rest, |lexeme|);
  }

  lemma WordSpelling(t: Token, lexeme: string)
    requires IsWordToken(t) && IsLexeme(t, lexeme)
    ensures lexeme != "" && All(Word, lexeme) && lexeme[0] != '"' && !IsDigit(lexeme[0])
    ensures WordToken(lexeme) == t
  {
  }

  lemma WordSpelled(word: string)
    requires word != "" && All(Word, word) && word[0] != '"' && !IsDigit(word[0])
    ensures IsWordToken(WordToken(word)) && IsLexeme(WordToken(word), word)
  {
  }

  lemma ScanWord(t: Token, lexeme: string, rest: string)
    requires IsWordToken(t) && IsLexeme(t, lexeme) && Boundary(t, rest)
    ensures NextToken(lexeme + rest) == Got(t, rest)
  {
    WordSpelling(t, lexeme);
    var s := lexeme + rest;
    assert s[0] == lexeme[0];
    assert Is(Word, lexeme[0]);
    RunAppend(Word, lexeme, rest);
    assert SkipSpace(s) == s;
  }

  lemma ScanOther(t: Token, lexeme: string, rest: string)
    requires !IsWordToken(t) && IsLexeme(t, lexeme) && Boundary(t, rest)
    ensures lexeme != "" && !IsSpace(lexeme[0])
    ensures NextToken(lexeme + rest) == Got(t, rest)
  {
    var s := lexeme + rest;
    assert s[0] == lexeme[0];
    assert s[1..] == lexeme[1..] + rest;
    if t.Number? {
      assert Is(Digit, lexeme[0]);
      RunAppend(Digit, lexeme, rest);
    } else if t.String? {
      StringBodyAppend(lexeme[1..], rest);
      assert "" + rest == rest;
    } else {
      assert lexeme[1..] + rest == rest;
    }
  }

  /** Reading one laid-out token. */
  lemma ScanPiece(piece: Piece, rest: string)
    requires All(Blank, piece.gap)
    requires IsLexeme(piece.token, piece.lexeme)
    requires Boundary(piece.token, rest)
    ensures NextToken(piece.gap + (piece.lexeme + rest)) == Got(piece.token, rest)
  {
    var lexeme := piece.lexeme;
    if IsWordToken(piece.token) {
      WordSpelling(piece.token, lexeme);
      assert Is(Word, lexeme[0]);
      ScanWord(piece.token, lexeme, rest);
    } else {
      ScanOther(piece.token, lexeme, rest);
    }
    assert (lexeme + rest)[0] == lexeme[0];
    SkipGap(piece.gap, lexeme + rest);
  }

  lemma ScanTrail(trail: string, ok: bool)
    requires IsTrail(trail, ok)
    ensures NextToken(trail) == if ok then Got(Eof, trail) else Unclosed
  {
    if ok {
      SkipGap(trail, "");
      assert trail + "" == trail;
    } else {
      var gap, body :| All(Blank, gap) && trail == gap + (['"'] + body) && StringBody(body).None?;
      SkipGap(gap, ['"'] + body);
      assert (['"'] + body)[1..] == body;
    }
  }

  /** Every laid-out sequence of tokens is read back as it is. */
  lemma {:induction false} LexLayout(pieces: seq<Piece>, trail: string, ok: bool)
    requires WellLaid(pieces, trail, ok)
    ensures Lex(Layout(pieces, trail)) == Stream(TokensOf(pieces), ok)
    decreases |pieces|
  {
    if pieces == [] {
      ScanTrail(trail, ok);
    } else {
      ScanPiece(pieces[0], Layout(pieces[1..], trail));
      LexLayout(pieces[1..], trail, ok);
    }
  }

  lemma {:induction false} GapOf(s: string) returns (gap: string)
    ensures All(Blank, gap) && s == gap + SkipSpace(s)
  {
    if s != "" && IsSpace(s[0]) {
      var g := GapOf(s[1..]);
      gap := [s[0]] + g;
      assert s == [s[0]] + s[1..];
    } else {
      gap := "";
    }
  }

  /** The characters up to the closing quote decode to the same content on their own. */
  lemma {:induction false} StringBodyLexeme(s: string)
    requires StringBody(s).Some?
    ensures var rest := StringBody(s).value.1; var body := s[..|s| - |rest|];
            s == body + rest && StringBody(body) == Some((StringBody(s).value.0, ""))
    decreases |s|
  {
    var rest := StringBody(s).value.1;
    var body := s[..|s| - |rest|];
    if s[0] == '"' {
      assert body == ['"'];
    } else if s[0] == '\\' {
      var after := s[1..];
      assert after[1..] == s[2..];
      StringBodyLexeme(s[2..]);
      assert body[1..][1..] == s[2..][..|s| - 2 - |rest|];
    } else {
      StringBodyLexeme(s[1..]);
      assert body[1..] == s[1..][..|s| - 1 - |rest|];
    }
  }

  /** `lexeme` is how the first token of `t`, which starts without blanks, is spelled. */
  ghost predicate StartsWith(t: string, lexeme: string) {
    && NextToken(t).Got?
    && t == lexeme + NextToken(t).rest
    && IsLexeme(NextToken(t).token, lexeme)
    && Boundary(NextToken(t).token, NextToken(t).rest)
  }

  lemma WordOf(t: string)
    requires t != "" && IsWordChar(t[0]) && t[0] != '"' && !IsDigit(t[0])
    ensures StartsWith(t, t[..Run(Word, t)])
  {
    var n := Run(Word, t);
    assert Is(Word, t[0]);
    assert SkipSpace(t) == t;
    var word := t[..n];
    assert t == word + t[n..];
    WordSpelled(word);
  }

  lemma NumberOf(t: string)
    requires t != "" && IsDigit(t[0])
    ensures StartsWith(t, t[..Run(Digit, t)])
  {
    var n := Run(Digit, t);
    assert Is(Digit, t[0]);
    assert SkipSpace(t) == t;
    assert t == t[..n] + t[n..];
  }

  lemma StringOf(t: string) returns (lexeme: string)
    requires t != "" && t[0] == '"' && NextToken(t).Got?
    ensures StartsWith(t, lexeme)
  {
    assert SkipSpace(t) == t;
    StringBodyLexeme(t[1..]);
    var rest := NextToken(t).rest;
    var body := t[1..][..|t| - 1 - |rest|];
    lexeme := [t[0]] + body;
    Tail(t[0], body);
    Uncons(t);
    Assoc([t[0]], body, rest);
  }

  lemma LexemeOf(t: string) returns (lexeme: string)
    requires t != "" && !IsSpace(t[0]) && NextToken(t).Got?
    ensures StartsWith(t, lexeme)
  {
    if IsSimple(t[0]) {
      assert SkipSpace(t) == t;
      lexeme := [t[0]];
      assert t == [t[0]] + t[1..];
    } else if t[0] == '"' {
      lexeme := StringOf(t);
    } else if IsDigit(t[0]) {
      NumberOf(t);
      lexeme := t[..Run(Digit, t)];
    } else {
      WordOf(t);
      lexeme := t[..Run(Word, t)];
    }
  }

  /** A token that was read was laid out: blanks, then one of its spellings, then a boundary. */
  lemma PieceOf(s: string) returns (piece: Piece)
    requires NextToken(s).Got? && NextToken(s).token != Eof
    ensures piece.token == NextToken(s).token && All(Blank, piece.gap) && IsLexeme(piece.token, piece.lexeme)
    ensures s == piece.gap + (piece.lexeme + NextToken(s).rest)
    ensures Boundary(piece.token, NextToken(s).rest)
  {
    var t := SkipSpace(s);
    var gap := GapOf(s);
    assert SkipSpace(t) == t;
    var lexeme := LexemeOf(t);
    piece := Piece(gap, NextToken(s).token, lexeme);
  }

  lemma TrailOf(s: string)
    requires var scan := NextToken(s); scan.Unclosed? || scan.token == Eof
    ensures IsTrail(s, NextToken(s).Got?)
  {
    var gap := GapOf(s);
    var t := SkipSpace(s);
    if t == "" {
      assert gap + t == gap;
    } else {
      assert t == ['"'] + t[1..];
      assert s == gap + (['"'] + t[1..]);
    }
  }

  lemma SpellsCons(piece: Piece, rest: string, stream: Stream, pieces: seq<Piece>, trail: string)
    requires All(Blank, piece.gap) && IsLexeme(piece.token, piece.lexeme) && Boundary(piece.token, rest)
    requires Spells(rest, stream, pieces, trail)
    ensures Spells(piece.gap + (piece.lexeme + rest), Stream([piece.token] + stream.tokens, stream.ok), [piece] + pieces, trail)
  {
    assert ([piece] + pieces)[1..] == pieces;
  }

  lemma {:induction false} LexPieces(s: string) returns (pieces: seq<Piece>, trail: string)
    ensures Spells(s, Lex(s), pieces, trail)
    decreases |s|
  {
    var scan := NextToken(s);
    if scan.Unclosed? || scan.token == Eof {
      TrailOf(s);
      pieces, trail := [], s;
    } else {
      var piece := PieceOf(s);
      var more;
      more, trail := LexPieces(scan.rest);
      SpellsCons(piece, scan.rest, Lex(scan.rest), more, trail);
      pieces := [piece] + more;
    }
  }

  /** The token stream of a text, characterised without the lexer: it is `stream` if and only if the text consists
      of spellings of those tokens, in order, separated only by blanks, and then of blanks (`stream.ok`) or of
      blanks and a string that is never closed (not `stream.ok`). */
  lemma LexExactly(text: string, stream: Stream)
    ensures Lex(text) == stream <==> exists pieces, trail :: Spells(text, stream, pieces, trail)
  {
    if Lex(text) == stream {
      var pieces, trail := LexPieces(text);
    }
    if pieces, trail :| Spells(text, stream, pieces, trail) {
      LexLayout(pieces, trail, stream.ok);
    }
  }

  // ---------------------------------------------------------------- printing

  /** Quotes, backslashes, line feeds, tabs, vertical tabs and form feeds are escaped. */
  function EscapeChar(c: char): (s: string)
    ensures |s| == 1 || |s| == 2
  {
    if c == '"' || c == '\\' then ['\\', c]
    else if c == '\n' then "\\n"
    else if c == '\t' then "\\t"
    else if c == '\U{000B}' then "\\v"
    else if c == '\U{000C}' then "\\f"
    else [c]
  }

  function Escape(text: string): string {
    if text == "" then "" else EscapeChar(text[0]) + Escape(text[1..])
  }

  function Decimal(n: nat): (s: string)
    ensures s != "" && All(Digit, s)
  {
    if n < 10 then [n as char + '0'] else Decimal(n / 10) + [(n % 10) as char + '0']
  }

  predicate Printable(t: Token) {
    match t
    case Identifier(name) => IsIdentifier(name)
    case Number(value) => 0 <= value < 0x8000_0000
    case Eof => false
    case _ => true
  }

  /** The canonical spelling of a token. */
  function Lexeme(t: Token): string
    requires Printable(t)
  {
    match t
    case Dot => "."
    case Semicolon => ";"
    case Equal => "="
    case OpeningBracket => "["
    case ClosingBracket => "]"
    case Comma => ","
    case Identifier(name) => name
    case String(text) => ['"'] + (Escape(text) + ['"'])
    case Number(value) => Decimal(value)
    case Section => "SECTION"
    case StrBegin => "STRBEGIN"
    case Header => "HEADER"
    case End => "END"
  }

  lemma {:induction false} EscapeDecodes(text: string)
    ensures StringBody(Escape(text) + ['"']) == Some((text, ""))
  {
    if text != "" {
      var head := EscapeChar(text[0]);
      var tail := Escape(text[1..]) + ['"'];
      assert Escape(text) + ['"'] == head + tail;
      EscapeDecodes(text[1..]);
      assert (head + tail)[|head|..] == tail;
      if |head| == 2 {
        assert (head + tail)[1..][1..] == tail;
      }
      assert text == [text[0]] + text[1..];
    }
  }

  lemma {:induction false} DecimalValue(n: nat)
    requires n < 0x8000_0000
    ensures NumberValue(Decimal(n)) == n
  {
    var s := Decimal(n);
    assert s[..|s| - 1] == if n < 10 then "" else Decimal(n / 10);
    if n >= 10 {
      DecimalValue(n / 10);
    }
  }

  lemma LexemeSpells(t: Token)
    requires Printable(t)
    ensures IsLexeme(t, Lexeme(t))
  {
    match t
    case String(text) =>
      EscapeDecodes(text);
      assert Lexeme(t)[1..] == Escape(text) + ['"'];
    case Number(value) => DecimalValue(value);
    case _ =>
  }

  /** The canonical layout: every token followed by one blank. */
  function Print(tokens: seq<Token>): string
    requires forall t :: t in tokens ==> Printable(t)
  {
    if tokens == [] then "" else Lexeme(tokens[0]) + ([' '] + Print(tokens[1..]))
  }

  /** Any sequence of printable tokens, printed with separating blanks, is read back as that sequence. */
  lemma {:induction false} LexPrint(tokens: seq<Token>)
    requires forall t :: t in tokens ==> Printable(t)
    ensures Lex(Print(tokens)) == Stream(tokens, true)
    decreases |tokens|
  {
    if tokens != [] {
      var t, rest := tokens[0], Print(tokens[1..]);
      assert forall u :: u in tokens[1..] ==> u in tokens;
      LexPrint(tokens[1..]);
      LexBlank(rest);
      LexOne(t, [' '] + rest);
    }
  }

  lemma LexOne(t: Token, rest: string)
    requires Printable(t) && Boundary(t, rest)
    ensures Lex(Lexeme(t) + rest) == Stream([t] + Lex(rest).tokens, Lex(rest).ok)
  {
    LexemeSpells(t);
    ScanPiece(Piece("", t, Lexeme(t)), rest);
    assert "" + (Lexeme(t) + rest) == Lexeme(t) + rest;
  }

  lemma LexBlank(s: string)
    ensures Lex([' '] + s).tokens == Lex(s).tokens && Lex([' '] + s).ok == Lex(s).ok
  {
    assert ([' '] + s)[1..] == s;
    assert SkipSpace([' '] + s) == SkipSpace(s);
  }
}
