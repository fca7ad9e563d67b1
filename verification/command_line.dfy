/** The command-line tokenizer: words, and texts between simple or double quotes. */
module CommandLines {
  import opened Seqs
  import opened Strings

  /** The fields of the tokenizer. */
  datatype Scan = Scan(tokens: seq<string>, item: string, simple: bool, double: bool, last: char)

  function Flush(tokens: seq<string>, item: string): seq<string> {
    if item == "" then tokens else tokens + [item]
  }

  function Next(s: Scan, c: char): Scan {
    var quote := (c == '\'' && !s.double) || (c == '"' && !s.simple);
    if quote then
      var open := Scan(if s.last == c then s.tokens + [""] else Flush(s.tokens, s.item), if s.last == c then s.item else "",
                       if c == '\'' then !s.simple else s.simple, if c == '"' then !s.double else s.double, c);
      open
    else if s.simple || s.double || !IsSpace(c) then s.(item := s.item + [c], last := c)
    else s.(tokens := Flush(s.tokens, s.item), item := "", last := c)
  }

  function ScanAll(s: Scan, line: string): Scan
    decreases |line|
  {
    if line == "" then s else ScanAll(Next(s, line[0]), line[1..])
  }

  const START := Scan([], "", false, false, '\0')

  /** The tokens of a line: those flushed on the way and the last item. */
  function Tokens(line: string): seq<string> {
    var s := ScanAll(START, line);
    Flush(s.tokens, s.item)
  }

  class CommandLine {
    const raw_line: string
    var tokenized_line: seq<string>
    var current_item: string
    var is_in_simple_quotes: bool
    var is_in_double_quotes: bool
    var last: char

    constructor (line: string)
      ensures raw_line == line && Now() == START
    {
      raw_line := line;
      tokenized_line := [];
      current_item := "";
      is_in_simple_quotes := false;
      is_in_double_quotes := false;
      last := '\0';
    }

    ghost function Now(): Scan
      reads this
    {
      Scan(tokenized_line, current_item, is_in_simple_quotes, is_in_double_quotes, last)
    }

    /** On a line that was tokenized before, the tokens are added to those there are. */
    method tokenize()
      modifies this
      ensures var s := ScanAll(old(Now()), raw_line);
              Now() == s.(tokens := Flush(s.tokens, s.item), item := "")
      ensures old(Now()) == START ==> tokenized_line == Tokens(raw_line)
    {
      assert raw_line[0..] == raw_line;
      for i := 0 to |raw_line|
        invariant ScanAll(old(Now()), raw_line) == ScanAll(Now(), raw_line[i..])
      {
        var c := raw_line[i];
        assert raw_line[i..][1..] == raw_line[i + 1..];
        var quote := processSimpleQuotes(c);
        if !quote {
          quote := processDoubleQuotes(c);
        }
        if quote {
          last := c;
          continue;
        }
        if is_in_simple_quotes || is_in_double_quotes || !IsSpace(c) {
          current_item := current_item + [c];
        } else {
          flushToken();
        }
        last := c;
      }
      flushToken();
    }

    method processSimpleQuotes(c: char) returns (quote: bool)
      modifies this
      ensures quote == (c == '\'' && !is_in_double_quotes) && is_in_double_quotes == old(is_in_double_quotes)
      ensures quote ==> Now().(last := c) == Next(old(Now()), c)
      ensures !quote ==> Now() == old(Now())
    {
      if c != '\'' || is_in_double_quotes {
        return false;
      }
      is_in_simple_quotes := !is_in_simple_quotes;
      if last == '\'' {
        tokenized_line := tokenized_line + [""];
      } else {
        flushToken();
      }
      quote := true;
    }

    method processDoubleQuotes(c: char) returns (quote: bool)
      modifies this
      ensures quote == (c == '"' && !is_in_simple_quotes) && is_in_simple_quotes == old(is_in_simple_quotes)
      ensures quote ==> Now().(last := c) == Next(old(Now()), c)
      ensures !quote ==> Now() == old(Now())
    {
      if c != '"' || is_in_simple_quotes {
        return false;
      }
      is_in_double_quotes := !is_in_double_quotes;
      if last == '"' {
        tokenized_line := tokenized_line + [""];
      } else {
        flushToken();
      }
      quote := true;
    }

    method flushToken()
      modifies this`tokenized_line, this`current_item
      ensures Now() == old(Now()).(tokens := tokenized_line, item := "")
      ensures tokenized_line == Flush(old(tokenized_line), old(current_item)) && current_item == ""
    {
      if current_item != "" {
        tokenized_line := tokenized_line + [current_item];
        current_item := "";
      }
    }
  }

  // ---------------------------------------------------------------- lines as segments

  /** A maximal word, a blank, or a text between two quotes of the same kind. */
  datatype Segment = Word(text: string) | Gap(c: char) | Quoted(q: char, text: string)

  predicate IsQuote(c: char) {
    c == '\'' || c == '"'
  }

  predicate WellFormed(segment: Segment) {
    match segment
    case Word(text) => text != "" && forall i :: 0 <= i < |text| ==> !IsSpace(text[i]) && !IsQuote(text[i])
    case Gap(c) => IsSpace(c)
    case Quoted(q, text) => IsQuote(q) && q !in text
  }

  /** Well-formed segments, no word directly after a word. */
  predicate WellSegmented(segments: seq<Segment>) {
    segments != [] ==>
      && WellFormed(segments[0])
      && (|segments| > 1 ==> !(segments[0].Word? && segments[1].Word?))
      && WellSegmented(segments[1..])
  }

  function SegmentText(segment: Segment): string {
    match segment
    case Word(text) => text
    case Gap(c) => [c]
    case Quoted(q, text) => [q] + (text + [q])
  }

  function Line(segments: seq<Segment>): string {
    if segments == [] then "" else SegmentText(segments[0]) + Line(segments[1..])
  }

  /** The tokens a user means: one for each word and one for each quoted text. */
  function Meant(segments: seq<Segment>): seq<string> {
    if segments == [] then []
    else (if segments[0].Gap? then [] else [segments[0].text]) + Meant(segments[1..])
  }

  /** The quote a segment ends with, or a blank. */
  function QuoteAfter(segment: Segment): char {
    if segment.Quoted? then segment.q else ' '
  }

  function ProducedBy(segment: Segment, before: char): seq<string> {
    match segment
    case Word(text) => [text]
    case Gap(_) => []
    case Quoted(q, text) => if before == q then ["", text] else [text]
  }

  /** The tokens there are: an empty one is added where a quoted text directly follows one with the same quotes.
      `before` is the quote that ends just before the segments, or a blank. */
  function Produced(segments: seq<Segment>, before: char): seq<string> {
    if segments == [] then []
    else ProducedBy(segments[0], before) + Produced(segments[1..], QuoteAfter(segments[0]))
  }

  /** A quote that is never closed, at the end of the line. */
  datatype Ending = Closed | Unclosed(q: char, text: string)

  function TailText(tail: Ending): string {
    if tail.Closed? then "" else [tail.q] + tail.text
  }

  /** What an unclosed quote adds: its text, unless it is empty, after the same kind of extra token. */
  function ProducedByTail(tail: Ending, before: char): seq<string> {
    if tail.Closed? then []
    else (if before == tail.q then [""] else []) + (if tail.text == "" then [] else [tail.text])
  }

  function LastQuote(segments: seq<Segment>): char {
    if segments == [] then ' ' else QuoteAfter(segments[|segments| - 1])
  }

  predicate WellFormedTail(tail: Ending) {
    tail.Unclosed? ==> IsQuote(tail.q) && tail.q !in tail.text
  }

  // ---------------------------------------------------------------- scanning segments

  lemma {:induction false} ScanAppend(s: Scan, a: string, b: string)
    ensures ScanAll(s, a + b) == ScanAll(ScanAll(s, a), b)
    decreases |a|
  {
    if a == "" {
      assert a + b == b;
    } else {
      assert (a + b)[1..] == a[1..] + b;
      ScanAppend(Next(s, a[0]), a[1..], b);
    }
  }

  /** Characters that are kept as they are, one after the other. */
  lemma {:induction false} ScanKept(s: Scan, text: string)
    requires forall i :: 0 <= i < |text| ==>
               !(IsSpace(text[i]) && !s.simple && !s.double)
               && !(text[i] == '\'' && !s.double) && !(text[i] == '"' && !s.simple)
    ensures ScanAll(s, text) == if text == "" then s else s.(item := s.item + text, last := text[|text| - 1])
    decreases |text|
  {
    if text != "" {
      var next := Next(s, text[0]);
      assert next == s.(item := s.item + [text[0]], last := text[0]);
      assert forall i :: 0 <= i < |text[1..]| ==> text[1..][i] == text[i + 1];
      ScanKept(next, text[1..]);
      Uncons(text);
      Assoc(s.item, [text[0]], text[1..]);
    }
  }

  /** Outside quotes; an item is pending only after a word. */
  ghost predicate Outside(s: Scan) {
    !s.simple && !s.double && (s.item != "" ==> !IsQuote(s.last))
  }

  function Before(s: Scan): char {
    if IsQuote(s.last) then s.last else ' '
  }

  function Inside(s: Scan, q: char): Scan {
    Scan(if s.last == q then s.tokens + [""] else Flush(s.tokens, s.item), "", q == '\'', q == '"', q)
  }

  lemma ScanOpen(s: Scan, q: char, text: string)
    requires Outside(s) && IsQuote(q) && q !in text
    ensures Next(s, q) == Inside(s, q)
    ensures ScanAll(s, [q] + text) == Inside(s, q).(item := text, last := if text == "" then q else text[|text| - 1])
  {
    ScanAppend(s, [q], text);
    assert [q][1..] == "";
    assert forall i :: 0 <= i < |text| ==> text[i] in text;
    ScanKept(Inside(s, q), text);
    assert "" + text == text;
  }

  lemma ScanQuoted(s: Scan, q: char, text: string)
    requires Outside(s) && WellFormed(Quoted(q, text))
    ensures ScanAll(s, SegmentText(Quoted(q, text))) == Scan(Inside(s, q).tokens + [text], "", false, false, q)
  {
    ScanOpen(s, q, text);
    Assoc([q], text, [q]);
    ScanAppend(s, [q] + text, [q]);
    assert [q][1..] == "";
    assert text != "" ==> text[|text| - 1] in text;
  }

  /** Scanning went from `s` to `e`, gave `tokens` (the pending item counted) and ended after `last`. */
  ghost predicate Scanned(s: Scan, e: Scan, tokens: seq<string>, last: char) {
    Outside(e) && Flush(e.tokens, e.item) == Flush(s.tokens, s.item) + tokens && Before(e) == last
  }

  lemma ScanSegment(s: Scan, segment: Segment)
    requires Outside(s) && WellFormed(segment) && (s.item != "" ==> !segment.Word?)
    ensures var e := ScanAll(s, SegmentText(segment));
            Scanned(s, e, ProducedBy(segment, Before(s)), QuoteAfter(segment)) && (e.item != "" ==> segment.Word?)
  {
    match segment
    case Word(text) =>
      assert "" + text == text;
      ScanKept(s, text);
    case Gap(c) =>
      assert [c][1..] == "";
    case Quoted(q, text) =>
      ScanQuoted(s, q, text);
      Assoc(s.tokens, [""], [text]);
  }

  lemma {:induction false} ScanLine(s: Scan, segments: seq<Segment>)
    requires Outside(s) && WellSegmented(segments)
    requires s.item != "" && segments != [] ==> !segments[0].Word?
    ensures Scanned(s, ScanAll(s, Line(segments)), Produced(segments, Before(s)),
                    if segments == [] then Before(s) else LastQuote(segments))
    decreases |segments|
  {
    if segments != [] {
      var more := segments[1..];
      ScanSegment(s, segments[0]);
      ScanAppend(s, SegmentText(segments[0]), Line(more));
      ScanLine(ScanAll(s, SegmentText(segments[0])), more);
      Assoc(Flush(s.tokens, s.item), ProducedBy(segments[0], Before(s)), Produced(more, QuoteAfter(segments[0])));
    }
  }

  lemma ScanUnclosed(s: Scan, q: char, text: string)
    requires Outside(s) && IsQuote(q) && q !in text
    ensures var e := ScanAll(s, [q] + text);
            Flush(e.tokens, e.item) == Flush(s.tokens, s.item) + ProducedByTail(Unclosed(q, text), Before(s))
  {
    ScanOpen(s, q, text);
    var extra: seq<string> := if Before(s) == q then [""] else [];
    Unit(s.tokens);
    Unit(Flush(s.tokens, s.item));
    assert Inside(s, q).tokens == Flush(s.tokens, s.item) + extra;
    Assoc(Flush(s.tokens, s.item), extra, if text == "" then [] else [text]);
  }

  /** The tokens of any line, from its segments. */
  lemma LineTokens(segments: seq<Segment>, tail: Ending)
    requires WellSegmented(segments) && WellFormedTail(tail)
    ensures Tokens(Line(segments) + TailText(tail)) == Produced(segments, ' ') + ProducedByTail(tail, LastQuote(segments))
  {
    ScanLine(START, segments);
    ScanAppend(START, Line(segments), TailText(tail));
    var e := ScanAll(START, Line(segments));
    assert [] + Produced(segments, ' ') == Produced(segments, ' ');
    if tail.Closed? {
      Unit(e.tokens);
      Unit(Produced(segments, ' '));
    } else {
      ScanUnclosed(e, tail.q, tail.text);
    }
  }

  lemma {:induction false} SplitAt(line: string, q: char) returns (text: string, rest: string, found: bool)
    ensures q !in text
    ensures found ==> line == text + ([q] + rest)
    ensures !found ==> line == text
    decreases |line|
  {
    if line == "" {
      text, rest, found := "", "", false;
    } else if line[0] == q {
      text, rest, found := "", line[1..], true;
      Uncons(line);
    } else {
      text, rest, found := SplitAt(line[1..], q);
      Uncons(line);
      if found {
        Assoc([line[0]], text, [q] + rest);
      }
      text := [line[0]] + text;
    }
  }

  /** Every line consists of segments and at most one unclosed quote, so `LineTokens` speaks of every line. */
  lemma {:induction false} Segmented(line: string) returns (segments: seq<Segment>, tail: Ending)
    ensures WellSegmented(segments) && WellFormedTail(tail) && line == Line(segments) + TailText(tail)
    ensures (forall i :: 0 <= i < |line| ==> !IsQuote(line[i])) ==>
              tail.Closed? && forall i :: 0 <= i < |segments| ==> !segments[i].Quoted?
    decreases |line|
  {
    if line == "" {
      segments, tail := [], Closed;
      return;
    }
    var c := line[0];
    Uncons(line);
    var segment;
    var rest := line[1..];
    if IsQuote(c) {
      var text, after, found := SplitAt(line[1..], c);
      if !found {
        segments, tail := [], Unclosed(c, text);
        assert "" + ([c] + text) == line;
        return;
      }
      segment, rest := Quoted(c, text), after;
      assert line == SegmentText(segment) + rest;
    } else if IsSpace(c) {
      segment := Gap(c);
    } else {
      segment := Word([c]);
    }
    var more;
    more, tail := Segmented(rest);
    if segment.Word? && more != [] && more[0].Word? {
      segments := [Word([c] + more[0].text)] + more[1..];
      JoinWords(c, more, tail);
    } else {
      segments := [segment] + more;
      SegmentCons(segment, more, tail);
    }
  }

  lemma JoinWords(c: char, more: seq<Segment>, tail: Ending)
    requires WellSegmented(more) && more != [] && more[0].Word? && !IsQuote(c) && !IsSpace(c)
    ensures var segments := [Word([c] + more[0].text)] + more[1..];
            WellSegmented(segments) && Line(segments) + TailText(tail) == [c] + (Line(more) + TailText(tail))
  {
    Tail(Word([c] + more[0].text), more[1..]);
    Assoc([c], more[0].text, Line(more[1..]));
    Assoc([c], Line(more), TailText(tail));
  }

  lemma SegmentCons(segment: Segment, more: seq<Segment>, tail: Ending)
    ensures Line([segment] + more) + TailText(tail) == SegmentText(segment) + (Line(more) + TailText(tail))
  {
    Tail(segment, more);
    Assoc(SegmentText(segment), Line(more), TailText(tail));
  }

  // ---------------------------------------------------------------- when the tokens are those that are meant

  /** A quoted text directly after one with the same quotes. */
  predicate Touching(segments: seq<Segment>, before: char) {
    segments != [] &&
    ((segments[0].Quoted? && segments[0].q == before)
     || Touching(segments[1..], QuoteAfter(segments[0])))
  }

  lemma {:induction false} ProducedIsMeant(segments: seq<Segment>, before: char)
    ensures |Produced(segments, before)| >= |Meant(segments)|
    ensures Touching(segments, before) ==> |Produced(segments, before)| > |Meant(segments)|
    ensures !Touching(segments, before) ==> Produced(segments, before) == Meant(segments)
    decreases |segments|
  {
    if segments != [] {
      ProducedIsMeant(segments[1..], QuoteAfter(segments[0]));
    }
  }

  /** The tokens of a line whose quotes are all closed are those that are meant, if and only if no quoted text
      directly follows one with the same quotes. */
  lemma TokensAreMeant(segments: seq<Segment>)
    requires WellSegmented(segments)
    ensures Tokens(Line(segments)) == Meant(segments) <==> !Touching(segments, ' ')
  {
    LineTokens(segments, Closed);
    ProducedIsMeant(segments, ' ');
    assert Line(segments) + "" == Line(segments);
    assert Produced(segments, ' ') + [] == Produced(segments, ' ');
  }

  /** Two quoted texts that touch give three tokens. */
  lemma TouchingQuotes()
    ensures Tokens("'a''b'") == ["a", "", "b"]
  {
    var segments := [Quoted('\'', "a"), Quoted('\'', "b")];
    LineTokens(segments, Closed);
    assert segments[1..] == [Quoted('\'', "b")];
    assert segments[1..][1..] == [];
    assert Line(segments) + "" == "'a''b'";
    assert Produced(segments, ' ') == ["a", "", "b"];
  }

  /** A line without quotes is split at its blanks. */
  lemma UnquotedTokens(line: string)
    requires forall i :: 0 <= i < |line| ==> !IsQuote(line[i])
    ensures exists segments: seq<Segment> :: WellSegmented(segments) && Line(segments) == line && Tokens(line) == Meant(segments)
                               && forall i :: 0 <= i < |segments| ==> !segments[i].Quoted?
  {
    var segments, tail := Segmented(line);
    assert Line(segments) + "" == Line(segments);
    NoQuotesTouch(segments);
    TokensAreMeant(segments);
  }

  lemma {:induction false} NoQuotesTouch(segments: seq<Segment>)
    requires forall i :: 0 <= i < |segments| ==> !segments[i].Quoted?
    ensures !Touching(segments, ' ')
    decreases |segments|
  {
    if segments != [] {
      NoQuotesTouch(segments[1..]);
    }
  }

  /** Tokens quoted with the given quotes, joined by blanks. */
  function Quote(tokens: seq<string>, quotes: seq<char>): seq<Segment>
    requires |tokens| == |quotes|
  {
    if tokens == [] then []
    else [Quoted(quotes[0], tokens[0])] + Joined(Quote(tokens[1..], quotes[1..]))
  }

  function Joined(segments: seq<Segment>): seq<Segment> {
    if segments == [] then [] else [Gap(' ')] + segments
  }

  /** Any tokens, empty ones and ones with blanks included, come back when each is put between quotes it does not
      contain and they are joined by blanks. */
  lemma {:induction false} QuoteRoundTrip(tokens: seq<string>, quotes: seq<char>)
    requires |tokens| == |quotes|
    requires forall i :: 0 <= i < |tokens| ==> IsQuote(quotes[i]) && quotes[i] !in tokens[i]
    ensures Tokens(Line(Quote(tokens, quotes))) == tokens
  {
    QuoteSegments(tokens, quotes);
    TokensAreMeant(Quote(tokens, quotes));
  }

  lemma {:induction false} QuoteSegments(tokens: seq<string>, quotes: seq<char>)
    requires |tokens| == |quotes|
    requires forall i :: 0 <= i < |tokens| ==> IsQuote(quotes[i]) && quotes[i] !in tokens[i]
    ensures var segments := Quote(tokens, quotes);
            WellSegmented(segments) && Meant(segments) == tokens && !Touching(segments, ' ')
    decreases |tokens|
  {
    if tokens != [] {
      var more := Quote(tokens[1..], quotes[1..]);
      QuoteSegments(tokens[1..], quotes[1..]);
      Tail(Quoted(quotes[0], tokens[0]), Joined(more));
      if more != [] {
        Tail(Gap(' '), more);
      }
      assert WellSegmented(Joined(more)) && Meant(Joined(more)) == Meant(more) && !Touching(Joined(more), quotes[0]);
      Uncons(tokens);
    }
  }

  // ---------------------------------------------------------------- character by character

  /** The same item and mode, the tokens of `s` behind those in `before`. */
  predicate Behind(before: seq<string>, s: Scan, t: Scan) {
    t == s.(tokens := before + s.tokens, last := t.last) && (t.last == s.last || !(IsQuote(t.last) || IsQuote(s.last)))
  }

  lemma NextBehind(before: seq<string>, s: Scan, t: Scan, c: char)
    requires Behind(before, s, t)
    ensures Behind(before, Next(s, c), Next(t, c))
  {
    Assoc(before, s.tokens, [""]);
    Assoc(before, s.tokens, [s.item]);
  }

  lemma {:induction false} ScanBehind(before: seq<string>, s: Scan, t: Scan, line: string)
    requires Behind(before, s, t)
    ensures Behind(before, ScanAll(s, line), ScanAll(t, line))
    decreases |line|
  {
    if line != "" {
      NextBehind(before, s, t, line[0]);
      ScanBehind(before, Next(s, line[0]), Next(t, line[0]), line[1..]);
    }
  }

  lemma {:induction false} ScanUnquoted(s: Scan, line: string)
    requires !s.simple && !s.double && '\'' !in line && '"' !in line
    ensures !ScanAll(s, line).simple && !ScanAll(s, line).double
    decreases |line|
  {
    if line != "" {
      assert line[0] in line;
      ScanUnquoted(Next(s, line[0]), line[1..]);
    }
  }

  /** Behind a text without quotes, each of the six blank characters ends a token, whatever comes next. */
  lemma BlankSplits(a: string, c: char, b: string)
    requires '\'' !in a && '"' !in a
    requires c == ' ' || c == '\t' || c == '\n' || c == '\U{000B}' || c == '\U{000C}' || c == '\r'
    ensures Tokens(a + ([c] + b)) == Tokens(a) + Tokens(b)
  {
    ScanAppend(START, a, [c] + b);
    var s := ScanAll(START, a);
    ScanUnquoted(START, a);
    Tail(c, b);
    var t := Next(s, c);
    assert t == Scan(Tokens(a), "", false, false, c);
    Unit(Tokens(a));
    ScanBehind(Tokens(a), START, t, b);
    var e := ScanAll(START, b);
    Assoc(Tokens(a), e.tokens, [e.item]);
  }

  lemma NoBlank(c: char)
    requires c != ' ' && c != '\t' && c != '\n' && c != '\U{000B}' && c != '\U{000C}' && c != '\r'
    ensures !IsSpace(c)
  {
  }

  /** Every other character that is no quote stays in its word. */
  lemma WordKept(word: string)
    requires word != "" && '\'' !in word && '"' !in word && ' ' !in word && '\t' !in word && '\n' !in word
    requires '\U{000B}' !in word && '\U{000C}' !in word && '\r' !in word
    ensures Tokens(word) == [word]
  {
    forall i | 0 <= i < |word|
      ensures !IsSpace(word[i]) && word[i] != '\'' && word[i] != '"'
    {
      assert word[i] in word;
      NoBlank(word[i]);
    }
    ScanKept(START, word);
    Unit(word);
  }
}
