/** What a sequence of SMCL tokens means, one statement at a time. A token stream is cut into statements
    (`ReadStatement`, inverse of `StatementTokens`), and a statement acts on a state that keeps one optional prefix
    for every open scope (`Exec`). The class of the original keeps a map from depth to prefix instead;
    `SmclParser` proves that it computes the same. */
module SmclStatement {
  import opened Options
  import opened Seqs
  import opened SmclLexer
  import opened SmclToken
  import opened Versions

  // ---------------------------------------------------------------- statements

  datatype Part = Name(text: string) | Point

  datatype Value =
    | Text(literals: seq<string>)
    | Triple(major: int, minor: int, patch: int)
    | Listing(items: seq<seq<string>>)

  datatype Statement =
    | Empty
    | OpenSection(name: seq<Part>)
    | CloseSection
    | OpenHeader
    | CloseHeader
    | Prefix(text: string)
    | Bind(name: seq<Part>, value: Value)

  datatype HeaderKey = NameKey | LocaleKey | VersionKey | AuthorsKey

  const ALL_KEYS: set<HeaderKey> := {NameKey, LocaleKey, VersionKey, AuthorsKey}

  function NameText(name: seq<Part>): string {
    if name == [] then ""
    else (if name[0].Name? then name[0].text else ".") + NameText(name[1..])
  }

  function KeyOf(name: string): Option<HeaderKey> {
    if name == "name" then Some(NameKey)
    else if name == "locale" then Some(LocaleKey)
    else if name == "version" then Some(VersionKey)
    else if name == "authors" then Some(AuthorsKey)
    else None
  }

  /** A name neither starts nor ends with a point, and is not empty. */
  predicate WellNamed(name: seq<Part>) {
    name != [] && name[0].Name? && name[|name| - 1].Name?
  }

  predicate WellFormedValue(value: Value) {
    match value
    case Text(literals) => literals != []
    case Triple(_, _, _) => true
    case Listing(items) => items != [] && forall i :: 0 <= i < |items| ==> items[i] != []
  }

  datatype Form = TextForm | TripleForm | ListingForm

  function FormOfKey(key: HeaderKey): Form {
    match key
    case VersionKey => TripleForm
    case AuthorsKey => ListingForm
    case _ => TextForm
  }

  /** The form of value a name takes: a text outside the header, the form of its key inside. */
  function FormOf(name: seq<Part>, inHeader: bool): Option<Form> {
    if !inHeader then Some(TextForm)
    else
      match KeyOf(NameText(name))
      case None => None
      case Some(key) => Some(FormOfKey(key))
  }

  function ValueForm(value: Value): Form {
    match value
    case Text(_) => TextForm
    case Triple(_, _, _) => TripleForm
    case Listing(_) => ListingForm
  }

  predicate Fits(name: seq<Part>, value: Value, inHeader: bool) {
    FormOf(name, inHeader) == Some(ValueForm(value))
  }

  predicate WellFormed(s: Statement, inHeader: bool) {
    match s
    case OpenSection(name) => !inHeader && WellNamed(name)
    case CloseSection => !inHeader
    case CloseHeader => inHeader
    case Bind(name, value) => WellNamed(name) && WellFormedValue(value) && Fits(name, value, inHeader)
    case _ => true
  }

  // ---------------------------------------------------------------- statements as tokens

  function PartTokens(name: seq<Part>): seq<Token> {
    if name == [] then []
    else [if name[0].Name? then Identifier(name[0].text) else Dot] + PartTokens(name[1..])
  }

  function LiteralTokens(literals: seq<string>): seq<Token> {
    if literals == [] then [] else [String(literals[0])] + LiteralTokens(literals[1..])
  }

  function ItemsTokens(items: seq<seq<string>>): seq<Token> {
    if items == [] then []
    else LiteralTokens(items[0]) + ([if |items| == 1 then ClosingBracket else Comma] + ItemsTokens(items[1..]))
  }

  function ValueTokens(value: Value): seq<Token> {
    match value
    case Text(literals) => LiteralTokens(literals) + [Semicolon]
    case Triple(major, minor, patch) => [Number(major), Dot, Number(minor), Dot, Number(patch)]
    case Listing(items) => [OpeningBracket] + (ItemsTokens(items) + [Semicolon])
  }

  function StatementTokens(s: Statement): seq<Token> {
    match s
    case Empty => [Semicolon]
    case OpenSection(name) => [Section] + (PartTokens(name) + [Semicolon])
    case CloseSection => [End, Semicolon]
    case OpenHeader => [Header, Semicolon]
    case CloseHeader => [End]
    case Prefix(text) => [StrBegin, String(text), Semicolon]
    case Bind(name, value) => [Dot] + (PartTokens(name) + ([Equal] + ValueTokens(value)))
  }

  // ---------------------------------------------------------------- tokens as statements

  /** The identifiers and points that `tokens` starts with. */
  function NameRun(tokens: seq<Token>): (name: seq<Part>)
    ensures |name| <= |tokens|
  {
    if tokens == [] then []
    else if tokens[0].Identifier? then [Name(tokens[0].name)] + NameRun(tokens[1..])
    else if tokens[0] == Dot then [Point] + NameRun(tokens[1..])
    else []
  }

  /** The string literals that `tokens` starts with. */
  function LiteralRun(tokens: seq<Token>): (literals: seq<string>)
    ensures |literals| <= |tokens|
  {
    if tokens != [] && tokens[0].String? then [tokens[0].text] + LiteralRun(tokens[1..]) else []
  }

  function ReadName(tokens: seq<Token>, end: Token): (r: Option<(seq<Part>, seq<Token>)>)
    ensures r.Some? ==> |r.value.1| < |tokens|
  {
    var name := NameRun(tokens);
    if WellNamed(name) && |name| < |tokens| && tokens[|name|] == end
    then Some((name, tokens[|name| + 1..]))
    else None
  }

  /** One or more literals and the token that ends them, which must be one of `ends`. */
  function ReadText(tokens: seq<Token>, ends: seq<Token>): (r: Option<(seq<string>, Token, seq<Token>)>)
    ensures r.Some? ==> |r.value.2| < |tokens| && r.value.1 in ends
  {
    var literals := LiteralRun(tokens);
    if literals != [] && |literals| < |tokens| && tokens[|literals|] in ends
    then Some((literals, tokens[|literals|], tokens[|literals| + 1..]))
    else None
  }

  const ITEM_ENDS: seq<Token> := [Comma, ClosingBracket]

  function ReadItems(tokens: seq<Token>): (r: Option<(seq<seq<string>>, seq<Token>)>)
    decreases |tokens|
  {
    match ReadText(tokens, ITEM_ENDS)
    case None => None
    case Some((literals, end, rest)) =>
      if end == ClosingBracket then Some(([literals], rest))
      else
        match ReadItems(rest)
        case None => None
        case Some((items, after)) => Some(([literals] + items, after))
  }

  function ReadTextValue(tokens: seq<Token>): Option<(Value, seq<Token>)> {
    match ReadText(tokens, [Semicolon])
    case None => None
    case Some((literals, _, rest)) => Some((Text(literals), rest))
  }

  function ReadTriple(t: seq<Token>): Option<(Value, seq<Token>)> {
    if |t| >= 5 && t[0].Number? && t[1] == Dot && t[2].Number? && t[3] == Dot && t[4].Number?
    then Some((Triple(t[0].value, t[2].value, t[4].value), t[5..]))
    else None
  }

  function ReadListing(tokens: seq<Token>): Option<(Value, seq<Token>)> {
    if tokens == [] || tokens[0] != OpeningBracket then None
    else
      match ReadItems(tokens[1..])
      case None => None
      case Some((items, rest)) =>
        if rest != [] && rest[0] == Semicolon then Some((Listing(items), rest[1..])) else None
  }

  function ReadValue(form: Form, tokens: seq<Token>): Option<(Value, seq<Token>)> {
    match form
    case TextForm => ReadTextValue(tokens)
    case TripleForm => ReadTriple(tokens)
    case ListingForm => ReadListing(tokens)
  }

  /** The rest of a binding, after its first point. */
  function ReadBind(tokens: seq<Token>, inHeader: bool): Option<(Statement, seq<Token>)> {
    match ReadName(tokens, Equal)
    case None => None
    case Some((name, rest)) =>
      match FormOf(name, inHeader)
      case None => None
      case Some(form) =>
        match ReadValue(form, rest)
        case None => None
        case Some((value, after)) => Some((Bind(name, value), after))
  }

  function ReadOpenSection(tokens: seq<Token>): Option<(Statement, seq<Token>)> {
    match ReadName(tokens, Semicolon)
    case None => None
    case Some((name, rest)) => Some((OpenSection(name), rest))
  }

  function ReadSemicolon(s: Statement, tokens: seq<Token>): Option<(Statement, seq<Token>)> {
    if tokens != [] && tokens[0] == Semicolon then Some((s, tokens[1..])) else None
  }

  function ReadPrefix(tokens: seq<Token>): Option<(Statement, seq<Token>)> {
    if tokens != [] && tokens[0].String? then ReadSemicolon(Prefix(tokens[0].text), tokens[1..]) else None
  }

  /** The first statement of a token sequence and the tokens after it. */
  function ReadStatement(tokens: seq<Token>, inHeader: bool): Option<(Statement, seq<Token>)> {
    if tokens == [] then None
    else
      var rest := tokens[1..];
      match tokens[0]
      case Semicolon => Some((Empty, rest))
      case Dot => ReadBind(rest, inHeader)
      case Section => if inHeader then None else ReadOpenSection(rest)
      case StrBegin => ReadPrefix(rest)
      case Header => ReadSemicolon(OpenHeader, rest)
      case End => if inHeader then Some((CloseHeader, rest)) else ReadSemicolon(CloseSection, rest)
      case _ => None
  }

  // ---------------------------------------------------------------- the two are inverse

  lemma {:induction false} NameRunTokens(name: seq<Part>, rest: seq<Token>)
    requires rest != [] ==> !rest[0].Identifier? && rest[0] != Dot
    ensures NameRun(PartTokens(name) + rest) == name && |PartTokens(name)| == |name|
  {
    if name == [] {
      assert PartTokens(name) + rest == rest;
    } else {
      Assoc([PartTokens(name)[0]], PartTokens(name[1..]), rest);
      Tail(PartTokens(name)[0], PartTokens(name[1..]) + rest);
      NameRunTokens(name[1..], rest);
    }
  }

  lemma {:induction false} TokensNameRun(tokens: seq<Token>)
    ensures tokens == PartTokens(NameRun(tokens)) + tokens[|NameRun(tokens)|..]
  {
    var name := NameRun(tokens);
    if name != [] {
      TokensNameRun(tokens[1..]);
      assert tokens[1..][|name| - 1..] == tokens[|name|..];
      assert name[1..] == NameRun(tokens[1..]);
    }
  }

  lemma {:induction false} LiteralRunTokens(literals: seq<string>, rest: seq<Token>)
    requires rest != [] ==> !rest[0].String?
    ensures LiteralRun(LiteralTokens(literals) + rest) == literals && |LiteralTokens(literals)| == |literals|
  {
    if literals == [] {
      assert LiteralTokens(literals) + rest == rest;
    } else {
      Assoc([LiteralTokens(literals)[0]], LiteralTokens(literals[1..]), rest);
      Tail(LiteralTokens(literals)[0], LiteralTokens(literals[1..]) + rest);
      LiteralRunTokens(literals[1..], rest);
    }
  }

  lemma {:induction false} TokensLiteralRun(tokens: seq<Token>)
    ensures tokens == LiteralTokens(LiteralRun(tokens)) + tokens[|LiteralRun(tokens)|..]
  {
    var literals := LiteralRun(tokens);
    if literals != [] {
      TokensLiteralRun(tokens[1..]);
      assert tokens[1..][|literals| - 1..] == tokens[|literals|..];
      assert literals[1..] == LiteralRun(tokens[1..]);
    }
  }

  lemma ReadNameTokens(name: seq<Part>, end: Token, rest: seq<Token>)
    requires WellNamed(name) && !end.Identifier? && end != Dot
    ensures ReadName(PartTokens(name) + ([end] + rest), end) == Some((name, rest))
  {
    NameRunTokens(name, [end] + rest);
    assert (PartTokens(name) + ([end] + rest))[|name| + 1..] == rest;
  }

  lemma TokensReadName(tokens: seq<Token>, end: Token)
    requires ReadName(tokens, end).Some?
    ensures var (name, rest) := ReadName(tokens, end).value;
            WellNamed(name) && tokens == PartTokens(name) + ([end] + rest)
  {
    TokensNameRun(tokens);
    var n := |NameRun(tokens)|;
    assert tokens[n..] == [end] + tokens[n + 1..];
  }

  lemma ReadTextTokens(literals: seq<string>, end: Token, rest: seq<Token>, ends: seq<Token>)
    requires literals != [] && !end.String? && end in ends
    ensures ReadText(LiteralTokens(literals) + ([end] + rest), ends) == Some((literals, end, rest))
  {
    LiteralRunTokens(literals, [end] + rest);
    assert (LiteralTokens(literals) + ([end] + rest))[|literals| + 1..] == rest;
  }

  lemma TokensReadText(tokens: seq<Token>, ends: seq<Token>)
    requires ReadText(tokens, ends).Some?
    ensures var (literals, end, rest) := ReadText(tokens, ends).value;
            literals != [] && tokens == LiteralTokens(literals) + ([end] + rest)
  {
    TokensLiteralRun(tokens);
    var n := |LiteralRun(tokens)|;
    assert tokens[n..] == [tokens[n]] + tokens[n + 1..];
  }

  lemma FewerItems(items: seq<seq<string>>)
    requires WellFormedValue(Listing(items)) && |items| > 1
    ensures WellFormedValue(Listing(items[1..]))
  {
  }

  lemma {:induction false} ReadItemsTokens(items: seq<seq<string>>, rest: seq<Token>)
    requires WellFormedValue(Listing(items))
    ensures ReadItems(ItemsTokens(items) + rest) == Some((items, rest))
  {
    var end := if |items| == 1 then ClosingBracket else Comma;
    var after := ItemsTokens(items[1..]) + rest;
    ItemTokens(items, rest);
    ReadTextTokens(items[0], end, after, ITEM_ENDS);
    Uncons(items);
    if |items| == 1 {
      Unit(rest);
      Unit([items[0]]);
    } else {
      FewerItems(items);
      ReadItemsTokens(items[1..], rest);
    }
  }

  lemma {:induction false} TokensReadItems(tokens: seq<Token>)
    requires ReadItems(tokens).Some?
    ensures var (items, rest) := ReadItems(tokens).value;
            WellFormedValue(Listing(items)) && tokens == ItemsTokens(items) + rest
    decreases |tokens|
  {
    TokensReadText(tokens, ITEM_ENDS);
    var (literals, end, after) := ReadText(tokens, ITEM_ENDS).value;
    if end == ClosingBracket {
      ItemTokens([literals], after);
      assert [] + after == after;
    } else {
      TokensReadItems(after);
      var (items, rest) := ReadItems(after).value;
      Tail(literals, items);
      ItemTokens([literals] + items, rest);
    }
  }

  lemma ReadTripleTokens(value: Value, rest: seq<Token>)
    requires value.Triple?
    ensures ReadTriple(ValueTokens(value) + rest) == Some((value, rest))
  {
    assert (ValueTokens(value) + rest)[5..] == rest;
  }

  lemma ReadListingTokens(items: seq<seq<string>>, rest: seq<Token>)
    requires WellFormedValue(Listing(items))
    ensures ReadListing(ValueTokens(Listing(items)) + rest) == Some((Listing(items), rest))
  {
    ListingTokens(items, rest);
    Tail(OpeningBracket, ItemsTokens(items) + ([Semicolon] + rest));
    ReadItemsTokens(items, [Semicolon] + rest);
    Tail(Semicolon, rest);
  }

  lemma ReadValueTokens(value: Value, rest: seq<Token>)
    requires WellFormedValue(value)
    ensures ReadValue(ValueForm(value), ValueTokens(value) + rest) == Some((value, rest))
  {
    match value
    case Text(literals) =>
      Assoc(LiteralTokens(literals), [Semicolon], rest);
      ReadTextTokens(literals, Semicolon, rest, [Semicolon]);
    case Triple(_, _, _) => ReadTripleTokens(value, rest);
    case Listing(items) => ReadListingTokens(items, rest);
  }

  /** `value` was read from the front of `tokens`, and `rest` is what is left. */
  ghost predicate Consumes(tokens: seq<Token>, value: Value, rest: seq<Token>) {
    WellFormedValue(value) && tokens == ValueTokens(value) + rest
  }

  lemma TokensReadTextValue(tokens: seq<Token>)
    requires ReadTextValue(tokens).Some?
    ensures var (value, rest) := ReadTextValue(tokens).value; value.Text? && Consumes(tokens, value, rest)
  {
    TokensReadText(tokens, [Semicolon]);
    var (value, rest) := ReadTextValue(tokens).value;
    Assoc(LiteralTokens(value.literals), [Semicolon], rest);
  }

  lemma TokensReadListing(tokens: seq<Token>)
    requires ReadListing(tokens).Some?
    ensures var (value, rest) := ReadListing(tokens).value; value.Listing? && Consumes(tokens, value, rest)
  {
    TokensReadItems(tokens[1..]);
    var (items, after) := ReadItems(tokens[1..]).value;
    var rest := after[1..];
    Uncons(after);
    Uncons(tokens);
    ListingTokens(items, rest);
  }

  lemma TokensReadTriple(tokens: seq<Token>)
    requires ReadTriple(tokens).Some?
    ensures var (value, rest) := ReadTriple(tokens).value; value.Triple? && Consumes(tokens, value, rest)
  {
    var value := ReadTriple(tokens).value.0;
    assert tokens == tokens[..5] + tokens[5..];
    assert tokens[..5] == ValueTokens(value);
  }

  lemma TokensReadValue(form: Form, tokens: seq<Token>)
    requires ReadValue(form, tokens).Some?
    ensures var (value, rest) := ReadValue(form, tokens).value;
            ValueForm(value) == form && Consumes(tokens, value, rest)
  {
    match form
    case TextForm => TokensReadTextValue(tokens);
    case TripleForm => TokensReadTriple(tokens);
    case ListingForm => TokensReadListing(tokens);
  }

  lemma BindTokens(name: seq<Part>, value: Value, rest: seq<Token>)
    ensures StatementTokens(Bind(name, value)) + rest
         == [Dot] + (PartTokens(name) + ([Equal] + (ValueTokens(value) + rest)))
  {
    Assoc([Dot], PartTokens(name) + ([Equal] + ValueTokens(value)), rest);
    Assoc(PartTokens(name), [Equal] + ValueTokens(value), rest);
    Assoc([Equal], ValueTokens(value), rest);
  }

  lemma OpenTokens(name: seq<Part>, rest: seq<Token>)
    ensures StatementTokens(OpenSection(name)) + rest == [Section] + (PartTokens(name) + ([Semicolon] + rest))
  {
    Assoc([Section], PartTokens(name) + [Semicolon], rest);
    Assoc(PartTokens(name), [Semicolon], rest);
  }

  lemma ListingTokens(items: seq<seq<string>>, rest: seq<Token>)
    ensures ValueTokens(Listing(items)) + rest == [OpeningBracket] + (ItemsTokens(items) + ([Semicolon] + rest))
  {
    Assoc([OpeningBracket], ItemsTokens(items) + [Semicolon], rest);
    Assoc(ItemsTokens(items), [Semicolon], rest);
  }

  lemma ItemTokens(items: seq<seq<string>>, rest: seq<Token>)
    requires items != []
    ensures ItemsTokens(items) + rest
         == LiteralTokens(items[0]) + ([if |items| == 1 then ClosingBracket else Comma] + (ItemsTokens(items[1..]) + rest))
  {
    var end := if |items| == 1 then ClosingBracket else Comma;
    Assoc(LiteralTokens(items[0]), [end] + ItemsTokens(items[1..]), rest);
    Assoc([end], ItemsTokens(items[1..]), rest);
  }

  lemma ReadBindTokens(name: seq<Part>, value: Value, inHeader: bool, rest: seq<Token>)
    requires WellFormed(Bind(name, value), inHeader)
    ensures ReadStatement(StatementTokens(Bind(name, value)) + rest, inHeader) == Some((Bind(name, value), rest))
  {
    var after := ValueTokens(value) + rest;
    BindTokens(name, value, rest);
    Tail(Dot, PartTokens(name) + ([Equal] + after));
    ReadNameTokens(name, Equal, after);
    ReadValueTokens(value, rest);
  }

  lemma ReadOpenTokens(name: seq<Part>, rest: seq<Token>)
    requires WellNamed(name)
    ensures ReadStatement(StatementTokens(OpenSection(name)) + rest, false) == Some((OpenSection(name), rest))
  {
    OpenTokens(name, rest);
    Tail(Section, PartTokens(name) + ([Semicolon] + rest));
    ReadNameTokens(name, Semicolon, rest);
  }

  /** A well-formed statement is read back from its tokens, whatever comes next. */
  lemma ReadStatementTokens(s: Statement, inHeader: bool, rest: seq<Token>)
    requires WellFormed(s, inHeader)
    ensures ReadStatement(StatementTokens(s) + rest, inHeader) == Some((s, rest))
  {
    var tokens := StatementTokens(s) + rest;
    match s
    case OpenSection(name) => ReadOpenTokens(name, rest);
    case Bind(name, value) => ReadBindTokens(name, value, inHeader, rest);
    case Prefix(text) => assert tokens[1..][1..][1..] == rest;
    case CloseSection => assert tokens[1..][1..] == rest;
    case OpenHeader => assert tokens[1..][1..] == rest;
    case _ => assert tokens[1..] == rest;
  }

  lemma TokensReadBind(tokens: seq<Token>, inHeader: bool)
    requires ReadBind(tokens, inHeader).Some?
    ensures var (s, rest) := ReadBind(tokens, inHeader).value;
            WellFormed(s, inHeader) && [Dot] + tokens == StatementTokens(s) + rest
  {
    TokensReadName(tokens, Equal);
    var (name, after) := ReadName(tokens, Equal).value;
    var form := FormOf(name, inHeader).value;
    TokensReadValue(form, after);
    var (value, rest) := ReadValue(form, after).value;
    BindTokens(name, value, rest);
  }

  lemma TokensReadOpen(tokens: seq<Token>)
    requires ReadOpenSection(tokens).Some?
    ensures var (s, rest) := ReadOpenSection(tokens).value;
            WellFormed(s, false) && [Section] + tokens == StatementTokens(s) + rest
  {
    var (s, rest) := ReadOpenSection(tokens).value;
    TokensReadName(tokens, Semicolon);
    OpenTokens(s.name, rest);
  }

  /** The tokens consumed by a statement that was read are exactly the tokens of that statement. */
  lemma TokensReadStatement(tokens: seq<Token>, inHeader: bool)
    requires ReadStatement(tokens, inHeader).Some?
    ensures var (s, rest) := ReadStatement(tokens, inHeader).value;
            WellFormed(s, inHeader) && tokens == StatementTokens(s) + rest && |rest| < |tokens|
  {
    var (s, rest) := ReadStatement(tokens, inHeader).value;
    assert tokens == [tokens[0]] + tokens[1..];
    match tokens[0]
    case Section => TokensReadOpen(tokens[1..]);
    case Dot => TokensReadBind(tokens[1..], inHeader);
    case StrBegin => assert tokens == tokens[..3] + rest;
    case End =>
      if !inHeader {
        assert tokens == tokens[..2] + rest;
      }
    case Header => assert tokens == tokens[..2] + rest;
    case _ =>
  }

  // ---------------------------------------------------------------- the effect of a statement

  datatype LangData = LangData(
    translations: map<string, string>,
    name: string,
    locale: string,
    authors: seq<string>,
    version: Version)

  /** `prefixes` has one entry for the top level and one for every open section, outermost first. */
  datatype State = State(
    sections: seq<string>,
    prefixes: seq<Option<string>>,
    inHeader: bool,
    headerDefined: bool,
    given: set<HeaderKey>,
    data: LangData)
  {
    predicate Valid() {
      && |prefixes| == |sections| + 1
      && (inHeader ==> sections == [] && headerDefined)
    }
  }

  function Initial(data: LangData): State {
    State([], [None], false, false, {}, data)
  }

  /** The section names, each followed by a point. */
  function Path(sections: seq<string>): string {
    if sections == [] then "" else (sections[0] + ".") + Path(sections[1..])
  }

  /** All prefixes in force, outermost first. */
  function JoinPrefixes(prefixes: seq<Option<string>>): string {
    if prefixes == [] then "" else prefixes[0].GetOr("") + JoinPrefixes(prefixes[1..])
  }

  /** `insert`: a key that is already present keeps its value. */
  function Insert<K, V>(m: map<K, V>, k: K, v: V): map<K, V> {
    if k in m then m else m[k := v]
  }

  function Prefixed(prefix: string, items: seq<seq<string>>): seq<string> {
    if items == [] then [] else [prefix + Concat(items[0])] + Prefixed(prefix, items[1..])
  }

  /** The header entry `key` set to `value`, all of whose texts start with `prefix`. */
  function SetHeader(data: LangData, key: HeaderKey, prefix: string, value: Value): LangData {
    match (key, value)
    case (NameKey, Text(literals)) => data.(name := prefix + Concat(literals))
    case (LocaleKey, Text(literals)) => data.(locale := prefix + Concat(literals))
    case (VersionKey, Triple(a, b, c)) => data.(version := Version(ToUInt16(a), ToUInt16(b), ToUInt16(c)))
    case (AuthorsKey, Listing(items)) => data.(authors := Prefixed(prefix, items))
    case _ => data
  }

  function GiveHeader(st: State, key: HeaderKey, value: Value): State {
    st.(given := st.given + {key}, data := SetHeader(st.data, key, JoinPrefixes(st.prefixes), value))
  }

  function Translate(st: State, key: string, literals: seq<string>): State {
    var text := JoinPrefixes(st.prefixes) + Concat(literals);
    st.(data := st.data.(translations := Insert(st.data.translations, key, text)))
  }

  function ExecBind(st: State, name: seq<Part>, value: Value): Option<State> {
    var key := Path(st.sections) + NameText(name);
    if st.inHeader then
      match KeyOf(key)
      case None => None
      case Some(k) =>
        if k in st.given then None else Some(GiveHeader(st, k, value))
    else if value.Text? then Some(Translate(st, key, value.literals))
    else None
  }

  /** The state after a statement, or nothing when the statement is refused. */
  function Exec(st: State, s: Statement): (r: Option<State>)
    requires st.Valid()
    ensures r.Some? ==> r.value.Valid()
  {
    match s
    case Empty => Some(st)
    case OpenSection(name) =>
      if st.inHeader then None
      else Some(st.(sections := st.sections + [NameText(name)], prefixes := st.prefixes + [None]))
    case CloseSection =>
      if st.inHeader || st.sections == [] then None
      else Some(st.(sections := st.sections[..|st.sections| - 1], prefixes := st.prefixes[..|st.sections|]))
    case OpenHeader =>
      if st.inHeader || st.headerDefined || st.sections != [] then None
      else Some(st.(inHeader := true, headerDefined := true))
    case CloseHeader =>
      if st.inHeader && st.given == ALL_KEYS then Some(st.(inHeader := false)) else None
    case Prefix(text) =>
      var top := |st.sections|;
      Some(if st.prefixes[top].Some? then st else st.(prefixes := st.prefixes[top := Some(text)]))
    case Bind(name, value) => ExecBind(st, name, value)
  }

  /** The state and the tokens left after the statement that was read, or nothing when there is none or it is
      refused. */
  function After(st: State, read: Option<(Statement, seq<Token>)>): (r: Option<(State, seq<Token>)>)
    requires st.Valid()
    ensures r.Some? ==> r.value.0.Valid() && read.Some? && r.value.1 == read.value.1
  {
    match read
    case None => None
    case Some((s, rest)) =>
      match Exec(st, s)
      case None => None
      case Some(next) => Some((next, rest))
  }

  /** One statement off the front of `tokens`. */
  function Step(st: State, tokens: seq<Token>): (r: Option<(State, seq<Token>)>)
    requires st.Valid()
    ensures r.Some? ==> r.value.0.Valid() && |r.value.1| < |tokens|
  {
    var read := ReadStatement(tokens, st.inHeader);
    if read.Some? then TokensReadStatement(tokens, st.inHeader); After(st, read) else None
  }

  /** Running a token stream to its end: whether it is accepted, and the last state reached. */
  function RunStream(st: State, ahead: Stream): (r: (bool, State))
    requires st.Valid()
    decreases |ahead.tokens|
  {
    if ahead.tokens == [] then (ahead.ok && st.sections == [] && st.headerDefined, st)
    else
      match Step(st, ahead.tokens)
      case None => (false, st)
      case Some((next, rest)) => RunStream(next, Stream(rest, ahead.ok))
  }
}
