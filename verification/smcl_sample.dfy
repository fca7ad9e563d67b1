/** A language file token by token, and the data it gives, all written out. */
module SmclSample {
  import opened Options
  import opened Seqs
  import opened SmclDocument
  import opened SmclHeader
  import opened SmclLexer
  import opened SmclStatement
  import opened SmclToken
  import opened Versions

  const NOTHING := LangData(map[], "", "", [], Version(0, 0, 0))

  // ---------------------------------------------------------------- the document

  const NAME := Bind([Name("name")], Text(["English"]))
  const LOCALE := Bind([Name("locale")], Text(["en", "_US"]))
  const VERSION := Bind([Name("version")], Triple(1, 2, 3))
  const AUTHORS := Bind([Name("authors")], Listing([["Ada"], ["Bob", "by"]]))
  const FIELDS := [NAME, LOCALE, VERSION, AUTHORS]

  const PROMPT := Prefix("> ")
  const GREETING := Bind([Name("hello"), Point, Name("short")], Text(["Hi ", "there"]))
  const INNER := Bind([Name("bye")], Text(["Bye"]))
  const MARK := Prefix("* ")
  const SUB := SectionItem([Name("inner")], [Leaf(MARK), Leaf(INNER)])
  const LAST := Bind([Name("end")], Text(["End"]))
  const BODY := [Leaf(PROMPT), Leaf(GREETING), SUB, Leaf(LAST)]

  const HEAD := HeaderItem(FIELDS)
  const SHELL := SectionItem([Name("shell")], BODY)
  const SAMPLE := Document([HEAD, SHELL], None)

  /** The statements, in order. */
  const STATEMENTS: seq<Statement> := [OpenHeader] + ([NAME] + ([LOCALE] + ([VERSION] + ([AUTHORS] + ([CloseHeader] + SECTION)))))
  const SECTION: seq<Statement> := [OpenSection([Name("shell")])] + ([PROMPT] + ([GREETING] + SUBSECTION))
  const SUBSECTION: seq<Statement> := [OpenSection([Name("inner")])] + ([MARK] + ([INNER] + ([CloseSection] + ENDING)))
  const ENDING: seq<Statement> := [LAST] + ([CloseSection] + [])

  // ---------------------------------------------------------------- its tokens, line by line

  const TOKENS: seq<Token> :=
    [Header, Semicolon]
    + ([Dot, Identifier("name"), Equal, String("English"), Semicolon]
    + ([Dot, Identifier("locale"), Equal, String("en"), String("_US"), Semicolon]
    + ([Dot, Identifier("version"), Equal, Number(1), Dot, Number(2), Dot, Number(3)]
    + ([Dot, Identifier("authors"), Equal, OpeningBracket, String("Ada"), Comma, String("Bob"), String("by"), ClosingBracket, Semicolon]
    + ([End]
    + SECTION_TOKENS)))))

  const SECTION_TOKENS: seq<Token> :=
    [Section, Identifier("shell"), Semicolon]
    + ([StrBegin, String("> "), Semicolon]
    + ([Dot, Identifier("hello"), Dot, Identifier("short"), Equal, String("Hi "), String("there"), Semicolon]
    + SUBSECTION_TOKENS))

  const SUBSECTION_TOKENS: seq<Token> :=
    [Section, Identifier("inner"), Semicolon]
    + ([StrBegin, String("* "), Semicolon]
    + ([Dot, Identifier("bye"), Equal, String("Bye"), Semicolon]
    + ([End, Semicolon]
    + ENDING_TOKENS)))

  const ENDING_TOKENS: seq<Token> :=
    [Dot, Identifier("end"), Equal, String("End"), Semicolon]
    + ([End, Semicolon] + [])

  lemma Line(s: Statement, line: seq<Token>, more: seq<Statement>, tokens: seq<Token>)
    requires StatementTokens(s) == line && AllTokens(more) == tokens
    ensures AllTokens([s] + more) == line + tokens
  {
    Tail(s, more);
  }

  lemma OnePart(name: string)
    ensures PartTokens([Name(name)]) == [Identifier(name)] && NameText([Name(name)]) == name
  {
    assert [Name(name)][1..] == [];
  }

  lemma OneLiteral(text: string)
    ensures LiteralTokens([text]) == [String(text)] && Concat([text]) == text
  {
    assert [text][1..] == [];
  }

  lemma TwoLiterals(a: string, b: string)
    ensures LiteralTokens([a, b]) == [String(a), String(b)] && Concat([a, b]) == a + b
  {
    assert [a, b][1..] == [b];
    OneLiteral(b);
  }

  lemma EntryTokens()
    ensures StatementTokens(NAME) == [Dot, Identifier("name"), Equal, String("English"), Semicolon]
    ensures StatementTokens(LOCALE) == [Dot, Identifier("locale"), Equal, String("en"), String("_US"), Semicolon]
    ensures StatementTokens(VERSION) == [Dot, Identifier("version"), Equal, Number(1), Dot, Number(2), Dot, Number(3)]
    ensures StatementTokens(AUTHORS) ==
            [Dot, Identifier("authors"), Equal, OpeningBracket, String("Ada"), Comma, String("Bob"), String("by"), ClosingBracket, Semicolon]
  {
    OnePart("name");
    OnePart("locale");
    OnePart("version");
    OnePart("authors");
    OneLiteral("English");
    TwoLiterals("en", "_US");
    OneLiteral("Ada");
    TwoLiterals("Bob", "by");
    assert [["Ada"], ["Bob", "by"]][1..] == [["Bob", "by"]];
    assert [["Bob", "by"]][1..] == [];
  }

  lemma EndingTokens()
    ensures AllTokens(ENDING) == ENDING_TOKENS
  {
    OnePart("end");
    OneLiteral("End");
    Line(CloseSection, [End, Semicolon], [], []);
    Line(LAST, [Dot, Identifier("end"), Equal, String("End"), Semicolon], [CloseSection] + [], [End, Semicolon] + []);
  }

  lemma InnerTokens()
    ensures StatementTokens(INNER) == [Dot, Identifier("bye"), Equal, String("Bye"), Semicolon]
  {
    OnePart("bye");
    OneLiteral("Bye");
  }

  lemma SubsectionTokens()
    ensures AllTokens(SUBSECTION) == SUBSECTION_TOKENS
  {
    InnerTokens();
    EndingTokens();
    Subsection(StatementTokens(INNER), ENDING, ENDING_TOKENS);
  }

  lemma Subsection(inner: seq<Token>, ending: seq<Statement>, tokens: seq<Token>)
    requires StatementTokens(INNER) == inner && AllTokens(ending) == tokens
    ensures AllTokens([OpenSection([Name("inner")])] + ([MARK] + ([INNER] + ([CloseSection] + ending)))) ==
            [Section, Identifier("inner"), Semicolon] + ([StrBegin, String("* "), Semicolon] + (inner + ([End, Semicolon] + tokens)))
  {
    OnePart("inner");
    var a, b := [CloseSection] + ending, [End, Semicolon] + tokens;
    Line(CloseSection, [End, Semicolon], ending, tokens);
    Line(INNER, inner, a, b);
    Line(MARK, [StrBegin, String("* "), Semicolon], [INNER] + a, inner + b);
    Line(OpenSection([Name("inner")]), [Section, Identifier("inner"), Semicolon],
         [MARK] + ([INNER] + a), [StrBegin, String("* "), Semicolon] + (inner + b));
  }

  lemma GreetingTokens()
    ensures StatementTokens(GREETING) == [Dot, Identifier("hello"), Dot, Identifier("short"), Equal, String("Hi "), String("there"), Semicolon]
  {
    TwoLiterals("Hi ", "there");
    OnePart("short");
    assert GREETING.name[1..] == [Point, Name("short")] && GREETING.name[1..][1..] == [Name("short")];
    assert PartTokens(GREETING.name) == [Identifier("hello")] + ([Dot] + [Identifier("short")]);
  }

  lemma SectionTokens()
    ensures AllTokens(SECTION) == SECTION_TOKENS
  {
    OnePart("shell");
    SubsectionTokens();
    GreetingTokens();
    var greeting := StatementTokens(GREETING);
    Line(GREETING, greeting, SUBSECTION, SUBSECTION_TOKENS);
    Line(PROMPT, [StrBegin, String("> "), Semicolon], [GREETING] + SUBSECTION, greeting + SUBSECTION_TOKENS);
    Line(OpenSection([Name("shell")]), [Section, Identifier("shell"), Semicolon],
         [PROMPT] + ([GREETING] + SUBSECTION), [StrBegin, String("> "), Semicolon] + (greeting + SUBSECTION_TOKENS));
  }

  lemma HeaderTokens()
    ensures AllTokens(STATEMENTS) == TOKENS
  {
    EntryTokens();
    SectionTokens();
    var l1, l2 := [CloseHeader] + SECTION, [End] + SECTION_TOKENS;
    Line(CloseHeader, [End], SECTION, SECTION_TOKENS);
    Line(AUTHORS, StatementTokens(AUTHORS), l1, l2);
    var m1, m2 := [AUTHORS] + l1, StatementTokens(AUTHORS) + l2;
    Line(VERSION, StatementTokens(VERSION), m1, m2);
    var n1, n2 := [VERSION] + m1, StatementTokens(VERSION) + m2;
    Line(LOCALE, StatementTokens(LOCALE), n1, n2);
    var o1, o2 := [LOCALE] + n1, StatementTokens(LOCALE) + n2;
    Line(NAME, StatementTokens(NAME), o1, o2);
    Line(OpenHeader, [Header, Semicolon], [NAME] + o1, StatementTokens(NAME) + o2);
  }

  lemma TwoItems(a: Item, b: Item)
    ensures Statements([a, b]) == ItemStatements(a) + ItemStatements(b)
  {
    assert [a, b][1..] == [b] && [b][1..] == [];
    assert Statements([b]) == ItemStatements(b) + [];
  }

  lemma ItemsCons(item: Item, more: seq<Item>)
    ensures Statements([item] + more) == ItemStatements(item) + Statements(more)
  {
    Tail(item, more);
  }

  lemma BodyStatements()
    ensures ItemStatements(SHELL) == SECTION
  {
    TwoItems(Leaf(MARK), Leaf(INNER));
    assert ItemStatements(SUB) == [OpenSection([Name("inner")])] + ([MARK] + [INNER] + [CloseSection]);
    ItemsCons(Leaf(PROMPT), [Leaf(GREETING)] + [SUB, Leaf(LAST)]);
    ItemsCons(Leaf(GREETING), [SUB, Leaf(LAST)]);
    TwoItems(SUB, Leaf(LAST));
    assert BODY == [Leaf(PROMPT)] + ([Leaf(GREETING)] + [SUB, Leaf(LAST)]);
    assert Statements(BODY) == [PROMPT] + ([GREETING] + (ItemStatements(SUB) + [LAST]));
  }

  lemma SampleStatements()
    ensures DocumentStatements(SAMPLE) == STATEMENTS
  {
    BodyStatements();
    TwoItems(HEAD, SHELL);
    assert ItemStatements(HEAD) == [OpenHeader] + (FIELDS + [CloseHeader]);
    assert STATEMENTS == ([OpenHeader] + (FIELDS + [CloseHeader])) + SECTION;
  }

  // ---------------------------------------------------------------- its data

  lemma FitsCons(item: Item, more: seq<Item>, nested: bool, headerDefined: bool)
    ensures ItemsFit([item] + more, nested, headerDefined) <==>
              ItemFits(item, nested, headerDefined) && ItemsFit(more, nested, headerDefined || item.HeaderItem?)
  {
    Tail(item, more);
  }

  lemma PairsCons(item: Item, more: seq<Item>, path: string, outer: string, own: Option<string>)
    ensures Pairs([item] + more, path, outer, own) ==
            PairsOfItem(item, path, outer, own) + Pairs(more, path, outer, OwnOfItem(item, own))
  {
    Tail(item, more);
  }

  lemma FieldCons(s: Statement, more: seq<Statement>, given: set<HeaderKey>, key: HeaderKey)
    requires WellFormed(s, true) && s.Bind? && KeyOf(NameText(s.name)) == Some(key) && key !in given
    ensures FieldsFit([s] + more, given) <==> FieldsFit(more, given + {key})
    ensures FieldKeys([s] + more) == {key} + FieldKeys(more)
  {
    Tail(s, more);
    OneField(s);
    assert ([s] + more)[..1] == [s] + [];
    assert FieldKeys([s] + []) == {key};
  }

  lemma LeavesFit()
    ensures ItemFits(Leaf(GREETING), true, true) && ItemFits(Leaf(LAST), true, true) && ItemFits(Leaf(INNER), true, true)
    ensures ItemFits(Leaf(PROMPT), true, true) && ItemFits(Leaf(MARK), true, true)
  {
  }

  lemma WellFormedSub()
    ensures ItemFits(SUB, true, true)
  {
    LeavesFit();
    FitsCons(Leaf(INNER), [], true, true);
    FitsCons(Leaf(MARK), [Leaf(INNER)] + [], true, true);
    assert [Leaf(MARK)] + ([Leaf(INNER)] + []) == [Leaf(MARK), Leaf(INNER)];
  }

  lemma EndFits()
    ensures ItemsFit([SUB, Leaf(LAST)], true, true)
  {
    WellFormedSub();
    LeavesFit();
    FitsCons(Leaf(LAST), [], true, true);
    FitsCons(SUB, [Leaf(LAST)] + [], true, true);
    assert [SUB, Leaf(LAST)] == [SUB] + ([Leaf(LAST)] + []);
  }

  lemma WellFormedBody()
    ensures ItemFits(SHELL, false, true)
  {
    EndFits();
    LeavesFit();
    var end := [SUB, Leaf(LAST)];
    FitsCons(Leaf(GREETING), end, true, true);
    FitsCons(Leaf(PROMPT), [Leaf(GREETING)] + end, true, true);
    assert BODY == [Leaf(PROMPT)] + ([Leaf(GREETING)] + end);
  }

  lemma LastFields()
    ensures var last := [VERSION] + ([AUTHORS] + []);
            FieldsFit(last, {NameKey, LocaleKey}) && FieldKeys(last) == {VersionKey, AuthorsKey}
  {
    OnePart("version");
    OnePart("authors");
    assert {NameKey, LocaleKey} + {VersionKey} == {NameKey, LocaleKey, VersionKey};
    FieldCons(VERSION, [AUTHORS] + [], {NameKey, LocaleKey}, VersionKey);
    FieldCons(AUTHORS, [], {NameKey, LocaleKey, VersionKey}, AuthorsKey);
  }

  lemma WellFormedFields()
    ensures FieldsFit(FIELDS, {}) && FieldKeys(FIELDS) == ALL_KEYS
  {
    OnePart("name");
    OnePart("locale");
    LastFields();
    var last := [VERSION] + ([AUTHORS] + []);
    assert {} + {NameKey} == {NameKey} && {NameKey} + {LocaleKey} == {NameKey, LocaleKey};
    FieldCons(NAME, [LOCALE] + last, {}, NameKey);
    FieldCons(LOCALE, last, {NameKey}, LocaleKey);
    assert FIELDS == [NAME] + ([LOCALE] + last);
  }

  lemma SampleFits()
    ensures WellFormedDocument(SAMPLE)
  {
    WellFormedFields();
    WellFormedBody();
    FitsCons(SHELL, [], false, true);
    FitsCons(HEAD, [SHELL] + [], false, false);
    assert SAMPLE.items == [HEAD] + ([SHELL] + []);
  }

  lemma InnerPairs()
    ensures PairsOfItem(SUB, "shell.", "", Some("> ")) == [("shell.inner.bye", "> * Bye")]
  {
    OnePart("inner");
    OnePart("bye");
    OneLiteral("Bye");
    PairsCons(Leaf(INNER), [], "shell.inner.", "> ", Some("* "));
    PairsCons(Leaf(MARK), [Leaf(INNER)] + [], "shell.inner.", "> ", None);
    assert [Leaf(MARK)] + ([Leaf(INNER)] + []) == [Leaf(MARK), Leaf(INNER)];
    assert "shell." + ("inner" + ".") == "shell.inner.";
    assert "shell.inner." + "bye" == "shell.inner.bye" && "" + "> " == "> " && "> " + "* " + "Bye" == "> * Bye";
  }

  lemma LastPairs()
    ensures PairsOfItem(Leaf(LAST), "shell.", "", Some("> ")) == [("shell.end", "> End")]
  {
    OnePart("end");
    OneLiteral("End");
    assert "shell." + "end" == "shell.end" && "" + "> " + "End" == "> End";
  }

  lemma GreetingPairs()
    ensures PairsOfItem(Leaf(GREETING), "shell.", "", Some("> ")) == [("shell.hello.short", "> Hi there")]
  {
    OnePart("short");
    TwoLiterals("Hi ", "there");
    assert GREETING.name[1..] == [Point, Name("short")] && GREETING.name[1..][1..] == [Name("short")];
    assert NameText(GREETING.name) == "hello" + ("." + "short");
    assert "shell." + ("hello" + ("." + "short")) == "shell.hello.short";
    assert "" + "> " + ("Hi " + "there") == "> Hi there";
  }

  /** The translations of the sample: each scope's prefix behind those around it, and in that scope only. */
  const PAIRS := [("shell.hello.short", "> Hi there"), ("shell.inner.bye", "> * Bye"), ("shell.end", "> End")]

  lemma ShellPairs()
    ensures PairsOfItem(SHELL, "", "", None) == PAIRS
  {
    OnePart("shell");
    InnerPairs();
    GreetingPairs();
    LastPairs();
    var path := "shell.";
    var end := [Leaf(LAST)] + [];
    PairsCons(Leaf(LAST), [], path, "", Some("> "));
    PairsCons(SUB, end, path, "", Some("> "));
    PairsCons(Leaf(GREETING), [SUB] + end, path, "", Some("> "));
    PairsCons(Leaf(PROMPT), [Leaf(GREETING)] + ([SUB] + end), path, "", None);
    assert BODY == [Leaf(PROMPT)] + ([Leaf(GREETING)] + ([SUB] + end));
    assert "" + ("shell" + ".") == path && "" + "" == "";
  }

  /** A field that is no `STRBEGIN` leaves the prefix, and sets its entry. */
  lemma DataCons(s: Statement, key: HeaderKey, more: seq<Statement>, data: LangData)
    requires s.Bind? && KeyOf(NameText(s.name)) == Some(key)
    ensures FieldsData([s] + more, None, data) == FieldsData(more, None, SetHeader(data, key, "", s.value))
    ensures OwnOfFields([s] + more, None) == OwnOfFields(more, None)
  {
    Tail(s, more);
  }

  /** The data the header gives, in order. */
  const NAMED := NOTHING.(name := "English")
  const LOCATED := NAMED.(locale := "en_US")
  const VERSIONED := LOCATED.(version := Version(1, 2, 3))
  const SIGNED := VERSIONED.(authors := ["Ada", "Bobby"])

  lemma Entries()
    ensures SetHeader(NOTHING, NameKey, "", NAME.value) == NAMED
    ensures SetHeader(NAMED, LocaleKey, "", LOCALE.value) == LOCATED
    ensures SetHeader(LOCATED, VersionKey, "", VERSION.value) == VERSIONED
    ensures SetHeader(VERSIONED, AuthorsKey, "", AUTHORS.value) == SIGNED
  {
    OneLiteral("English");
    TwoLiterals("en", "_US");
    OneLiteral("Ada");
    TwoLiterals("Bob", "by");
    var items := AUTHORS.value.items;
    PrefixedItems("", items);
    assert Prefixed("", items) == ["" + "Ada", "" + ("Bob" + "by")];
    assert "" + "English" == "English" && "" + ("en" + "_US") == "en_US" && "" + "Ada" == "Ada" && "" + ("Bob" + "by") == "Bobby";
  }

  lemma HeadData()
    ensures OwnOfFields(FIELDS, None) == None && FieldsData(FIELDS, None, NOTHING) == SIGNED
  {
    OnePart("name");
    OnePart("locale");
    OnePart("version");
    OnePart("authors");
    Entries();
    DataCons(NAME, NameKey, [LOCALE] + ([VERSION] + ([AUTHORS] + [])), NOTHING);
    DataCons(LOCALE, LocaleKey, [VERSION] + ([AUTHORS] + []), NAMED);
    DataCons(VERSION, VersionKey, [AUTHORS] + [], LOCATED);
    DataCons(AUTHORS, AuthorsKey, [], VERSIONED);
    assert FIELDS == [NAME] + ([LOCALE] + ([VERSION] + ([AUTHORS] + [])));
  }

  lemma SamplePairs()
    ensures Pairs(SAMPLE.items, "", "", None) == PAIRS
  {
    ShellPairs();
    HeadData();
    PairsCons(SHELL, [], "", "", None);
    PairsCons(HEAD, [SHELL] + [], "", "", None);
    assert SAMPLE.items == [HEAD] + ([SHELL] + []);
  }

  lemma SampleTranslations()
    ensures FirstWins(map[], PAIRS) ==
            map["shell.hello.short" := "> Hi there", "shell.inner.bye" := "> * Bye", "shell.end" := "> End"]
  {
    var empty: map<string, string> := map[];
    assert PAIRS[1..] == [("shell.inner.bye", "> * Bye"), ("shell.end", "> End")];
    assert PAIRS[1..][1..] == [("shell.end", "> End")] && PAIRS[1..][1..][1..] == [];
    assert "shell.hello.short"[6] == 'h' && "shell.inner.bye"[6] == 'i' && "shell.end"[6] == 'e';
    assert FirstWins(empty, PAIRS) == FirstWins(empty["shell.hello.short" := "> Hi there"], PAIRS[1..]);
  }

  lemma SampleMeaning()
    ensures Meaning(SAMPLE, NOTHING) == SIGNED.(translations :=
              map["shell.hello.short" := "> Hi there", "shell.inner.bye" := "> * Bye", "shell.end" := "> End"])
  {
    SamplePairs();
    HeadData();
    SampleTranslations();
    var items := SAMPLE.items;
    assert items[1..] == [SHELL];
    NoHeader(items[1..], None, SIGNED);
    assert HeaderData(items, None, NOTHING) == SIGNED;
  }

  /** These tokens are accepted, and give these data. */
  lemma Sample()
    ensures var run := RunStream(Initial(NOTHING), Stream(TOKENS, true));
            && run.0
            && run.1.data == LangData(map["shell.hello.short" := "> Hi there", "shell.inner.bye" := "> * Bye", "shell.end" := "> End"],
                                      "English", "en_US", ["Ada", "Bobby"], Version(1, 2, 3))
  {
    SampleFits();
    SampleStatements();
    HeaderTokens();
    SampleMeaning();
    assert DocumentTokens(SAMPLE) == TOKENS;
    RunIsMeaning(TOKENS, true, NOTHING);
  }
}
