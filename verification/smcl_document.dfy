/** SMCL documents as trees, what they mean, and the theorem that the parser accepts exactly the texts that spell
    a well-formed document and yields its meaning. */
module SmclDocument {
  import opened Options
  import opened Seqs
  import opened SmclLexer
  import opened SmclParser
  import opened SmclStatement
  import opened SmclToken

  // ---------------------------------------------------------------- documents

  /** A leaf is an empty statement, a prefix or a binding. */
  datatype Item =
    | Leaf(statement: Statement)
    | SectionItem(name: seq<Part>, body: seq<Item>)
    | HeaderItem(fields: seq<Statement>)

  /** The items, and the fields of a header that is still open at the end of the text, if there is one. */
  datatype Document = Document(items: seq<Item>, unclosed: Option<seq<Statement>>)

  predicate IsLeaf(s: Statement) {
    s.Empty? || s.Prefix? || s.Bind?
  }

  function FieldKeys(fields: seq<Statement>): set<HeaderKey> {
    if fields == [] then {}
    else
      var more := FieldKeys(fields[1..]);
      if fields[0].Bind? && KeyOf(NameText(fields[0].name)).Some? then {KeyOf(NameText(fields[0].name)).value} + more
      else more
  }

  /** Fields of a header: leaves with a known key and a value of its form, no key being given twice or in `given`. */
  predicate FieldsFit(fields: seq<Statement>, given: set<HeaderKey>) {
    fields != [] ==>
      && IsLeaf(fields[0]) && WellFormed(fields[0], true)
      && FieldKeys(fields[..1]) !! given
      && FieldsFit(fields[1..], given + FieldKeys(fields[..1]))
  }

  predicate HasHeader(items: seq<Item>) {
    items != [] && (items[0].HeaderItem? || HasHeader(items[1..]))
  }

  predicate ItemFits(item: Item, nested: bool, headerDefined: bool)
    decreases item
  {
    match item
    case Leaf(s) => IsLeaf(s) && WellFormed(s, false)
    case SectionItem(name, body) => WellNamed(name) && ItemsFit(body, true, headerDefined)
    case HeaderItem(fields) => !nested && !headerDefined && FieldsFit(fields, {}) && FieldKeys(fields) == ALL_KEYS
  }

  /** A header stands at the top level only, at most once, and gives all four keys. */
  predicate ItemsFit(items: seq<Item>, nested: bool, headerDefined: bool)
    decreases items
  {
    items != [] ==>
      && ItemFits(items[0], nested, headerDefined)
      && ItemsFit(items[1..], nested, headerDefined || items[0].HeaderItem?)
  }

  /** A document has exactly one header; only a header at the very end may be left open. */
  predicate WellFormedDocument(doc: Document) {
    && ItemsFit(doc.items, false, false)
    && (if doc.unclosed.Some? then !HasHeader(doc.items) && FieldsFit(doc.unclosed.value, {}) else HasHeader(doc.items))
  }

  // ---------------------------------------------------------------- meaning

  function FirstOf(own: Option<string>, text: string): Option<string> {
    if own.Some? then own else Some(text)
  }

  /** The prefix a header leaves in force at the top level. */
  function OwnOfFields(fields: seq<Statement>, own: Option<string>): Option<string> {
    if fields == [] then own
    else OwnOfFields(fields[1..], if fields[0].Prefix? then FirstOf(own, fields[0].text) else own)
  }

  function OwnOfItem(item: Item, own: Option<string>): Option<string> {
    match item
    case Leaf(Prefix(text)) => FirstOf(own, text)
    case HeaderItem(fields) => OwnOfFields(fields, own)
    case _ => own
  }

  /** The prefix of the enclosing scope after some of its items: the first one given, which sections inside it do
      not touch. */
  function Own(items: seq<Item>, own: Option<string>): Option<string> {
    if items == [] then own else Own(items[1..], OwnOfItem(items[0], own))
  }

  /** The translations an item gives, in order: `path` is the names of the enclosing sections, `outer` the prefixes
      of the scopes around the item's own, `own` the prefix of its own scope so far. */
  function PairsOfItem(item: Item, path: string, outer: string, own: Option<string>): seq<(string, string)>
    decreases item
  {
    match item
    case Leaf(Bind(name, Text(literals))) => [(path + NameText(name), outer + own.GetOr("") + Concat(literals))]
    case SectionItem(name, body) => Pairs(body, path + (NameText(name) + "."), outer + own.GetOr(""), None)
    case _ => []
  }

  function Pairs(items: seq<Item>, path: string, outer: string, own: Option<string>): seq<(string, string)>
    decreases items
  {
    if items == [] then []
    else PairsOfItem(items[0], path, outer, own) + Pairs(items[1..], path, outer, OwnOfItem(items[0], own))
  }

  /** Adding pairs to a map, each key keeping the first value it gets. */
  function FirstWins(m: map<string, string>, pairs: seq<(string, string)>): map<string, string>
    decreases |pairs|
  {
    if pairs == [] then m else FirstWins(Insert(m, pairs[0].0, pairs[0].1), pairs[1..])
  }

  /** The name, locale, version and authors the fields give; every text starts with the prefix in force. */
  function FieldsData(fields: seq<Statement>, own: Option<string>, data: LangData): LangData {
    if fields == [] then data
    else
      match fields[0]
      case Prefix(text) => FieldsData(fields[1..], FirstOf(own, text), data)
      case Bind(name, value) =>
        var key := KeyOf(NameText(name));
        FieldsData(fields[1..], own, if key.Some? then SetHeader(data, key.value, own.GetOr(""), value) else data)
      case _ => FieldsData(fields[1..], own, data)
  }

  function HeaderData(items: seq<Item>, own: Option<string>, data: LangData): LangData {
    if items == [] then data
    else
      HeaderData(items[1..], OwnOfItem(items[0], own),
                 if items[0].HeaderItem? then FieldsData(items[0].fields, own, data) else data)
  }

  /** What some items of a scope add to the language data. */
  function ItemsData(items: seq<Item>, path: string, outer: string, own: Option<string>, data: LangData): LangData {
    var translations := FirstWins(data.translations, Pairs(items, path, outer, own));
    HeaderData(items, own, data).(translations := translations)
  }

  /** The language data of a document, added to the data there were before. */
  function Meaning(doc: Document, data: LangData): LangData {
    var read := ItemsData(doc.items, "", "", None, data);
    if doc.unclosed.Some? then FieldsData(doc.unclosed.value, Own(doc.items, None), read) else read
  }

  predicate Binds(pairs: seq<(string, string)>, key: string, i: int) {
    0 <= i < |pairs| && pairs[i].0 == key
  }

  /** A key of the resulting map was there before or is one of the pairs; it has the value it had before, or else
      that of the first pair with this key. */
  lemma {:induction false} FirstWinsMeans(m: map<string, string>, pairs: seq<(string, string)>, key: string)
    ensures key in FirstWins(m, pairs) <==> key in m || exists i :: Binds(pairs, key, i)
    ensures key in m ==> FirstWins(m, pairs)[key] == m[key]
    ensures key in FirstWins(m, pairs) && key !in m ==>
              exists i :: Binds(pairs, key, i) && FirstWins(m, pairs)[key] == pairs[i].1
                          && forall j :: 0 <= j < i ==> !Binds(pairs, key, j)
    decreases |pairs|
  {
    if pairs != [] {
      var rest := pairs[1..];
      var next := Insert(m, pairs[0].0, pairs[0].1);
      FirstWinsMeans(next, rest, key);
      assert forall i :: 1 <= i < |pairs| ==> pairs[i] == rest[i - 1];
      if pairs[0].0 == key {
        assert Binds(pairs, key, 0);
      } else {
        assert forall i {:trigger Binds(rest, key, i)} :: Binds(rest, key, i) <==> i >= 0 && Binds(pairs, key, i + 1);
        if i :| Binds(pairs, key, i) {
          assert Binds(rest, key, i - 1);
        }
        if key in FirstWins(m, pairs) && key !in m {
          var i :| Binds(rest, key, i) && FirstWins(next, rest)[key] == rest[i].1
                   && forall j :: 0 <= j < i ==> !Binds(rest, key, j);
          assert Binds(pairs, key, i + 1);
          forall j | 0 <= j < i + 1 ensures !Binds(pairs, key, j) {
            assert j > 0 ==> !Binds(rest, key, j - 1);
          }
        }
      }
    }
  }

  lemma {:induction false} FirstWinsAppend(m: map<string, string>, a: seq<(string, string)>, b: seq<(string, string)>)
    ensures FirstWins(m, a + b) == FirstWins(FirstWins(m, a), b)
    decreases |a|
  {
    if a == [] {
      assert a + b == b;
    } else {
      assert (a + b)[1..] == a[1..] + b;
      FirstWinsAppend(Insert(m, a[0].0, a[0].1), a[1..], b);
    }
  }

  // ---------------------------------------------------------------- statements of a document

  function ItemStatements(item: Item): seq<Statement>
    decreases item
  {
    match item
    case Leaf(s) => [s]
    case SectionItem(name, body) => [OpenSection(name)] + (Statements(body) + [CloseSection])
    case HeaderItem(fields) => [OpenHeader] + (fields + [CloseHeader])
  }

  function Statements(items: seq<Item>): seq<Statement>
    decreases items
  {
    if items == [] then [] else ItemStatements(items[0]) + Statements(items[1..])
  }

  function DocumentStatements(doc: Document): seq<Statement> {
    Statements(doc.items) + (if doc.unclosed.Some? then [OpenHeader] + doc.unclosed.value else [])
  }

  function AllTokens(statements: seq<Statement>): seq<Token> {
    if statements == [] then [] else StatementTokens(statements[0]) + AllTokens(statements[1..])
  }

  function DocumentTokens(doc: Document): seq<Token> {
    AllTokens(DocumentStatements(doc))
  }

  /** Executing statements one after the other; each must be well formed where it stands. */
  function ExecAll(st: State, statements: seq<Statement>): (r: Option<State>)
    requires st.Valid()
    ensures r.Some? ==> r.value.Valid()
    decreases |statements|
  {
    if statements == [] then Some(st)
    else if !WellFormed(statements[0], st.inHeader) then None
    else
      match Exec(st, statements[0])
      case None => None
      case Some(next) => ExecAll(next, statements[1..])
  }

  lemma {:induction false} ExecAppend(st: State, a: seq<Statement>, b: seq<Statement>)
    requires st.Valid()
    ensures ExecAll(st, a + b) == if ExecAll(st, a).None? then None else ExecAll(ExecAll(st, a).value, b)
    decreases |a|
  {
    if a == [] {
      assert a + b == b;
    } else {
      assert (a + b)[1..] == a[1..] + b;
      if WellFormed(a[0], st.inHeader) && Exec(st, a[0]).Some? {
        ExecAppend(Exec(st, a[0]).value, a[1..], b);
      }
    }
  }

  // ---------------------------------------------------------------- executing a document

  /** The state after the fields of a header. */
  function AfterFields(st: State, fields: seq<Statement>): State
    requires st.Valid() && st.inHeader
  {
    st.(prefixes := [OwnOfFields(fields, st.prefixes[0])],
        given := st.given + FieldKeys(fields),
        data := FieldsData(fields, st.prefixes[0], st.data))
  }

  lemma ExecField(st: State, s: Statement)
    requires st.Valid() && st.inHeader && IsLeaf(s) && WellFormed(s, true)
    ensures FieldKeys([s]) !! st.given <==> Exec(st, s).Some?
    ensures FieldKeys([s]) !! st.given ==> Exec(st, s).value == AfterFields(st, [s])
  {
    var own := st.prefixes[0];
    assert st.prefixes == [own];
    assert JoinPrefixes(st.prefixes) == own.GetOr("") + JoinPrefixes([]) == own.GetOr("");
    OneField(s);
    match s
    case Empty =>
      assert st.given + FieldKeys([s]) == st.given;
      assert OwnOfFields([s], own) == OwnOfFields([s][1..], own);
      assert FieldsData([s], own, st.data) == FieldsData([s][1..], own, st.data);
    case Prefix(text) =>
      assert st.given + FieldKeys([s]) == st.given;
      assert OwnOfFields([s], own) == OwnOfFields([s][1..], FirstOf(own, text)) == FirstOf(own, text);
      assert FieldsData([s], own, st.data) == FieldsData([s][1..], FirstOf(own, text), st.data);
      assert st.prefixes[0 := Some(text)] == [Some(text)];
    case Bind(name, value) =>
      assert Path(st.sections) + NameText(name) == NameText(name);
      assert FormOf(name, true).Some?;
      var key := KeyOf(NameText(name)).value;
      assert FieldKeys([s]) == {key};
      assert OwnOfFields([s], own) == OwnOfFields([s][1..], own) == own;
      assert FieldsData([s], own, st.data) == FieldsData([s][1..], own, SetHeader(st.data, key, own.GetOr(""), value));
  }

  lemma {:induction false} ExecFields(st: State, fields: seq<Statement>)
    requires st.Valid() && st.inHeader
    requires forall i :: 0 <= i < |fields| ==> IsLeaf(fields[i])
    ensures ExecAll(st, fields) == if FieldsFit(fields, st.given) then Some(AfterFields(st, fields)) else None
    decreases |fields|
  {
    if fields == [] {
      assert st.prefixes == [st.prefixes[0]];
      assert st.given + {} == st.given;
    } else {
      var s := fields[0];
      assert fields[..1] == [s];
      if WellFormed(s, true) {
        ExecField(st, s);
        if FieldKeys([s]) !! st.given {
          ExecFields(AfterFields(st, [s]), fields[1..]);
          AfterFieldsCons(st, fields);
        }
      }
    }
  }

  lemma OneField(s: Statement)
    ensures [s][1..] == [] && FieldKeys([s][1..]) == {}
    ensures forall more: seq<Statement> :: FieldKeys([s] + more) == FieldKeys([s]) + FieldKeys(more)
  {
    forall more: seq<Statement>
      ensures FieldKeys([s] + more) == FieldKeys([s]) + FieldKeys(more)
    {
      Tail(s, more);
    }
  }

  lemma FieldsDataCons(fields: seq<Statement>, own: Option<string>, data: LangData)
    requires fields != []
    ensures FieldsData(fields, own, data) ==
            FieldsData(fields[1..], OwnOfFields([fields[0]], own), FieldsData([fields[0]], own, data))
  {
    var s := [fields[0]];
    assert s[1..] == [];
  }

  lemma AfterFieldsCons(st: State, fields: seq<Statement>)
    requires st.Valid() && st.inHeader && fields != []
    ensures AfterFields(AfterFields(st, [fields[0]]), fields[1..]) == AfterFields(st, fields)
  {
    var s := fields[0];
    OneField(s);
    Uncons(fields);
    var a, b := FieldKeys([s]), FieldKeys(fields[1..]);
    assert (st.given + a) + b == st.given + (a + b);
    assert OwnOfFields([s], st.prefixes[0]) == if s.Prefix? then FirstOf(st.prefixes[0], s.text) else st.prefixes[0];
    FieldsDataCons(fields, st.prefixes[0], st.data);
  }

  /** The state after some items of the innermost open scope. */
  function AfterItems(st: State, items: seq<Item>): State
    requires st.Valid()
  {
    var top := |st.sections|;
    var own := st.prefixes[top];
    var path := Path(st.sections);
    var outer := JoinPrefixes(st.prefixes[..top]);
    st.(prefixes := st.prefixes[top := Own(items, own)],
        headerDefined := st.headerDefined || HasHeader(items),
        given := if HasHeader(items) then ALL_KEYS else st.given,
        data := ItemsData(items, path, outer, own, st.data))
  }

  /** The header part of one item. */
  function OneHeader(item: Item, own: Option<string>, data: LangData): LangData {
    if item.HeaderItem? then FieldsData(item.fields, own, data) else data
  }

  lemma OneItem(item: Item, path: string, outer: string, own: Option<string>, data: LangData)
    ensures [item][1..] == [] && Own([item], own) == OwnOfItem(item, own) && HasHeader([item]) == item.HeaderItem?
    ensures Pairs([item], path, outer, own) == PairsOfItem(item, path, outer, own)
    ensures HeaderData([item], own, data) == OneHeader(item, own, data)
    ensures ItemsData([item], path, outer, own, data) ==
            OneHeader(item, own, data).(translations := FirstWins(data.translations, PairsOfItem(item, path, outer, own)))
  {
    var pairs := PairsOfItem(item, path, outer, own);
    assert pairs + [] == pairs;
  }

  lemma ItemsDataCons(items: seq<Item>, path: string, outer: string, own: Option<string>, data: LangData)
    requires items != []
    ensures ItemsData(items[1..], path, outer, OwnOfItem(items[0], own), ItemsData([items[0]], path, outer, own, data))
         == ItemsData(items, path, outer, own, data)
  {
    var item, rest := items[0], items[1..];
    var first, own' := PairsOfItem(item, path, outer, own), OwnOfItem(item, own);
    OneItem(item, path, outer, own, data);
    FirstWinsAppend(data.translations, first, Pairs(rest, path, outer, own'));
    HeaderDataTranslations(rest, own', OneHeader(item, own, data), FirstWins(data.translations, first));
  }

  lemma AfterItemsCons(st: State, items: seq<Item>)
    requires st.Valid() && !st.inHeader && items != []
    ensures AfterItems(AfterItems(st, [items[0]]), items[1..]) == AfterItems(st, items)
  {
    var top := |st.sections|;
    var own := st.prefixes[top];
    var path := Path(st.sections);
    var outer := JoinPrefixes(st.prefixes[..top]);
    OneItem(items[0], path, outer, own, st.data);
    var next := AfterItems(st, [items[0]]);
    assert next.prefixes[..top] == st.prefixes[..top];
    ItemsDataCons(items, path, outer, own, st.data);
  }

  lemma {:induction false} FieldsDataTranslations(fields: seq<Statement>, own: Option<string>, data: LangData, t: map<string, string>)
    ensures FieldsData(fields, own, data.(translations := t)) == FieldsData(fields, own, data).(translations := t)
    ensures FieldsData(fields, own, data).translations == data.translations
    decreases |fields|
  {
    if fields != [] {
      match fields[0]
      case Prefix(text) => FieldsDataTranslations(fields[1..], FirstOf(own, text), data, t);
      case Bind(name, value) =>
        var key := KeyOf(NameText(name));
        FieldsDataTranslations(fields[1..], own, if key.Some? then SetHeader(data, key.value, own.GetOr(""), value) else data, t);
      case _ => FieldsDataTranslations(fields[1..], own, data, t);
    }
  }

  lemma {:induction false} HeaderDataTranslations(items: seq<Item>, own: Option<string>, data: LangData, t: map<string, string>)
    ensures HeaderData(items, own, data.(translations := t)) == HeaderData(items, own, data).(translations := t)
    ensures HeaderData(items, own, data).translations == data.translations
    decreases |items|
  {
    if items != [] {
      if items[0].HeaderItem? {
        FieldsDataTranslations(items[0].fields, own, data, t);
        HeaderDataTranslations(items[1..], OwnOfItem(items[0], own), FieldsData(items[0].fields, own, data), t);
      } else {
        HeaderDataTranslations(items[1..], OwnOfItem(items[0], own), data, t);
      }
    }
  }

  lemma {:induction false} NoHeader(items: seq<Item>, own: Option<string>, data: LangData)
    requires !HasHeader(items)
    ensures HeaderData(items, own, data) == data
    decreases |items|
  {
    if items != [] {
      NoHeader(items[1..], OwnOfItem(items[0], own), data);
    }
  }

  lemma {:induction false} NestedHasNoHeader(items: seq<Item>, headerDefined: bool)
    requires ItemsFit(items, true, headerDefined)
    ensures !HasHeader(items)
    decreases |items|
  {
    if items != [] {
      NestedHasNoHeader(items[1..], headerDefined);
    }
  }

  /** Leaves are leaves, in the header as well. */
  predicate ItemShaped(item: Item)
    decreases item
  {
    match item
    case Leaf(s) => IsLeaf(s)
    case SectionItem(_, body) => Shaped(body)
    case HeaderItem(fields) => forall i :: 0 <= i < |fields| ==> IsLeaf(fields[i])
  }

  predicate Shaped(items: seq<Item>)
    decreases items
  {
    items != [] ==> ItemShaped(items[0]) && Shaped(items[1..])
  }

  /** Between statements, outside the header: nothing is given before the header. */
  ghost predicate Ready(st: State) {
    st.Valid() && !st.inHeader && (!st.headerDefined ==> st.given == {})
  }

  /** Executing the statements of some items succeeds exactly when the items fit, and then does what they mean. */
  lemma {:induction false} ExecItems(st: State, items: seq<Item>)
    requires Ready(st) && Shaped(items)
    ensures ExecAll(st, Statements(items)) ==
            if ItemsFit(items, st.sections != [], st.headerDefined) then Some(AfterItems(st, items)) else None
    decreases items, 0
  {
    if items == [] {
      var top := |st.sections|;
      assert st.prefixes[top := st.prefixes[top]] == st.prefixes;
    } else {
      var item := items[0];
      ExecItem(st, item);
      ExecAppend(st, ItemStatements(item), Statements(items[1..]));
      if ItemFits(item, st.sections != [], st.headerDefined) {
        OneItem(item, "", "", None, st.data);
        ExecItems(AfterItems(st, [item]), items[1..]);
        AfterItemsCons(st, items);
      }
    }
  }

  lemma {:induction false} ExecItem(st: State, item: Item)
    requires Ready(st) && ItemShaped(item)
    ensures ExecAll(st, ItemStatements(item)) ==
            if ItemFits(item, st.sections != [], st.headerDefined) then Some(AfterItems(st, [item])) else None
    decreases item, 0
  {
    match item
    case Leaf(s) => ExecLeaf(st, s);
    case SectionItem(name, body) => ExecSection(st, name, body);
    case HeaderItem(fields) => ExecHeader(st, fields);
  }

  lemma ExecOne(st: State, s: Statement)
    requires st.Valid()
    ensures ExecAll(st, [s]) == if WellFormed(s, st.inHeader) then Exec(st, s) else None
  {
    assert [s][1..] == [];
  }

  lemma JoinTop(st: State)
    requires st.Valid()
    ensures var top := |st.sections|;
            JoinPrefixes(st.prefixes) == JoinPrefixes(st.prefixes[..top]) + st.prefixes[top].GetOr("")
  {
    var top := |st.sections|;
    JoinSnoc(st.prefixes[..top], st.prefixes[top]);
    assert st.prefixes == st.prefixes[..top] + [st.prefixes[top]];
  }

  lemma ExecLeaf(st: State, s: Statement)
    requires Ready(st) && IsLeaf(s)
    ensures ExecAll(st, [s]) == if WellFormed(s, false) then Some(AfterItems(st, [Leaf(s)])) else None
  {
    var top := |st.sections|;
    var own := st.prefixes[top];
    var path, outer := Path(st.sections), JoinPrefixes(st.prefixes[..top]);
    ExecOne(st, s);
    OneItem(Leaf(s), path, outer, own, st.data);
    assert st.prefixes[top := own] == st.prefixes;
    if WellFormed(s, false) && s.Bind? {
      JoinTop(st);
      var pairs := PairsOfItem(Leaf(s), path, outer, own);
      assert pairs[1..] == [];
    }
  }

  lemma ExecHeader(st: State, fields: seq<Statement>)
    requires Ready(st) && ItemShaped(HeaderItem(fields))
    ensures ExecAll(st, ItemStatements(HeaderItem(fields))) ==
            if ItemFits(HeaderItem(fields), st.sections != [], st.headerDefined) then Some(AfterItems(st, [HeaderItem(fields)])) else None
  {
    var item := HeaderItem(fields);
    ExecAppend(st, [OpenHeader], fields + [CloseHeader]);
    ExecOne(st, OpenHeader);
    if st.sections == [] && !st.headerDefined {
      var open := Exec(st, OpenHeader).value;
      ExecAppend(open, fields, [CloseHeader]);
      ExecFields(open, fields);
      assert {} + FieldKeys(fields) == FieldKeys(fields);
      if FieldsFit(fields, {}) {
        ExecOne(AfterFields(open, fields), CloseHeader);
        HeaderAlone(st, fields);
      }
    }
  }

  lemma HeaderAlone(st: State, fields: seq<Statement>)
    requires Ready(st) && st.sections == [] && !st.headerDefined
    ensures AfterItems(st, [HeaderItem(fields)]) ==
            st.(prefixes := [OwnOfFields(fields, st.prefixes[0])], headerDefined := true, given := ALL_KEYS,
                data := FieldsData(fields, st.prefixes[0], st.data))
  {
    OneItem(HeaderItem(fields), "", "", st.prefixes[0], st.data);
    assert st.prefixes[..0] == [];
    FieldsDataTranslations(fields, st.prefixes[0], st.data, st.data.translations);
  }

  lemma {:induction false} ExecSection(st: State, name: seq<Part>, body: seq<Item>)
    requires Ready(st) && Shaped(body)
    ensures ExecAll(st, ItemStatements(SectionItem(name, body))) ==
            if ItemFits(SectionItem(name, body), st.sections != [], st.headerDefined)
            then Some(AfterItems(st, [SectionItem(name, body)])) else None
    decreases body, 1
  {
    ExecAppend(st, [OpenSection(name)], Statements(body) + [CloseSection]);
    ExecOne(st, OpenSection(name));
    if WellNamed(name) {
      var open := Exec(st, OpenSection(name)).value;
      ExecAppend(open, Statements(body), [CloseSection]);
      ExecItems(open, body);
      if ItemsFit(body, true, st.headerDefined) {
        ExecOne(AfterItems(open, body), CloseSection);
        SectionAlone(st, name, body);
      }
    }
  }

  lemma SectionAlone(st: State, name: seq<Part>, body: seq<Item>)
    requires Ready(st) && ItemsFit(body, true, st.headerDefined)
    ensures var open := Exec(st, OpenSection(name)).value;
            Exec(AfterItems(open, body), CloseSection) == Some(AfterItems(st, [SectionItem(name, body)]))
  {
    var open := Exec(st, OpenSection(name)).value;
    var top := |st.sections|;
    var own := st.prefixes[top];
    NestedHasNoHeader(body, st.headerDefined);
    NoHeader(body, None, st.data);
    PathSnoc(st.sections, NameText(name));
    JoinTop(st);
    var path, outer := Path(st.sections), JoinPrefixes(st.prefixes[..top]);
    OneItem(SectionItem(name, body), path, outer, own, st.data);
    assert open.prefixes[..top + 1] == st.prefixes;
    assert open.sections[..top] == st.sections;
    assert st.prefixes[top := own] == st.prefixes;
    assert AfterItems(open, body).prefixes[..top + 1] == st.prefixes;
  }

  // ---------------------------------------------------------------- documents and token streams

  /** Executing the statements of a document succeeds exactly when it is well formed up to its missing parts. */
  lemma ExecDocument(doc: Document, data: LangData)
    requires WellFormedDocument(doc)
    ensures var r := ExecAll(Initial(data), DocumentStatements(doc));
            r.Some? && r.value.sections == [] && r.value.headerDefined && r.value.data == Meaning(doc, data)
  {
    var st := Initial(data);
    var tail := if doc.unclosed.Some? then [OpenHeader] + doc.unclosed.value else [];
    FitIsShaped(doc.items, false, false);
    ExecItems(st, doc.items);
    ExecAppend(st, Statements(doc.items), tail);
    var next := AfterItems(st, doc.items);
    assert st.prefixes[..0] == [];
    if doc.unclosed.Some? {
      var fields := doc.unclosed.value;
      ExecAppend(next, [OpenHeader], fields);
      ExecOne(next, OpenHeader);
      FitIsLeaves(fields, {});
      ExecFields(Exec(next, OpenHeader).value, fields);
    }
  }

  lemma {:induction false} FitIsLeaves(fields: seq<Statement>, given: set<HeaderKey>)
    requires FieldsFit(fields, given)
    ensures forall i :: 0 <= i < |fields| ==> IsLeaf(fields[i])
    decreases |fields|
  {
    if fields != [] {
      FitIsLeaves(fields[1..], given + FieldKeys(fields[..1]));
      assert forall i :: 1 <= i < |fields| ==> fields[i] == fields[1..][i - 1];
    }
  }

  lemma {:induction false} FitIsShaped(items: seq<Item>, nested: bool, headerDefined: bool)
    requires ItemsFit(items, nested, headerDefined)
    ensures Shaped(items)
    decreases items
  {
    if items != [] {
      match items[0] {
        case Leaf(_) =>
        case SectionItem(_, body) => FitIsShaped(body, true, headerDefined);
        case HeaderItem(fields) => FitIsLeaves(fields, {});
      }
      FitIsShaped(items[1..], nested, headerDefined || items[0].HeaderItem?);
    }
  }

  lemma {:induction false} RunTokens(st: State, statements: seq<Statement>, ok: bool)
    requires st.Valid() && ExecAll(st, statements).Some?
    ensures var last := ExecAll(st, statements).value;
            RunStream(st, Stream(AllTokens(statements), ok)) == (ok && last.sections == [] && last.headerDefined, last)
    decreases |statements|
  {
    if statements != [] {
      var rest := AllTokens(statements[1..]);
      ReadStatementTokens(statements[0], st.inHeader, rest);
      assert AllTokens(statements) != [];
      RunTokens(Exec(st, statements[0]).value, statements[1..], ok);
    }
  }

  /** An accepted stream is the tokens of statements that execute, one after the other, to its last state. */
  lemma {:induction false} TokensRun(st: State, ahead: Stream) returns (statements: seq<Statement>)
    requires st.Valid() && RunStream(st, ahead).0
    ensures ahead.ok && AllTokens(statements) == ahead.tokens
    ensures ExecAll(st, statements) == Some(RunStream(st, ahead).1)
    ensures RunStream(st, ahead).1.sections == [] && RunStream(st, ahead).1.headerDefined
    decreases |ahead.tokens|
  {
    if ahead.tokens == [] {
      statements := [];
    } else {
      TokensReadStatement(ahead.tokens, st.inHeader);
      var (s, rest) := ReadStatement(ahead.tokens, st.inHeader).value;
      var more := TokensRun(Exec(st, s).value, Stream(rest, ahead.ok));
      statements := [s] + more;
      Tail(s, more);
    }
  }

  lemma {:induction false} TakeLeaves(statements: seq<Statement>) returns (fields: seq<Statement>, rest: seq<Statement>)
    ensures statements == fields + rest
    ensures forall i :: 0 <= i < |fields| ==> IsLeaf(fields[i])
    ensures rest != [] ==> !IsLeaf(rest[0])
    decreases |statements|
  {
    if statements != [] && IsLeaf(statements[0]) {
      var more;
      more, rest := TakeLeaves(statements[1..]);
      fields := [statements[0]] + more;
      Uncons(statements);
    } else {
      fields, rest := [], statements;
    }
  }

  /** Statements that execute to a state with no open section are items, up to the end, a closing statement of an
      enclosing section, or a header that is still open. */
  lemma {:induction false} Grow(st: State, statements: seq<Statement>) returns (items: seq<Item>, rest: seq<Statement>)
    requires Ready(st) && ExecAll(st, statements).Some? && ExecAll(st, statements).value.sections == []
    ensures Shaped(items) && statements == Statements(items) + rest
    ensures rest == [] || rest[0] == CloseSection
            || (st.sections == [] && rest[0] == OpenHeader && forall i :: 1 <= i < |rest| ==> IsLeaf(rest[i]))
    decreases |statements|, 0
  {
    if statements == [] || statements[0] == CloseSection {
      items, rest := [], statements;
      return;
    }
    Uncons(statements);
    var s, tail := statements[0], statements[1..];
    if IsLeaf(s) {
      ExecLeaf(st, s);
      ExecOne(st, s);
      OneItem(Leaf(s), "", "", None, st.data);
      var more;
      more, rest := Grow(Exec(st, s).value, tail);
      items := [Leaf(s)] + more;
      ConsItem(Leaf(s), more, rest);
    } else if s.OpenSection? {
      items, rest := GrowSection(st, s.name, tail);
    } else {
      items, rest := GrowHeader(st, tail);
    }
  }

  lemma ConsItem(item: Item, items: seq<Item>, rest: seq<Statement>)
    requires ItemShaped(item) && Shaped(items)
    ensures Shaped([item] + items)
    ensures Statements([item] + items) + rest == ItemStatements(item) + (Statements(items) + rest)
  {
    Tail(item, items);
    Assoc(ItemStatements(item), Statements(items), rest);
  }

  lemma {:induction false} GrowSection(st: State, name: seq<Part>, tail: seq<Statement>) returns (items: seq<Item>, rest: seq<Statement>)
    requires Ready(st) && ExecAll(st, [OpenSection(name)] + tail).Some? && ExecAll(st, [OpenSection(name)] + tail).value.sections == []
    ensures Shaped(items) && [OpenSection(name)] + tail == Statements(items) + rest
    ensures rest == [] || rest[0] == CloseSection
            || (st.sections == [] && rest[0] == OpenHeader && forall i :: 1 <= i < |rest| ==> IsLeaf(rest[i]))
    decreases |tail|, 1
  {
    Tail(OpenSection(name), tail);
    var open := Exec(st, OpenSection(name)).value;
    var body, r := Grow(open, tail);
    ExecItems(open, body);
    ExecAppend(open, Statements(body), r);
    assert r != [] && r[0] == CloseSection;
    SectionAlone(st, name, body);
    var item := SectionItem(name, body);
    OneItem(item, "", "", None, st.data);
    NestedHasNoHeader(body, st.headerDefined);
    Uncons(r);
    var more;
    more, rest := Grow(AfterItems(st, [item]), r[1..]);
    items := [item] + more;
    ConsItem(item, more, rest);
    Assoc([OpenSection(name)], Statements(body) + [CloseSection], Statements(more) + rest);
    Assoc(Statements(body), [CloseSection], Statements(more) + rest);
  }

  lemma {:induction false} GrowHeader(st: State, tail: seq<Statement>) returns (items: seq<Item>, rest: seq<Statement>)
    requires Ready(st) && ExecAll(st, [OpenHeader] + tail).Some? && ExecAll(st, [OpenHeader] + tail).value.sections == []
    ensures Shaped(items) && [OpenHeader] + tail == Statements(items) + rest
    ensures rest == [] || rest[0] == CloseSection
            || (st.sections == [] && rest[0] == OpenHeader && forall i :: 1 <= i < |rest| ==> IsLeaf(rest[i]))
    decreases |tail|, 1
  {
    Tail(OpenHeader, tail);
    var open := Exec(st, OpenHeader).value;
    var fields, r := TakeLeaves(tail);
    ExecFields(open, fields);
    ExecAppend(open, fields, r);
    if r == [] {
      assert fields + [] == fields;
      items, rest := [], [OpenHeader] + tail;
      assert [] + rest == rest;
      return;
    }
    var inside := AfterFields(open, fields);
    assert r[0] == CloseHeader;
    assert {} + FieldKeys(fields) == FieldKeys(fields);
    HeaderAlone(st, fields);
    var item := HeaderItem(fields);
    OneItem(item, "", "", None, st.data);
    Uncons(r);
    var more;
    more, rest := Grow(AfterItems(st, [item]), r[1..]);
    items := [item] + more;
    ConsItem(item, more, rest);
    Assoc([OpenHeader], fields + [CloseHeader], Statements(more) + rest);
    Assoc(fields, [CloseHeader], Statements(more) + rest);
  }

  /** An accepted token stream is the tokens of a well-formed document. */
  lemma DocumentOf(tokens: seq<Token>, data: LangData) returns (doc: Document)
    requires RunStream(Initial(data), Stream(tokens, true)).0
    ensures WellFormedDocument(doc) && DocumentTokens(doc) == tokens
  {
    var st := Initial(data);
    var statements := TokensRun(st, Stream(tokens, true));
    var items, rest := Grow(st, statements);
    ExecItems(st, items);
    ExecAppend(st, Statements(items), rest);
    var next := AfterItems(st, items);
    if rest == [] {
      doc := Document(items, None);
    } else {
      assert rest[0] == OpenHeader;
      Uncons(rest);
      var fields := rest[1..];
      assert forall i :: 0 <= i < |fields| ==> fields[i] == rest[i + 1];
      ExecFields(Exec(next, OpenHeader).value, fields);
      doc := Document(items, Some(fields));
    }
  }

  /** The parser's semantics accept exactly the token sequences of well-formed documents, and give their meaning. */
  lemma RunIsMeaning(tokens: seq<Token>, ok: bool, data: LangData)
    ensures RunStream(Initial(data), Stream(tokens, ok)).0 <==>
              ok && exists doc :: WellFormedDocument(doc) && DocumentTokens(doc) == tokens
    ensures forall doc :: WellFormedDocument(doc) && DocumentTokens(doc) == tokens ==>
              RunStream(Initial(data), Stream(tokens, ok)).1.data == Meaning(doc, data)
  {
    var run := RunStream(Initial(data), Stream(tokens, ok));
    if run.0 {
      var _ := TokensRun(Initial(data), Stream(tokens, ok));
      var doc := DocumentOf(tokens, data);
    }
    forall doc | WellFormedDocument(doc) && DocumentTokens(doc) == tokens
      ensures run.1.data == Meaning(doc, data) && (ok ==> run.0)
    {
      ExecDocument(doc, data);
      RunTokens(Initial(data), DocumentStatements(doc), ok);
    }
  }

  // ---------------------------------------------------------------- texts

  /** `text` spells `doc`: its lexemes in order, any blanks between them that the lexer needs or allows. */
  ghost predicate Writes(text: string, doc: Document) {
    exists pieces, trail :: Spells(text, Stream(DocumentTokens(doc), true), pieces, trail)
  }

  /** Printing a well-formed document with single blanks gives a text that spells it. */
  lemma PrintWrites(doc: Document)
    requires forall t :: t in DocumentTokens(doc) ==> Printable(t)
    ensures Writes(Print(DocumentTokens(doc)), doc)
  {
    LexPrint(DocumentTokens(doc));
    LexExactly(Print(DocumentTokens(doc)), Stream(DocumentTokens(doc), true));
  }
}
