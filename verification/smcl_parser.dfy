/** The class `SMCLParser`: a loop over the lexer's tokens that keeps a depth, the open section names, a map from
    depth to prefix and a byte of header flags. Every method is proved against the statement semantics of
    `SmclStatement`, whose state keeps a plain stack of optional prefixes and a set of header keys. */
module SmclParser {
  import opened Options
  import opened Seqs
  import opened SmclLexer
  import opened SmclStatement
  import opened SmclToken
  import opened Versions

  // ---------------------------------------------------------------- header flags

  const NAME_FLAG: bv8 := 0x80
  const LOCALE_FLAG: bv8 := 0x40
  const VERSION_FLAG: bv8 := 0x20
  const AUTHORS_FLAG: bv8 := 0x10

  function FlagOf(key: HeaderKey): bv8 {
    match key
    case NameKey => NAME_FLAG
    case LocaleKey => LOCALE_FLAG
    case VersionKey => VERSION_FLAG
    case AuthorsKey => AUTHORS_FLAG
  }

  function KeysOf(flags: bv8): set<HeaderKey> {
    set k | k in ALL_KEYS && flags & FlagOf(k) != 0
  }

  lemma AddFlag(flags: bv8, key: HeaderKey)
    ensures KeysOf(flags | FlagOf(key)) == KeysOf(flags) + {key}
  {
    forall k: HeaderKey
      ensures (flags | FlagOf(key)) & FlagOf(k) != 0 <==> flags & FlagOf(k) != 0 || k == key
    {
      FlagBits(flags, key, k);
    }
    assert key in ALL_KEYS;
  }

  lemma FlagBits(flags: bv8, key: HeaderKey, k: HeaderKey)
    ensures (flags | FlagOf(key)) & FlagOf(k) != 0 <==> flags & FlagOf(k) != 0 || k == key
  {
    match key
    case NameKey => match k { case _ => }
    case LocaleKey => match k { case _ => }
    case VersionKey => match k { case _ => }
    case AuthorsKey => match k { case _ => }
  }

  lemma AllFlags(flags: bv8)
    ensures KeysOf(flags) == ALL_KEYS <==>
              flags & NAME_FLAG != 0 && flags & LOCALE_FLAG != 0 && flags & VERSION_FLAG != 0 && flags & AUTHORS_FLAG != 0
  {
    forall k: HeaderKey
      ensures k in ALL_KEYS
    {
      assert k == NameKey || k == LocaleKey || k == VersionKey || k == AuthorsKey;
    }
    assert NameKey in KeysOf(flags) <==> flags & NAME_FLAG != 0;
    assert LocaleKey in KeysOf(flags) <==> flags & LOCALE_FLAG != 0;
    assert VersionKey in KeysOf(flags) <==> flags & VERSION_FLAG != 0;
    assert AuthorsKey in KeysOf(flags) <==> flags & AUTHORS_FLAG != 0;
  }

  // ---------------------------------------------------------------- prefixes by depth

  /** The stack that a map from depth to prefix stands for. */
  function Stack(strbegins: map<nat, string>, depth: nat): (r: seq<Option<string>>)
    ensures |r| == depth + 1
  {
    seq(depth + 1, i requires 0 <= i => if i in strbegins then Some(strbegins[i]) else None)
  }

  predicate Ascending(keys: seq<nat>) {
    forall i, j :: 0 <= i < j < |keys| ==> keys[i] < keys[j]
  }

  lemma AscendingCons(key: nat, keys: seq<nat>)
    requires Ascending(keys) && forall k :: k in keys ==> key < k
    ensures Ascending([key] + keys)
  {
    var all := [key] + keys;
    forall i, j | 0 <= i < j < |all|
      ensures all[i] < all[j]
    {
      assert all[j] == keys[j - 1] && keys[j - 1] in keys;
      assert i > 0 ==> all[i] == keys[i - 1];
    }
  }

  lemma FirstIsLeast(keys: seq<nat>)
    requires Ascending(keys) && keys != []
    ensures Ascending(keys[1..]) && forall k :: k in keys[1..] ==> keys[0] < k
  {
  }

  function InsertKey(key: nat, keys: seq<nat>): (r: seq<nat>)
    requires Ascending(keys) && key !in keys
    ensures Ascending(r) && forall k :: k in r <==> k in keys || k == key
  {
    if keys == [] then [key]
    else
      FirstIsLeast(keys);
      Uncons(keys);
      if key < keys[0] then
        AscendingCons(key, keys);
        [key] + keys
      else
        AscendingCons(keys[0], InsertKey(key, keys[1..]));
        [keys[0]] + InsertKey(key, keys[1..])
  }

  /** `std::sort` on a vector without duplicates. */
  function Sort(keys: seq<nat>): (r: seq<nat>)
    requires forall i, j :: 0 <= i < j < |keys| ==> keys[i] != keys[j]
    ensures Ascending(r) && forall k :: k in r <==> k in keys
  {
    if keys == [] then [] else InsertKey(keys[0], Sort(keys[1..]))
  }

  lemma {:induction false} JoinSnoc(prefixes: seq<Option<string>>, p: Option<string>)
    ensures JoinPrefixes(prefixes + [p]) == JoinPrefixes(prefixes) + p.GetOr("")
  {
    if prefixes == [] {
      assert [] + [p] == [p];
    } else {
      assert (prefixes + [p])[1..] == prefixes[1..] + [p];
      JoinSnoc(prefixes[1..], p);
      Assoc(prefixes[0].GetOr(""), JoinPrefixes(prefixes[1..]), p.GetOr(""));
    }
  }

  /** Levels without a prefix contribute nothing. */
  lemma {:induction false} JoinSkip(prefixes: seq<Option<string>>, lo: nat, hi: nat)
    requires lo <= hi <= |prefixes|
    requires forall i :: lo <= i < hi ==> prefixes[i].None?
    ensures JoinPrefixes(prefixes[..lo]) == JoinPrefixes(prefixes[..hi])
    decreases hi - lo
  {
    if lo < hi {
      JoinSkip(prefixes, lo, hi - 1);
      assert prefixes[..hi] == prefixes[..hi - 1] + [prefixes[hi - 1]];
      JoinSnoc(prefixes[..hi - 1], None);
    }
  }

  lemma {:induction false} PathSnoc(sections: seq<string>, name: string)
    ensures Path(sections + [name]) == Path(sections) + (name + ".")
  {
    if sections == [] {
      assert [] + [name] == [name];
    } else {
      assert (sections + [name])[1..] == sections[1..] + [name];
      PathSnoc(sections[1..], name);
      Assoc(sections[0] + ".", Path(sections[1..]), name + ".");
    }
  }

  lemma {:induction false} NameTextSnoc(name: seq<Part>, part: Part)
    ensures NameText(name + [part]) == NameText(name) + (if part.Name? then part.text else ".")
  {
    if name == [] {
      assert [] + [part] == [part];
    } else {
      assert (name + [part])[1..] == name[1..] + [part];
      NameTextSnoc(name[1..], part);
      Assoc(if name[0].Name? then name[0].text else ".", NameText(name[1..]), if part.Name? then part.text else ".");
    }
  }

  lemma {:induction false} PrefixedSnoc(prefix: string, items: seq<seq<string>>, item: seq<string>)
    ensures Prefixed(prefix, items + [item]) == Prefixed(prefix, items) + [prefix + Concat(item)]
  {
    if items == [] {
      assert [] + [item] == [item];
    } else {
      assert (items + [item])[1..] == items[1..] + [item];
      PrefixedSnoc(prefix, items[1..], item);
    }
  }

  function PrependItems(items: seq<seq<string>>, r: Option<(seq<seq<string>>, seq<Token>)>): Option<(seq<seq<string>>, seq<Token>)> {
    if r.None? then None else Some((items + r.value.0, r.value.1))
  }

  lemma PrependNoItems(r: Option<(seq<seq<string>>, seq<Token>)>)
    ensures PrependItems([], r) == r
  {
    if r.Some? {
      assert [] + r.value.0 == r.value.0;
    }
  }

  lemma PrependMoreItems(items: seq<seq<string>>, item: seq<string>, r: Option<(seq<seq<string>>, seq<Token>)>)
    ensures PrependItems(items + [item], r) == PrependItems(items, PrependItems([item], r))
  {
    if r.Some? {
      Assoc(items, [item], r.value.0);
    }
  }

  /** One more item of a list, which may be its last. */
  lemma ItemsStep(tokens: seq<Token>, items: seq<seq<string>>, prefix: string)
    ensures ReadText(tokens, ITEM_ENDS).None? ==> PrependItems(items, ReadItems(tokens)) == None
    ensures ReadText(tokens, ITEM_ENDS).Some? ==>
              var (item, end, rest) := ReadText(tokens, ITEM_ENDS).value;
              && PrependItems(items, ReadItems(tokens)) ==
                 (if end == ClosingBracket then Some((items + [item], rest)) else PrependItems(items + [item], ReadItems(rest)))
              && Prefixed(prefix, items + [item]) == Prefixed(prefix, items) + [prefix + Concat(item)]
  {
    match ReadText(tokens, ITEM_ENDS)
    case None =>
    case Some((item, end, rest)) =>
      PrefixedSnoc(prefix, items, item);
      PrependMoreItems(items, item, ReadItems(rest));
  }

  function PartOf(t: Token): Part
    requires t.Identifier? || t == Dot
  {
    if t.Identifier? then Name(t.name) else Point
  }

  /** Reading a name, `parts` of which were read already. */
  function MoreName(parts: seq<Part>, ahead: seq<Token>, end: Token): Option<(seq<Part>, seq<Token>)>
    decreases |ahead|
  {
    if ahead == [] then None
    else if ahead[0].Identifier? || (ahead[0] == Dot && parts != [])
    then MoreName(parts + [PartOf(ahead[0])], ahead[1..], end)
    else if ahead[0] == end && WellNamed(parts) then Some((parts, ahead[1..]))
    else None
  }

  lemma {:induction false} MoreNameMeans(parts: seq<Part>, ahead: seq<Token>, end: Token)
    requires !end.Identifier? && end != Dot && (parts != [] ==> parts[0].Name?)
    ensures var run := NameRun(ahead);
            MoreName(parts, ahead, end) ==
            if WellNamed(parts + run) && |run| < |ahead| && ahead[|run|] == end
            then Some((parts + run, ahead[|run| + 1..])) else None
    decreases |ahead|
  {
    var run := NameRun(ahead);
    if ahead != [] && (ahead[0].Identifier? || (ahead[0] == Dot && parts != [])) {
      MoreNameMeans(parts + [PartOf(ahead[0])], ahead[1..], end);
      Assoc(parts, [PartOf(ahead[0])], NameRun(ahead[1..]));
      if |run| < |ahead| {
        assert ahead[1..][|run|..] == ahead[|run| + 1..];
      }
    } else {
      Unit(parts);
      Unit(run);
    }
  }

  lemma ReadNameIsMoreName(tokens: seq<Token>, end: Token)
    requires !end.Identifier? && end != Dot
    ensures ReadName(tokens, end) == MoreName([], tokens, end)
  {
    MoreNameMeans([], tokens, end);
    Unit(NameRun(tokens));
  }

  /** What the flags say about the parts read so far. */
  predicate NameSoFar(parts: seq<Part>, name: string, started: bool, lastIsPoint: bool) {
    && name == NameText(parts)
    && started == (parts != [])
    && (started ==> parts[0].Name? && lastIsPoint == parts[|parts| - 1].Point?)
    && (!started ==> !lastIsPoint)
  }

  /** Reading a text, `literals` of which were read already. */
  function MoreText(literals: seq<string>, ahead: seq<Token>, ends: seq<Token>): Option<(seq<string>, Token, seq<Token>)>
    decreases |ahead|
  {
    if ahead == [] then None
    else if ahead[0].String? then MoreText(literals + [ahead[0].text], ahead[1..], ends)
    else if literals != [] && ahead[0] in ends then Some((literals, ahead[0], ahead[1..]))
    else None
  }

  lemma {:induction false} MoreTextMeans(literals: seq<string>, ahead: seq<Token>, ends: seq<Token>)
    ensures var run := LiteralRun(ahead);
            MoreText(literals, ahead, ends) ==
            if literals + run != [] && |run| < |ahead| && ahead[|run|] in ends
            then Some((literals + run, ahead[|run|], ahead[|run| + 1..])) else None
    decreases |ahead|
  {
    var run := LiteralRun(ahead);
    if ahead != [] && ahead[0].String? {
      MoreTextMeans(literals + [ahead[0].text], ahead[1..], ends);
      Assoc(literals, [ahead[0].text], LiteralRun(ahead[1..]));
      if |run| < |ahead| {
        assert ahead[1..][|run|..] == ahead[|run| + 1..];
      }
    } else {
      Unit(literals);
    }
  }

  lemma ReadTextIsMoreText(tokens: seq<Token>, ends: seq<Token>)
    ensures ReadText(tokens, ends) == MoreText([], tokens, ends)
  {
    MoreTextMeans([], tokens, ends);
    Unit(LiteralRun(tokens));
  }

  /** The kinds of token the parser asks for by name. */
  datatype Kind = DotKind | OpeningBracketKind | StringKind | NumberKind

  predicate IsA(t: Token, kind: Kind) {
    match kind
    case DotKind => t == Dot
    case OpeningBracketKind => t == OpeningBracket
    case StringKind => t.String?
    case NumberKind => t.Number?
  }

  lemma GiveTextSteps(st: State, key: HeaderKey, tokens: seq<Token>)
    requires FormOfKey(key) == TextForm
    ensures Give(st, key, tokens) ==
            var read := ReadText(tokens, [Semicolon]);
            if key in st.given || read.None? then None
            else
              var text := JoinPrefixes(st.prefixes) + Concat(read.value.0);
              Some((st.(given := st.given + {key},
                        data := if key == NameKey then st.data.(name := text) else st.data.(locale := text)),
                    read.value.2))
  {
  }

  lemma GiveVersionSteps(st: State, tokens: seq<Token>)
    ensures Give(st, VersionKey, tokens) ==
            if VersionKey in st.given || ReadTriple(tokens).None? then None
            else
              var (v, rest) := ReadTriple(tokens).value;
              var version := Version(ToUInt16(v.major), ToUInt16(v.minor), ToUInt16(v.patch));
              Some((st.(given := st.given + {VersionKey}, data := st.data.(version := version)), rest))
  {
  }

  lemma GiveAuthorsSteps(st: State, tokens: seq<Token>)
    ensures Give(st, AuthorsKey, tokens) ==
            if AuthorsKey in st.given || ReadListing(tokens).None? then None
            else
              var (v, rest) := ReadListing(tokens).value;
              var authors := Prefixed(JoinPrefixes(st.prefixes), v.items);
              Some((st.(given := st.given + {AuthorsKey}, data := st.data.(authors := authors)), rest))
  {
  }

  predicate DotNumber(tokens: seq<Token>) {
    |tokens| >= 2 && tokens[0] == Dot && tokens[1].Number?
  }

  lemma TripleSteps(tokens: seq<Token>)
    ensures ReadTriple(tokens) ==
            if tokens != [] && tokens[0].Number? && DotNumber(tokens[1..]) && DotNumber(tokens[1..][2..])
            then Some((Triple(tokens[0].value, tokens[1..][1].value, tokens[1..][2..][1].value), tokens[1..][2..][2..]))
            else None
  {
    if |tokens| >= 5 {
      assert tokens[1..][2..][2..] == tokens[5..];
    }
  }

  lemma PrefixSteps(st: State, tokens: seq<Token>)
    requires st.Valid()
    ensures After(st, ReadPrefix(tokens)) ==
            if tokens != [] && tokens[0].String? && tokens[1..] != [] && tokens[1..][0] == Semicolon
            then Some((Exec(st, Prefix(tokens[0].text)).value, tokens[1..][1..]))
            else None
  {
  }

  lemma StackInsert(strbegins: map<nat, string>, depth: nat, text: string)
    ensures var before := Stack(strbegins, depth);
            Stack(Insert(strbegins, depth, text), depth) == if before[depth].Some? then before else before[depth := Some(text)]
  {
  }

  /** The prefixes up to a depth that has one, from those up to the previous depth that has one. */
  lemma JoinStep(strbegins: map<nat, string>, depth: nat, keys: seq<nat>, i: nat, done: nat)
    requires Ascending(keys) && forall k :: k in keys <==> k in strbegins
    requires forall k :: k in strbegins ==> k <= depth
    requires i <= |keys| && done == if i == 0 then 0 else keys[i - 1] + 1
    requires done <= depth + 1
    ensures var stack := Stack(strbegins, depth);
            if i < |keys|
            then
              && keys[i] in strbegins && keys[i] <= depth
              && JoinPrefixes(stack[..keys[i] + 1]) == JoinPrefixes(stack[..done]) + strbegins[keys[i]]
            else JoinPrefixes(stack) == JoinPrefixes(stack[..done])
  {
    var stack := Stack(strbegins, depth);
    var next := if i < |keys| then keys[i] else |stack|;
    assert i < |keys| ==> keys[i] in keys;
    forall k | done <= k < next
      ensures stack[k].None?
    {
      assert forall j :: 0 <= j < |keys| ==> keys[j] != k;
      assert k !in keys;
    }
    JoinSkip(stack, done, next);
    if i < |keys| {
      assert stack[..next + 1] == stack[..next] + [stack[next]];
      JoinSnoc(stack[..next], stack[next]);
    } else {
      assert stack[..next] == stack;
    }
  }

  /** A header entry read from the front of `tokens` and recorded, unless its key was given before. */
  function Give(st: State, key: HeaderKey, tokens: seq<Token>): Option<(State, seq<Token>)> {
    if key in st.given then None
    else
      match ReadValue(FormOfKey(key), tokens)
      case None => None
      case Some((value, rest)) => Some((GiveHeader(st, key, value), rest))
  }

  function GiveText(st: State, key: string, tokens: seq<Token>): Option<(State, seq<Token>)> {
    match ReadTextValue(tokens)
    case None => None
    case Some((value, rest)) => Some((Translate(st, key, value.literals), rest))
  }

  lemma BindOutside(st: State, tokens: seq<Token>)
    requires st.Valid() && !st.inHeader && ReadName(tokens, Equal).Some?
    ensures var (name, rest) := ReadName(tokens, Equal).value;
            After(st, ReadBind(tokens, false)) == GiveText(st, Path(st.sections) + NameText(name), rest)
  {
  }

  lemma BindInside(st: State, tokens: seq<Token>)
    requires st.Valid() && st.inHeader && ReadName(tokens, Equal).Some?
    ensures var (name, rest) := ReadName(tokens, Equal).value; var key := KeyOf(Path(st.sections) + NameText(name));
            After(st, ReadBind(tokens, true)) == if key.None? then None else Give(st, key.value, rest)
  {
    var (name, rest) := ReadName(tokens, Equal).value;
    Unit(NameText(name));
  }

  /** A binding is its name followed by what its value does. */
  lemma BindSteps(st: State, tokens: seq<Token>)
    requires st.Valid()
    ensures After(st, ReadBind(tokens, st.inHeader)) ==
            match ReadName(tokens, Equal)
            case None => None
            case Some((name, rest)) =>
              var key := Path(st.sections) + NameText(name);
              if !st.inHeader then GiveText(st, key, rest)
              else if KeyOf(key).None? then None
              else Give(st, KeyOf(key).value, rest)
  {
    if ReadName(tokens, Equal).Some? {
      if st.inHeader {
        BindInside(st, tokens);
      } else {
        BindOutside(st, tokens);
      }
    }
  }

  // ---------------------------------------------------------------- the class

  class SMCLParser {
    const lexer: SMCLLexer
    var header_defined_bindings: bv8
    var scope_index: nat
    var curr_sections: seq<string>
    var curr_strbegins: map<nat, string>
    var data: LangData
    var is_in_header: bool
    var is_header_defined: bool
    var is_eof: bool
    var curr_token: Token

    constructor (lexer: SMCLLexer, data: LangData)
      requires lexer.Valid()
      ensures this.lexer == lexer && Valid() && !is_eof && Now() == Initial(data)
    {
      this.lexer := lexer;
      header_defined_bindings := 0;
      scope_index := 0;
      curr_sections := [];
      curr_strbegins := map[];
      this.data := data;
      is_in_header := false;
      is_header_defined := false;
      is_eof := false;
      curr_token := Dot;
      new;
      assert forall k: HeaderKey :: (0 as bv8) & FlagOf(k) == 0;
    }

    ghost predicate Valid()
      reads this, lexer
    {
      && lexer.Valid()
      && scope_index == |curr_sections|
      && (is_in_header ==> curr_sections == [] && is_header_defined)
      && forall depth :: depth in curr_strbegins ==> depth <= scope_index
    }

    /** The state of the statement semantics that the fields stand for. */
    ghost function Now(): (st: State)
      reads this
      ensures scope_index == |curr_sections| && (is_in_header ==> curr_sections == [] && is_header_defined) ==> st.Valid()
    {
      State(curr_sections, Stack(curr_strbegins, scope_index), is_in_header, is_header_defined,
            KeysOf(header_defined_bindings), data)
    }

    /** The tokens still to be read. */
    ghost function Ahead(): (r: Stream)
      requires lexer.Valid()
      reads this, lexer
    {
      lexer.Remaining()
    }

    /** The method succeeded exactly when `after` says so, reached its state and left its tokens; the language
        data are untouched otherwise. */
    twostate predicate Became(ok: bool, after: Option<(State, seq<Token>)>)
      requires old(lexer.Valid()) && lexer.Valid()
      reads this, lexer
    {
      && ok == after.Some?
      && (ok ==> Now() == after.value.0 && Ahead() == Stream(after.value.1, old(Ahead()).ok))
      && (!ok ==> data == old(data))
    }

    /** `parse`: the stream is accepted exactly when the statement semantics accept it, and the language data are
        those of the last state reached, also when it is refused. */
    method parse() returns (ok: bool)
      requires Valid() && !is_eof
      modifies this, lexer
      ensures Valid()
      ensures ok == RunStream(old(Now()), old(Ahead())).0
      ensures data == RunStream(old(Now()), old(Ahead())).1.data
    {
      ghost var outcome := RunStream(Now(), Ahead());
      while !is_eof
        invariant Valid()
        invariant outcome == RunStream(Now(), Ahead())
        invariant is_eof ==> Ahead() == Stream([], true)
        decreases |Ahead().tokens|, if is_eof then 0 else 1
      {
        ghost var ahead := Ahead();
        var next := processNextToken();
        if !next {
          return false;
        }
      }
      if scope_index != 0 {
        return false;
      }
      if !is_header_defined {
        return false;
      }
      ok := true;
    }

    /** One turn of the loop: the end of the stream, or one statement, read and executed. */
    method processNextToken() returns (ok: bool)
      requires Valid() && !is_eof
      modifies this, lexer
      ensures Valid()
      ensures old(Ahead()).tokens == [] ==> ok == is_eof == old(Ahead()).ok && Now() == old(Now()) && Ahead() == old(Ahead())
      ensures old(Ahead()).tokens != [] ==> !is_eof && Became(ok, Step(old(Now()), old(Ahead()).tokens))
    {
      ghost var tokens := Ahead().tokens;
      var got := getNextToken();
      if !got {
        return false;
      }
      match curr_token
      case Eof =>
        is_eof := true;
        return true;
      case Semicolon => return true;
      case Dot => ok := processNewBinding();
      case Section => ok := processNewSection();
      case StrBegin => ok := processNewStrBegin();
      case Header => ok := processNewHeader();
      case End => ok := processNewEnd();
      case _ => return false;
    }

    method processNewSection() returns (ok: bool)
      requires Valid()
      modifies this, lexer
      ensures Valid() && is_eof == old(is_eof)
      ensures Became(ok, After(old(Now()), if old(is_in_header) then None else ReadOpenSection(old(Ahead()).tokens)))
    {
      if is_in_header {
        return false;
      }
      var name;
      ok, name := getIdentifierName(Semicolon);
      if !ok {
        return;
      }
      ghost var before := Now().prefixes;
      scope_index := scope_index + 1;
      curr_sections := curr_sections + [name];
      assert Now().prefixes == before + [None];
    }

    method processNewBinding() returns (ok: bool)
      requires Valid()
      modifies this, lexer
      ensures Valid() && is_eof == old(is_eof)
      ensures Became(ok, After(old(Now()), ReadBind(old(Ahead()).tokens, old(is_in_header))))
    {
      BindSteps(Now(), Ahead().tokens);
      var name;
      ok, name := getIdentifierName(Equal);
      if !ok {
        return;
      }
      var path := getSectionsFullName();
      var key := path + name;
      if is_in_header {
        ok := pushHeaderBindingValueFromKey(key);
      } else {
        ok := pushGlobalBindingValueFromKey(key);
      }
    }

    method pushGlobalBindingValueFromKey(key: string) returns (ok: bool)
      requires Valid() && !is_in_header
      modifies this, lexer
      ensures Valid() && is_eof == old(is_eof)
      ensures Became(ok, GiveText(old(Now()), key, old(Ahead()).tokens))
    {
      var value;
      ok, value := loadStringValue([Semicolon]);
      if !ok {
        return;
      }
      data := data.(translations := Insert(data.translations, key, value));
    }

    method pushHeaderBindingValueFromKey(key: string) returns (ok: bool)
      requires Valid() && is_in_header
      modifies this, lexer
      ensures Valid() && is_eof == old(is_eof)
      ensures Became(ok, if KeyOf(key).None? then None else Give(old(Now()), KeyOf(key).value, old(Ahead()).tokens))
    {
      if key == "name" {
        ok := pushHeaderNameValue();
      } else if key == "locale" {
        ok := pushHeaderLocaleValue();
      } else if key == "version" {
        ok := pushHeaderVersionValue();
      } else if key == "authors" {
        ok := pushHeaderAuthorsValue();
      } else {
        ok := false;
      }
    }

    method pushHeaderNameValue() returns (ok: bool)
      requires Valid() && is_in_header
      modifies this, lexer
      ensures Valid() && is_eof == old(is_eof)
      ensures Became(ok, Give(old(Now()), NameKey, old(Ahead()).tokens))
    {
      if header_defined_bindings & NAME_FLAG != 0 {
        return false;
      }
      GiveTextSteps(Now(), NameKey, Ahead().tokens);
      AddFlag(header_defined_bindings, NameKey);
      header_defined_bindings := header_defined_bindings | NAME_FLAG;
      var value;
      ok, value := loadStringValue([Semicolon]);
      if ok {
        data := data.(name := value);
      }
    }

    method pushHeaderLocaleValue() returns (ok: bool)
      requires Valid() && is_in_header
      modifies this, lexer
      ensures Valid() && is_eof == old(is_eof)
      ensures Became(ok, Give(old(Now()), LocaleKey, old(Ahead()).tokens))
    {
      if header_defined_bindings & LOCALE_FLAG != 0 {
        return false;
      }
      GiveTextSteps(Now(), LocaleKey, Ahead().tokens);
      AddFlag(header_defined_bindings, LocaleKey);
      header_defined_bindings := header_defined_bindings | LOCALE_FLAG;
      var value;
      ok, value := loadStringValue([Semicolon]);
      if ok {
        data := data.(locale := value);
      }
    }

    method pushHeaderVersionValue() returns (ok: bool)
      requires Valid() && is_in_header
      modifies this, lexer
      ensures Valid() && is_eof == old(is_eof)
      ensures Became(ok, Give(old(Now()), VersionKey, old(Ahead()).tokens))
    {
      if header_defined_bindings & VERSION_FLAG != 0 {
        return false;
      }
      GiveVersionSteps(Now(), Ahead().tokens);
      AddFlag(header_defined_bindings, VersionKey);
      header_defined_bindings := header_defined_bindings | VERSION_FLAG;
      var value;
      ok, value := ExpectsTriple();
      if ok {
        data := data.(version := value);
      }
    }

    method pushHeaderAuthorsValue() returns (ok: bool)
      requires Valid() && is_in_header
      modifies this, lexer
      ensures Valid() && is_eof == old(is_eof)
      ensures Became(ok, Give(old(Now()), AuthorsKey, old(Ahead()).tokens))
    {
      if header_defined_bindings & AUTHORS_FLAG != 0 {
        return false;
      }
      GiveAuthorsSteps(Now(), Ahead().tokens);
      AddFlag(header_defined_bindings, AuthorsKey);
      header_defined_bindings := header_defined_bindings | AUTHORS_FLAG;
      var value;
      ok, value := loadListOfStringValue();
      if ok {
        data := data.(authors := value);
      }
    }

    /** One or more literals up to one of `endTokens`, after all prefixes in force. */
    method loadStringValue(endTokens: seq<Token>) returns (ok: bool, value: string)
      requires Valid() && Eof !in endTokens && forall t :: t in endTokens ==> !t.String?
      modifies this`curr_token, lexer
      ensures Valid()
      ensures var read := ReadText(old(Ahead()).tokens, endTokens);
              && ok == read.Some?
              && (ok ==>
                    && value == JoinPrefixes(Now().prefixes) + Concat(read.value.0)
                    && curr_token == read.value.1
                    && Ahead() == Stream(read.value.2, old(Ahead()).ok))
    {
      ghost var prefix := JoinPrefixes(Now().prefixes);
      ghost var read := ReadText(Ahead().tokens, endTokens);
      ghost var literals: seq<string> := [];
      ReadTextIsMoreText(Ahead().tokens, endTokens);
      value := getFullStrBegins();
      Unit(value);
      var isEndToken := false;
      var i := 0;
      while true
        invariant Valid() && !isEndToken && i == |literals| && Ahead().ok == old(Ahead()).ok
        invariant read == MoreText(literals, Ahead().tokens, endTokens)
        invariant value == prefix + Concat(literals)
        decreases |Ahead().tokens|
      {
        var got := getNextToken();
        if !got {
          return false, value;
        }
        if curr_token.String? {
          ConcatSnoc(literals, curr_token.text);
          Assoc(prefix, Concat(literals), curr_token.text);
          literals := literals + [curr_token.text];
          value := value + curr_token.text;
          i := i + 1;
          continue;
        }
        isEndToken := curr_token in endTokens;
        if !isEndToken || i == 0 {
          return false, value;
        }
        break;
      }
      ok := true;
    }

    method loadListOfStringValue() returns (ok: bool, list: seq<string>)
      requires Valid()
      modifies this`curr_token, lexer
      ensures Valid()
      ensures var read := ReadListing(old(Ahead()).tokens);
              && ok == read.Some?
              && (ok ==>
                    && list == Prefixed(JoinPrefixes(Now().prefixes), read.value.0.items)
                    && Ahead() == Stream(read.value.1, old(Ahead()).ok))
    {
      list := [];
      ok := expectsToken(OpeningBracketKind);
      if !ok {
        return;
      }
      ghost var prefix := JoinPrefixes(Now().prefixes);
      ghost var whole := ReadItems(Ahead().tokens);
      ghost var items: seq<seq<string>> := [];
      PrependNoItems(whole);
      while true
        invariant Valid()
        invariant Ahead().ok == old(Ahead()).ok
        invariant whole == PrependItems(items, ReadItems(Ahead().tokens))
        invariant list == Prefixed(prefix, items)
        decreases |Ahead().tokens|
      {
        ghost var read := ReadText(Ahead().tokens, ITEM_ENDS);
        ItemsStep(Ahead().tokens, items, prefix);
        var value;
        ok, value := loadStringValue(ITEM_ENDS);
        if !ok {
          return;
        }
        list := list + [value];
        items := items + [read.value.0];
        if curr_token == ClosingBracket {
          break;
        }
      }
      ok := mustFinishWithSemicolon();
    }

    method processNewEnd() returns (ok: bool)
      requires Valid()
      modifies this, lexer
      ensures Valid() && is_eof == old(is_eof)
      ensures Became(ok, After(old(Now()),
                if old(is_in_header) then Some((CloseHeader, old(Ahead()).tokens))
                else ReadSemicolon(CloseSection, old(Ahead()).tokens)))
    {
      if is_in_header {
        is_in_header := false;
        ok := checkHeaderBindings();
        return;
      }
      if scope_index == 0 {
        return false;
      }
      ghost var before := Now().prefixes;
      if scope_index in curr_strbegins {
        curr_strbegins := curr_strbegins - {scope_index};
      }
      scope_index := scope_index - 1;
      curr_sections := curr_sections[..|curr_sections| - 1];
      assert Now().prefixes == before[..scope_index + 1];
      ok := mustFinishWithSemicolon();
    }

    method processNewStrBegin() returns (ok: bool)
      requires Valid()
      modifies this, lexer
      ensures Valid() && is_eof == old(is_eof)
      ensures Became(ok, After(old(Now()), ReadPrefix(old(Ahead()).tokens)))
    {
      ghost var before := Now();
      PrefixSteps(before, Ahead().tokens);
      ok := expectsToken(StringKind);
      if !ok {
        return;
      }
      var text := curr_token.text;
      StackInsert(curr_strbegins, scope_index, text);
      curr_strbegins := Insert(curr_strbegins, scope_index, text);
      assert Now() == Exec(before, Prefix(text)).value;
      ok := mustFinishWithSemicolon();
    }

    method processNewHeader() returns (ok: bool)
      requires Valid()
      modifies this, lexer
      ensures Valid() && is_eof == old(is_eof)
      ensures Became(ok, After(old(Now()), ReadSemicolon(OpenHeader, old(Ahead()).tokens)))
    {
      if is_header_defined || is_in_header {
        return false;
      }
      if scope_index != 0 {
        return false;
      }
      is_in_header := true;
      is_header_defined := true;
      ok := mustFinishWithSemicolon();
    }

    method getIdentifierName(endToken: Token) returns (ok: bool, name: string)
      requires lexer.Valid() && !endToken.Identifier? && endToken != Dot && endToken != Eof
      modifies this`curr_token, lexer
      ensures lexer.Valid()
      ensures var read := ReadName(old(Ahead()).tokens, endToken);
              && ok == read.Some?
              && (ok ==> name == NameText(read.value.0) && Ahead() == Stream(read.value.1, old(Ahead()).ok))
    {
      ghost var read := ReadName(Ahead().tokens, endToken);
      ghost var parts: seq<Part> := [];
      ReadNameIsMoreName(Ahead().tokens, endToken);
      name := "";
      var stringStarted := false;
      var lastIsPoint := false;
      while true
        invariant lexer.Valid() && Ahead().ok == old(Ahead()).ok
        invariant NameSoFar(parts, name, stringStarted, lastIsPoint)
        invariant read == MoreName(parts, Ahead().tokens, endToken)
        decreases |Ahead().tokens|
      {
        var got := getNextToken();
        if got && (curr_token.Identifier? || (stringStarted && curr_token == Dot)) {
          NameTextSnoc(parts, PartOf(curr_token));
          parts := parts + [PartOf(curr_token)];
        }
        if !got {
          return false, name;
        }
        if curr_token == endToken {
          if lastIsPoint {
            return false, name;
          }
          return stringStarted, name;
        } else if curr_token == Dot {
          lastIsPoint := true;
          if !stringStarted {
            return false, name;
          }
          name := name + ".";
          continue;
        } else if curr_token.Identifier? {
          name := name + curr_token.name;
          stringStarted := true;
        } else {
          return false, name;
        }
        lastIsPoint := false;
      }
    }

    method checkHeaderBindings() returns (ok: bool)
      ensures ok == (KeysOf(header_defined_bindings) == ALL_KEYS)
    {
      AllFlags(header_defined_bindings);
      var isError := false;
      if header_defined_bindings & NAME_FLAG == 0 {
        isError := true;
      }
      if header_defined_bindings & LOCALE_FLAG == 0 {
        isError := true;
      }
      if header_defined_bindings & VERSION_FLAG == 0 {
        isError := true;
      }
      if header_defined_bindings & AUTHORS_FLAG == 0 {
        isError := true;
      }
      ok := !isError;
    }

    method expectsToken(kind: Kind) returns (ok: bool)
      requires lexer.Valid()
      modifies this`curr_token, lexer
      ensures lexer.Valid()
      ensures ok == (old(Ahead()).tokens != [] && IsA(old(Ahead()).tokens[0], kind))
      ensures ok ==> curr_token == old(Ahead()).tokens[0] && Ahead() == Stream(old(Ahead()).tokens[1..], old(Ahead()).ok)
    {
      var got := getNextToken();
      ok := got && IsA(curr_token, kind);
    }

    /** Three numbers with points between them. */
    method ExpectsTriple() returns (ok: bool, version: Version)
      requires lexer.Valid()
      modifies this`curr_token, lexer
      ensures lexer.Valid()
      ensures var read := ReadTriple(old(Ahead()).tokens);
              && ok == read.Some?
              && (ok ==>
                    && version == Version(ToUInt16(read.value.0.major), ToUInt16(read.value.0.minor), ToUInt16(read.value.0.patch))
                    && Ahead() == Stream(read.value.1, old(Ahead()).ok))
    {
      TripleSteps(Ahead().tokens);
      version := Version(0, 0, 0);
      ok := expectsToken(NumberKind);
      if !ok {
        return;
      }
      var major := curr_token.value;
      var minor, patch;
      ok, minor := ExpectsDotNumber();
      if ok {
        ok, patch := ExpectsDotNumber();
        version := Version(ToUInt16(major), ToUInt16(minor), ToUInt16(patch));
      }
    }

    method ExpectsDotNumber() returns (ok: bool, number: int)
      requires lexer.Valid()
      modifies this`curr_token, lexer
      ensures lexer.Valid()
      ensures ok == DotNumber(old(Ahead()).tokens)
      ensures ok ==> number == old(Ahead()).tokens[1].value && Ahead() == Stream(old(Ahead()).tokens[2..], old(Ahead()).ok)
    {
      number := 0;
      ghost var tokens := Ahead().tokens;
      ok := expectsToken(DotKind);
      if ok {
        ok := expectsToken(NumberKind);
      }
      if ok {
        assert tokens[1..][1..] == tokens[2..];
        number := curr_token.value;
      }
    }

    method mustFinishWithSemicolon() returns (ok: bool)
      requires lexer.Valid()
      modifies this`curr_token, lexer
      ensures lexer.Valid()
      ensures ok == (old(Ahead()).tokens != [] && old(Ahead()).tokens[0] == Semicolon)
      ensures ok ==> Ahead() == Stream(old(Ahead()).tokens[1..], old(Ahead()).ok)
    {
      var got := getNextToken();
      ok := got && curr_token == Semicolon;
    }

    method getNextToken() returns (ok: bool)
      requires lexer.Valid()
      modifies this`curr_token, lexer
      ensures lexer.Valid()
      ensures old(Ahead()).tokens == [] ==> ok == old(Ahead()).ok && (ok ==> curr_token == Eof) && Ahead() == old(Ahead())
      ensures old(Ahead()).tokens != [] ==>
                && ok
                && curr_token == old(Ahead()).tokens[0]
                && curr_token != Eof
                && Ahead() == Stream(old(Ahead()).tokens[1..], old(Ahead()).ok)
    {
      curr_token := lexer.nextToken();
      ok := !lexer.is_error;
    }

    method getSectionsFullName() returns (fullName: string)
      ensures fullName == Path(curr_sections)
    {
      fullName := "";
      for i := 0 to |curr_sections|
        invariant fullName == Path(curr_sections[..i])
      {
        assert curr_sections[..i + 1] == curr_sections[..i] + [curr_sections[i]];
        PathSnoc(curr_sections[..i], curr_sections[i]);
        fullName := fullName + (curr_sections[i] + ".");
      }
      assert curr_sections[..|curr_sections|] == curr_sections;
    }

    method SortedDepths() returns (keys: seq<nat>)
      ensures Ascending(keys) && forall k :: k in keys <==> k in curr_strbegins
    {
      keys := [];
      var left := curr_strbegins.Keys;
      while left != {}
        invariant left <= curr_strbegins.Keys
        invariant forall k :: k in keys <==> k in curr_strbegins && k !in left
        invariant forall i, j :: 0 <= i < j < |keys| ==> keys[i] != keys[j]
        decreases left
      {
        var key :| key in left;
        keys := keys + [key];
        left := left - {key};
      }
      keys := Sort(keys);
    }

    /** Collecting the depths, sorting them and concatenating their prefixes gives the prefixes of the stack,
        outermost first. */
    method getFullStrBegins() returns (result: string)
      requires Valid()
      ensures result == JoinPrefixes(Now().prefixes)
    {
      var keys := SortedDepths();
      ghost var done := 0;
      result := "";
      for i := 0 to |keys|
        invariant done == if i == 0 then 0 else keys[i - 1] + 1
        invariant done <= scope_index + 1
        invariant result == JoinPrefixes(Stack(curr_strbegins, scope_index)[..done])
      {
        JoinStep(curr_strbegins, scope_index, keys, i, done);
        var key := keys[i];
        if key in curr_strbegins {
          result := result + curr_strbegins[key];
        }
        done := key + 1;
      }
      JoinStep(curr_strbegins, scope_index, keys, |keys|, done);
    }
  }
}
