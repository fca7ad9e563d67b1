/** What the header of a document gives, by the names its fields have in the text. */
module SmclHeader {
  import opened Options
  import opened Seqs
  import opened SmclDocument
  import opened SmclStatement
  import opened Versions

  // ---------------------------------------------------------------- the header of a document

  /** The items before the header, or all of them if it is left open. */
  function Leading(items: seq<Item>): seq<Item> {
    if items == [] || items[0].HeaderItem? then [] else [items[0]] + Leading(items[1..])
  }

  function FieldsIn(items: seq<Item>): seq<Statement> {
    if items == [] then [] else if items[0].HeaderItem? then items[0].fields else FieldsIn(items[1..])
  }

  function Fields(doc: Document): seq<Statement> {
    if doc.unclosed.Some? then doc.unclosed.value else FieldsIn(doc.items)
  }

  /** The statements of the top level itself, without those of its sections. */
  function Leaves(items: seq<Item>): seq<Statement> {
    if items == [] then []
    else (if items[0].Leaf? then [items[0].statement] else []) + Leaves(items[1..])
  }

  /** The text of the first `STRBEGIN` of these statements. */
  function First(statements: seq<Statement>): Option<string> {
    if statements == [] then None
    else if statements[0].Prefix? then Some(statements[0].text)
    else First(statements[1..])
  }

  /** The prefix in force at a field: that of the first `STRBEGIN` of the top level before it, in the header or ahead of it. */
  function PrefixAt(doc: Document, k: nat): string
    requires k <= |Fields(doc)|
  {
    First(Leaves(Leading(doc.items)) + Fields(doc)[..k]).GetOr("")
  }

  predicate Names(s: Statement, text: string) {
    s.Bind? && NameText(s.name) == text
  }

  predicate Named(fields: seq<Statement>, text: string) {
    exists i :: 0 <= i < |fields| && Names(fields[i], text)
  }

  /** A binding gives the entry of its name, its texts behind the prefix in force; there are no other names. */
  predicate Gives(s: Statement, prefix: string, data: LangData) {
    s.Bind? ==>
      || (Names(s, "name") && s.value.Text? && data.name == prefix + Concat(s.value.literals))
      || (Names(s, "locale") && s.value.Text? && data.locale == prefix + Concat(s.value.literals))
      || (Names(s, "version") && s.value.Triple?
          && data.version == Version(s.value.major % 0x1_0000, s.value.minor % 0x1_0000, s.value.patch % 0x1_0000))
      || (Names(s, "authors") && s.value.Listing? && |data.authors| == |s.value.items|
          && forall i :: 0 <= i < |data.authors| ==> data.authors[i] == prefix + Concat(s.value.items[i]))
  }

  /** What has no name in the header stays as it was. */
  predicate Keeps(fields: seq<Statement>, before: LangData, data: LangData) {
    && (!Named(fields, "name") ==> data.name == before.name)
    && (!Named(fields, "locale") ==> data.locale == before.locale)
    && (!Named(fields, "version") ==> data.version == before.version)
    && (!Named(fields, "authors") ==> data.authors == before.authors)
  }

  /** The header entries of `data` are those of the document: each field gives its own, none is given twice, and a
      header that is closed names all four. */
  ghost predicate HeaderGives(doc: Document, before: LangData, data: LangData) {
    var fields := Fields(doc);
    && (forall k :: 0 <= k < |fields| ==> Gives(fields[k], PrefixAt(doc, k), data))
    && (forall j, k, text :: 0 <= j < k < |fields| && Names(fields[j], text) ==> !Names(fields[k], text))
    && Keeps(fields, before, data)
    && (doc.unclosed.None? ==> Named(fields, "name") && Named(fields, "locale") && Named(fields, "version") && Named(fields, "authors"))
  }

  // ---------------------------------------------------------------- the fields

  lemma {:induction false} NotAgain(fields: seq<Statement>, given: set<HeaderKey>, text: string)
    requires FieldsFit(fields, given) && KeyOf(text).Some? && KeyOf(text).value in given
    ensures !Named(fields, text)
    decreases |fields|
  {
    if fields != [] {
      var s, more := fields[0], fields[1..];
      OneField(s);
      assert fields[..1] == [s] + [];
      NotAgain(more, given + FieldKeys(fields[..1]), text);
      forall i | 0 <= i < |fields|
        ensures !Names(fields[i], text)
      {
        if i > 0 {
          assert fields[i] == more[i - 1];
        }
      }
    }
  }

  lemma {:induction false} Distinct(fields: seq<Statement>, given: set<HeaderKey>)
    requires FieldsFit(fields, given)
    ensures forall j, k, text :: 0 <= j < k < |fields| && Names(fields[j], text) ==> !Names(fields[k], text)
    decreases |fields|
  {
    if fields != [] {
      var s, more := fields[0], fields[1..];
      OneField(s);
      assert fields[..1] == [s] + [];
      Distinct(more, given + FieldKeys(fields[..1]));
      assert forall i :: 1 <= i < |fields| ==> fields[i] == more[i - 1];
      if s.Bind? {
        NotAgain(more, given + FieldKeys(fields[..1]), NameText(s.name));
      }
    }
  }

  lemma {:induction false} Complete(fields: seq<Statement>, text: string)
    requires KeyOf(text).Some? && KeyOf(text).value in FieldKeys(fields)
    ensures Named(fields, text)
    decreases |fields|
  {
    var s, more := fields[0], fields[1..];
    if Names(s, text) {
    } else {
      Complete(more, text);
      var i :| 0 <= i < |more| && Names(more[i], text);
      assert Names(fields[i + 1], text);
    }
  }

  // ---------------------------------------------------------------- prefixes

  function Or(own: Option<string>, other: Option<string>): Option<string> {
    if own.Some? then own else other
  }

  lemma {:induction false} FirstAppend(a: seq<Statement>, b: seq<Statement>)
    ensures First(a + b) == Or(First(a), First(b))
    decreases |a|
  {
    if a == [] {
      Unit(b);
    } else {
      assert (a + b)[1..] == a[1..] + b;
      FirstAppend(a[1..], b);
    }
  }

  lemma {:induction false} OwnIsFirst(fields: seq<Statement>, own: Option<string>)
    ensures OwnOfFields(fields, own) == Or(own, First(fields))
    decreases |fields|
  {
    if fields != [] {
      OwnIsFirst(fields[1..], if fields[0].Prefix? then FirstOf(own, fields[0].text) else own);
    }
  }

  lemma {:induction false} OwnOfLeading(items: seq<Item>, own: Option<string>)
    ensures Own(Leading(items), own) == Or(own, First(Leaves(Leading(items))))
    decreases |items|
  {
    var lead := Leading(items);
    if lead != [] {
      Tail(items[0], Leading(items[1..]));
      OwnOfLeading(items[1..], OwnOfItem(items[0], own));
      var here: seq<Statement> := if items[0].Leaf? then [items[0].statement] else [];
      FirstAppend(here, Leaves(lead[1..]));
      if items[0].Leaf? {
        assert here[1..] == [];
      }
    }
  }

  // ---------------------------------------------------------------- the fields give their entries

  lemma {:induction false} PrefixedItems(prefix: string, items: seq<seq<string>>)
    ensures |Prefixed(prefix, items)| == |items|
    ensures forall i :: 0 <= i < |items| ==> Prefixed(prefix, items)[i] == prefix + Concat(items[i])
    decreases |items|
  {
    if items != [] {
      PrefixedItems(prefix, items[1..]);
    }
  }

  lemma OneGives(s: Statement, own: Option<string>, data: LangData)
    requires IsLeaf(s) && WellFormed(s, true)
    ensures Gives(s, own.GetOr(""), FieldsData([s], own, data)) && Keeps([s], data, FieldsData([s], own, data))
  {
    OneField(s);
    assert [s][0] == s;
    if s.Bind? {
      assert Names([s][0], NameText(s.name));
      if s.value.Listing? {
        PrefixedItems(own.GetOr(""), s.value.items);
      }
    }
  }

  /** An entry that no later field names stays. */
  lemma StillGives(s: Statement, prefix: string, fields: seq<Statement>, before: LangData, data: LangData)
    requires Gives(s, prefix, before) && Keeps(fields, before, data) && (s.Bind? ==> !Named(fields, NameText(s.name)))
    ensures Gives(s, prefix, data)
  {
  }

  lemma KeepsBoth(s: Statement, more: seq<Statement>, before: LangData, between: LangData, data: LangData)
    requires Keeps([s], before, between) && Keeps(more, between, data)
    ensures Keeps([s] + more, before, data)
  {
    var all := [s] + more;
    Tail(s, more);
    forall text | !Named(all, text)
      ensures !Named([s], text) && !Named(more, text)
    {
      forall i | 0 <= i < |more|
        ensures !Names(more[i], text)
      {
        assert more[i] == all[i + 1];
      }
      assert all[0] == s == [s][0];
    }
  }

  lemma {:induction false} FieldsGive(fields: seq<Statement>, own: Option<string>, data: LangData, given: set<HeaderKey>)
    requires FieldsFit(fields, given)
    ensures Keeps(fields, data, FieldsData(fields, own, data))
    ensures forall k :: 0 <= k < |fields| ==> Gives(fields[k], Or(own, First(fields[..k])).GetOr(""), FieldsData(fields, own, data))
    decreases |fields|
  {
    if fields != [] {
      var s, more := fields[0], fields[1..];
      var between := FieldsData([s], own, data);
      var own' := OwnOfFields([s], own);
      var all := FieldsData(fields, own, data);
      Uncons(fields);
      assert fields[..1] == [s];
      OneField(s);
      OneGives(s, own, data);
      FieldsDataCons(fields, own, data);
      FieldsGive(more, own', between, given + FieldKeys([s]));
      KeepsBoth(s, more, data, between, all);
      OwnIsFirst([s], own);
      if s.Bind? {
        NotAgain(more, given + FieldKeys([s]), NameText(s.name));
      }
      StillGives(s, own.GetOr(""), more, between, all);
      forall k | 0 <= k < |fields|
        ensures Gives(fields[k], Or(own, First(fields[..k])).GetOr(""), all)
      {
        if k > 0 {
          FirstAndMore(fields, k);
          FirstAppend([s], more[..k - 1]);
          assert fields[k] == more[k - 1];
        } else {
          assert fields[..0] == [];
        }
      }
    }
  }

  // ---------------------------------------------------------------- documents

  lemma {:induction false} NoSecondHeader(items: seq<Item>, nested: bool)
    requires ItemsFit(items, nested, true)
    ensures !HasHeader(items)
    decreases |items|
  {
    if items != [] {
      NoSecondHeader(items[1..], nested);
    }
  }

  lemma {:induction false} AllLeading(items: seq<Item>)
    requires !HasHeader(items)
    ensures Leading(items) == items
    decreases |items|
  {
    if items != [] {
      AllLeading(items[1..]);
      Uncons(items);
    }
  }

  /** The one header acts with the prefix that the items before it leave. */
  lemma {:induction false} HeaderActs(items: seq<Item>, own: Option<string>, data: LangData)
    requires ItemsFit(items, false, false) && HasHeader(items)
    ensures FieldsFit(FieldsIn(items), {}) && FieldKeys(FieldsIn(items)) == ALL_KEYS
    ensures HeaderData(items, own, data) == FieldsData(FieldsIn(items), Own(Leading(items), own), data)
    decreases |items|
  {
    if items[0].HeaderItem? {
      NoSecondHeader(items[1..], false);
      NoHeader(items[1..], OwnOfItem(items[0], own), FieldsData(items[0].fields, own, data));
    } else {
      HeaderActs(items[1..], OwnOfItem(items[0], own), data);
      Tail(items[0], Leading(items[1..]));
    }
  }

  lemma PrefixAtIs(doc: Document, k: nat)
    requires k <= |Fields(doc)|
    ensures PrefixAt(doc, k) == Or(Own(Leading(doc.items), None), First(Fields(doc)[..k])).GetOr("")
  {
    FirstAppend(Leaves(Leading(doc.items)), Fields(doc)[..k]);
    OwnOfLeading(doc.items, None);
  }

  lemma ClosedNamesAll(fields: seq<Statement>)
    requires FieldKeys(fields) == ALL_KEYS
    ensures Named(fields, "name") && Named(fields, "locale") && Named(fields, "version") && Named(fields, "authors")
  {
    Complete(fields, "name");
    Complete(fields, "locale");
    Complete(fields, "version");
    Complete(fields, "authors");
  }

  /** The meaning of a well-formed document has the header entries that its header names. */
  lemma MeaningGives(doc: Document, before: LangData)
    requires WellFormedDocument(doc)
    ensures HeaderGives(doc, before, Meaning(doc, before))
  {
    var fields, own := Fields(doc), Own(Leading(doc.items), None);
    var data := Meaning(doc, before);
    var read := before;
    if doc.unclosed.Some? {
      AllLeading(doc.items);
      NoHeader(doc.items, None, before);
      read := ItemsData(doc.items, "", "", None, before);
    } else {
      HeaderActs(doc.items, None, before);
      ClosedNamesAll(fields);
    }
    FieldsGive(fields, own, read, {});
    Distinct(fields, {});
    forall k | 0 <= k < |fields|
      ensures Gives(fields[k], PrefixAt(doc, k), data)
    {
      PrefixAtIs(doc, k);
    }
  }

  /** A header entry by any other name, or with a value of another form than its name takes, makes the document ill-formed. */
  lemma NoOtherEntry(doc: Document, k: nat)
    requires k < |Fields(doc)| && Fields(doc)[k].Bind?
    requires var s := Fields(doc)[k];
             && !(s.value.Text? && (NameText(s.name) == "name" || NameText(s.name) == "locale"))
             && !(s.value.Triple? && NameText(s.name) == "version") && !(s.value.Listing? && NameText(s.name) == "authors")
    ensures !WellFormedDocument(doc)
  {
    if WellFormedDocument(doc) {
      var data := LangData(map[], "", "", [], Version(0, 0, 0));
      MeaningGives(doc, data);
    }
  }
}
