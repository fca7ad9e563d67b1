/** Loading a language file: lexer, parser and what comes of it. */
module SmclLoader {
  import opened Options
  import opened SmclDocument
  import opened SmclHeader
  import opened SmclLexer
  import opened SmclParser
  import opened SmclStatement
  import opened SmclToken

  /** `SMCLLoader::load` on the content of the file: a text is accepted exactly when it spells a well-formed
      document, and the language data become the meaning of every document it spells; of its header, that is what the
      names in it say. */
  method load(text: string, before: LangData) returns (ok: bool, data: LangData)
    ensures ok <==> exists doc :: WellFormedDocument(doc) && Writes(text, doc)
    ensures forall doc :: WellFormedDocument(doc) && Writes(text, doc) ==> data == Meaning(doc, before)
    ensures forall doc :: WellFormedDocument(doc) && Writes(text, doc) ==> HeaderGives(doc, before, data)
  {
    var lexer := new SMCLLexer(text);
    var parser := new SMCLParser(lexer, before);
    ok := parser.parse();
    data := parser.data;
    var stream := Lex(text);
    RunIsMeaning(stream.tokens, stream.ok, before);
    forall doc: Document
      ensures Writes(text, doc) <==> stream.ok && DocumentTokens(doc) == stream.tokens
    {
      LexExactly(text, Stream(DocumentTokens(doc), true));
    }
    forall doc | WellFormedDocument(doc)
      ensures HeaderGives(doc, before, Meaning(doc, before))
    {
      MeaningGives(doc, before);
    }
  }
}
