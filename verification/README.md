# SMC, verified

SMC is a remote shell: a client and a server that talk over a TCP connection, and a client shell whose messages come
from language files in a small language of its own, SMCL. This project models three parts of it in Dafny and proves
what they are for.

**The SMCL pipeline** (`smcl_*.dfy`). The lexer class and the parser class are written as in the original: cursors,
flags, a stack of section names and a map from depth to prefix, changed step by step. `SmclLexer` proves that a text has
a token stream exactly when it is laid out as the lexemes of that stream, with blanks where tokens would run together.
`SmclStatement` gives tokens a meaning through statements and a plain stack of optional prefixes, one for each open
scope; `SmclParser` proves that the class, with its map that is collected, sorted and concatenated, computes just that on
every token stream. `SmclDocument` defines documents as trees and what they mean (keys from the nesting of sections,
values from the prefixes lexically in force, the first binding of a key wins), and `SmclLoader.load` proves that a text
is accepted if and only if it spells a well-formed document and that the language data are then its meaning, the header
entries being those its names say (`SmclHeader`). `SmclText` states what the lexer reads with every character written
out, and `SmclSample` is one whole file with the data it gives. `SmclFormatter` proves
what filling the `${}` placeholders yields.

**The wire codecs** (`bytes.dfy`, `array_editor.dfy`, `response.dfy`, `bfl.dfy`, `framing.dfy`, `version.dfy`,
`version_text.dfy`, `strings.dfy`). Typed fields, response frames, directory listings, length-prefixed frames and
versions: round trips with their exact conditions, and decoders that are total on arbitrary bytes and accept exactly the
encodings. `wire_format.dfy` spells out the bytes.

**The protocol** (`transfer.dfy`, `request_handler.dfy`, `client_requests.dfy`, `server_session.dfy`,
`client_session.dfy`, `session*.dfy`, `permissions.dfy`). The server's handlers are proved to send exactly one response frame, before any
data, whatever calls a handler makes on its request, its response and `sendResponse`. The server's loop over a connection
is proved against a function of the bytes that arrive. A whole session is a system of two parties that take steps in any
order over two FIFO channels, with handshake, requests, downloads, uploads and quitting. In every reachable state the two
are in step: neither reads anything but what it expects, each request is answered once, every finished transfer is an
exact copy, and left alone the session always comes to rest. `Permissions` states by the ids on the wire who is served
what: without a login only four requests are, and nothing is transferred. The packets of that system are shown to be what both ends
read off the bytes, and the server's steps to do what the loop does.

`command_line.dfy` is the shell's tokenizer: which tokens a line of words, blanks and quoted texts has.

Classes keep the names of the original's classes, methods and fields; methods of the model's own start with a capital.
A `Channel` is one direction of a connection.

## Results that differ from what one might expect

- Uploads are not acknowledged, so it is false that both channels are empty and the server waits whenever the client is
  about to send its next request: `SessionRuns.NotLockstep` gives a reachable session in which a frame is still on its
  way, and by `SessionRuns.AheadOfServer` it can happen after every upload that is granted. The exact condition is one the
  client knows (`SessionRuns.ReadyAfterReply`): after a reply, whatever the two ends do until the client sends its next
  request, both channels are then empty and the server waits, if and only if the reply did not grant an upload.
  Before the first request it always holds (`SessionRuns.ReadyAtFirst`). `SessionRuns.Lockstep` says what is in the
  channels in any case: nothing towards the client, and towards the server exactly the frames it still needs.
- A download whose server sends a frame shorter than what the client writes of it makes the client read past the end of
  its buffer: one byte announced, buffer size 2, and the one frame empty (`Transfers.ShortFrame`). On arbitrary frames the
  client's loop stays inside them if and only if each is long enough (`Transfers.Downloader.downloadFile`); those of the
  server always are (`Transfers.DownloadExact`).
- A `BFLDecoder` that has decoded one list checks the size of its buffer, not of what is left of it, before it reads the
  count of another: used again with fewer than four bytes left of a buffer of four or more, it would read past the end.
  The precondition of `Bfl.BFLDecoder.decode` is exactly that this is not so; a new decoder meets it on any bytes.
- Moving and copying a file (ids 0x83 and 0x84) have no login among their requirements, unlike all other requests that
  name a file, so their handlers run for everyone whose version suffices (`Permissions.OpenToAll`).
- `'a''b'` on the command line has three tokens, the middle one empty (`CommandLines.TouchingQuotes`). The tokens are the
  quoted texts and the words if and only if no quoted text directly follows one with the same quotes
  (`CommandLines.TokensAreMeant`).
- A directory listing survives encoding if and only if it has fewer than 2^32 files and every name is shorter than 2^16
  bytes, because the casts to the length fields are silent (`Bfl.SendList`); a frame survives if and only if it is shorter
  than 2^32 bytes (`Framing.FrameRoundTrip`).
- A header that is still open at the end of a language file is accepted without being complete, and `.version` and the
  header's `END` take no semicolon, although Client/README.md asks for a semicolon after each expression and for all four
  entries. Client/README.md writes placeholders as `{$}`; the code replaces `${}`. A second `STRBEGIN` in a scope changes
  nothing. The model follows the code.
- `Version::setFromString` cuts the second part out too long, which is harmless, and sets the parts one by one, so that a
  failure leaves the first ones changed (`VersionText.VersionStruct.setFromString`).

## Assumptions

Channels are reliable and in order, and the three welcome bytes arrive together; a stream that ends early is used up by
the read that fails. Integers on the wire are little-endian. Library calls throw no exceptions. A file does not change
during a transfer, the client's buffer size is positive, files are smaller than 2^63 bytes and frames smaller than 2^32.
The lexer's `int` wraps around at 32 bits, where C++ leaves overflow undefined; `isspace` and `isdigit` are those of the
"C" locale. Version parts are shifted and masked as 64-bit numbers; `Versions.ShiftsAdd` shows that to be the arithmetic
of the model. Opening a file for upload empties it.

## Model

| member | source | states |
|---|---|---|
| SmclLexer.SMCLLexer.nextToken | src/shell/lang/smcl_lexer.cpp:21-31 | takes the next token off the stream of the text ahead and strictly advances; at the end it gives end-of-file again and again without moving; an error is never left |
| SmclLexer.SMCLLexer.buildToken | src/shell/lang/smcl_lexer.cpp:33-42 | skips blanks and reads the token that starts there, or end-of-file |
| SmclLexer.SMCLLexer.buildTokenFromIdx | src/shell/lang/smcl_lexer.cpp:44-57 | reads one punctuation mark, string, number or word, whichever starts at the cursor |
| SmclLexer.SMCLLexer.buildTokenFromChar | src/shell/lang/smcl_lexer.cpp:59-77 | exactly the six punctuation characters are tokens of their own; otherwise nothing changes |
| SmclLexer.SMCLLexer.buildTokenFromIdentifier | src/shell/lang/smcl_lexer.cpp:85-98 | the four keywords and nothing else are not identifiers |
| SmclLexer.SMCLLexer.buildTokenFromString | src/shell/lang/smcl_lexer.cpp:100-124 | decodes up to the first unescaped quote; fails exactly when there is none |
| SmclLexer.SMCLLexer.buildTokenFromNumber | src/shell/lang/smcl_lexer.cpp:126-138 | takes the longest run of digits, with its value in 32 bits |
| SmclLexer.SMCLLexer.getStartIdx | src/shell/lang/smcl_lexer.cpp:140-147 | the first character that is not blank, if there is one |
| SmclLexer.SMCLLexer.getEndIdxFromCurrPos | src/shell/lang/smcl_lexer.cpp:149-157 | the end of the longest run of word characters |
| SmclLexer.LexLayout | src/shell/lang/smcl_lexer.cpp:21-57 | any lexemes separated by blanks, with blanks forced only where two would run together, are read as their tokens, whatever closed or unclosed rest follows |
| SmclLexer.LexPieces | src/shell/lang/smcl_lexer.cpp:33-57 | every text is tiled by gaps of blanks and the lexemes of its tokens, up to its end or to a string that is never closed |
| SmclLexer.LexExactly | src/shell/lang/smcl_lexer.cpp:21-157 | a text has a token stream if and only if it is laid out as that stream |
| SmclLexer.LexPrint | src/shell/lang/smcl_lexer.cpp:44-138 | printed tokens, strings escaped and separated by blanks, are read back as the same tokens |
| SmclLexer.EscapeDecodes | src/shell/lang/smcl_lexer.cpp:100-124 | a string with quotes, backslashes, line feeds, tabs, vertical tabs and form feeds escaped decodes to itself |
| SmclText.StringDecodes | src/shell/lang/smcl_lexer.cpp:100-178 | a string is decoded letter by letter: n, t, v, f, backslash and quote behind a backslash are the characters named, every other one a question mark |
| SmclText.NeverClosed | src/shell/lang/smcl_lexer.cpp:100-124 | a string that no quote closes fails, also with a backslash at the end |
| SmclText.LettersOf | src/shell/lang/smcl_lexer.cpp:100-124 | every text is such letters up to a quote, the end, or a backslash and the end, so the two above cover all strings |
| SmclText.LexSkips | src/shell/lang/smcl_lexer.cpp:140-147 | blank, tab, line feed, vertical tab, form feed and carriage return are skipped |
| SmclText.LexMark | src/shell/lang/smcl_lexer.cpp:59-77 | the six marks are tokens, whatever follows |
| SmclText.LexString | src/shell/lang/smcl_lexer.cpp:44-57 | a closed string is one token, one that is not closed ends the stream with an error |
| SmclText.LexWord | src/shell/lang/smcl_lexer.cpp:79-157 | a word is all characters up to one of the six blanks and the six marks, digits and quotes inside it included; four words are keywords |
| SmclText.LexNumber | src/shell/lang/smcl_lexer.cpp:126-138 | a number is all digits there are, its value theirs modulo 2^32 as a signed number |
| SmclStatement.ReadStatementTokens | src/shell/lang/smcl_parser.cpp:91-113 | the tokens of a well-formed statement are read as that statement, whatever follows |
| SmclStatement.TokensReadStatement | src/shell/lang/smcl_parser.cpp:91-113 | what is read as a statement is well formed and made of exactly its tokens |
| SmclParser.SMCLParser.parse | src/shell/lang/smcl_parser.cpp:59-77 | on every token stream, accepts exactly when the statement semantics accept it, with the same language data, also when it refuses |
| SmclParser.SMCLParser.processNextToken | src/shell/lang/smcl_parser.cpp:91-113 | one turn of the machine is one statement read and executed, or the end of the stream |
| SmclParser.SMCLParser.processNewSection | src/shell/lang/smcl_parser.cpp:115-127 | opens one scope, also for a dotted name, with no prefix of its own; refused in a header |
| SmclParser.SMCLParser.processNewBinding | src/shell/lang/smcl_parser.cpp:129-136 | binds the section path and the name outside the header, a header entry inside |
| SmclParser.SMCLParser.pushGlobalBindingValueFromKey | src/shell/lang/smcl_parser.cpp:138-146 | a translation is the prefixes in force and the literals; an earlier binding of the key stays |
| SmclParser.SMCLParser.pushHeaderBindingValueFromKey | src/shell/lang/smcl_parser.cpp:148-160 | exactly the four header keys are known |
| SmclParser.SMCLParser.pushHeaderNameValue | src/shell/lang/smcl_parser.cpp:162-175 | given at most once, with the prefixes in force |
| SmclParser.SMCLParser.pushHeaderLocaleValue | src/shell/lang/smcl_parser.cpp:177-190 | given at most once, with the prefixes in force |
| SmclParser.SMCLParser.pushHeaderVersionValue | src/shell/lang/smcl_parser.cpp:192-214 | given at most once, three numbers as 16-bit parts, no semicolon |
| SmclParser.SMCLParser.pushHeaderAuthorsValue | src/shell/lang/smcl_parser.cpp:216-232 | given at most once, every author with the prefixes in force |
| SmclParser.SMCLParser.loadStringValue | src/shell/lang/smcl_parser.cpp:234-263 | one or more literals up to an end token, joined after the prefixes in force |
| SmclParser.SMCLParser.loadListOfStringValue | src/shell/lang/smcl_parser.cpp:265-280 | a bracketed list of such values and a semicolon |
| SmclParser.SMCLParser.processNewEnd | src/shell/lang/smcl_parser.cpp:282-297 | closes the innermost scope and forgets its prefix only, or closes a header that gave all four entries |
| SmclParser.SMCLParser.processNewStrBegin | src/shell/lang/smcl_parser.cpp:299-305 | sets the prefix of the innermost scope unless it has one |
| SmclParser.SMCLParser.processNewHeader | src/shell/lang/smcl_parser.cpp:307-319 | a header is opened once, and outside all sections |
| SmclParser.SMCLParser.getIdentifierName | src/shell/lang/smcl_parser.cpp:321-356 | identifiers and points up to the end token, neither starting nor ending with a point |
| SmclParser.SMCLParser.checkHeaderBindings | src/shell/lang/smcl_parser.cpp:358-377 | the flags are complete exactly when all four keys were given |
| SmclParser.SMCLParser.getSectionsFullName | src/shell/lang/smcl_parser.cpp:421-427 | the path of the open sections |
| SmclParser.SMCLParser.getFullStrBegins | src/shell/lang/smcl_parser.cpp:429-445 | collecting, sorting and joining the map is the stack of prefixes joined from the outside in, so no closed scope contributes |
| SmclDocument.FirstWinsMeans | src/shell/lang/smcl_parser.cpp:138-146 | a key has the value it had before, or that of the first binding with this key |
| SmclDocument.ExecDocument | src/shell/lang/smcl_parser.cpp:59-146 | executing the statements of a well-formed document yields its meaning as a tree |
| SmclDocument.DocumentOf | src/shell/lang/smcl_parser.cpp:59-77 | every accepted token stream is a well-formed document: balanced sections, one header, outside all sections, complete if it is closed |
| SmclDocument.RunIsMeaning | src/shell/lang/smcl_parser.cpp:59-146 | a token stream is accepted if and only if it is the tokens of a well-formed document, and the data are then its meaning |
| SmclHeader.MeaningGives | src/shell/lang/smcl_parser.cpp:148-232 | each header field gives the entry of its name, behind the prefix in force at it; no entry is given twice, a closed header names all four, and what is not named stays |
| SmclHeader.NoOtherEntry | src/shell/lang/smcl_parser.cpp:148-160 | a header field by any other name, or with a value of another form, makes the document ill-formed |
| SmclSample.Sample | src/shell/lang/smcl_parser.cpp:59-146 | one file, token by token, with its header, nested sections, prefixes and dotted keys, and all the data it gives |
| SmclLoader.load | src/shell/lang/smcl_loader.cpp:17-35 | a text is accepted if and only if it spells a well-formed document, and the language data become that document's meaning, its header entries being those the names "name", "locale", "version" and "authors" in the text give |
| SmclDocument.PrintWrites | src/shell/lang/smcl_lexer.cpp:44-138 | a printed document spells the document |
| SmclFormatter.SMCLFormatter.format | Client/include/shell/lang/smcl_formatter.hpp:50-55 | the output is continued with one scan of the rest of the template, the arguments taken in order; a new formatter fills the whole template |
| SmclFormatter.SMCLFormatter.processChar | src/shell/lang/smcl_formatter.cpp:8-17 | one character or one whole placeholder, never looking into an argument |
| SmclFormatter.SMCLFormatter.isArgHere | src/shell/lang/smcl_formatter.cpp:19-24 | a complete `${}` starts at the cursor |
| SmclFormatter.FillWeaves | src/shell/lang/smcl_formatter.cpp:8-24 | the first placeholders, as many as there are arguments, are replaced in order, and everything else is copied |
| SmclFormatter.Unglue | src/shell/lang/smcl_formatter.cpp:19-24 | every template is plain texts with placeholders between them, so the above covers them all |
| CommandLines.CommandLine.tokenize | src/shell/command_line.cpp:19-33 | the tokens of the line, behind those of an earlier call |
| CommandLines.CommandLine.processSimpleQuotes | src/shell/command_line.cpp:35-46 | a simple quote outside double quotes, and nothing else, ends the item and changes the mode |
| CommandLines.CommandLine.processDoubleQuotes | src/shell/command_line.cpp:48-59 | a double quote outside simple quotes, and nothing else, ends the item and changes the mode |
| CommandLines.LineTokens | src/shell/command_line.cpp:19-66 | the tokens of any line of words, blanks, quoted texts and an unclosed quote |
| CommandLines.Segmented | src/shell/command_line.cpp:19-66 | every line is such a line |
| CommandLines.TokensAreMeant | src/shell/command_line.cpp:35-59 | the tokens are the words and the quoted texts if and only if no quoted text directly follows one with the same quotes |
| CommandLines.TouchingQuotes | src/shell/command_line.cpp:35-46 | an input for which they are not |
| CommandLines.UnquotedTokens | src/shell/command_line.cpp:25-29 | a line without quotes is split at its blanks, empty pieces dropped |
| CommandLines.BlankSplits | src/shell/command_line.cpp:19-33 | behind a text without quotes, each of blank, tab, line feed, vertical tab, form feed and carriage return ends a token: the tokens are those before it and those behind it |
| CommandLines.WordKept | src/shell/command_line.cpp:19-33 | every other character but the two quotes stays in its word |
| CommandLines.QuoteRoundTrip | src/shell/command_line.cpp:19-66 | any tokens, each between quotes it does not contain and joined by blanks, come back |
| Bytes.ValueOfLittleEndian | Shared/include/Shared/network/array_editor.ipp:50-56 | writing and reading an integer keeps it modulo the range of its type |
| Bytes.WriteBack | Shared/include/Shared/network/array_editor.ipp:9-22 | the bytes read are those that would be written |
| WireFormat.IntegerBytes | Shared/include/Shared/network/array_editor.ipp:50-56 | integers of one, two, four and eight bytes, byte by byte, least significant first |
| ArrayEditors.ArrayBuilder.insertInt | Shared/include/Shared/network/array_editor.ipp:50-56 | appends the little-endian bytes, written one by one behind the old end |
| ArrayEditors.ArrayBuilder.insertBool | Shared/src/network/array_editor.cpp:60-62 | appends one byte, 0 or 1 |
| ArrayEditors.ArrayBuilder.insertBuffer | Shared/include/Shared/network/array_editor.ipp:58-73 | appends the length and the content, cut to the greatest length |
| ArrayEditors.ArrayAnalyzer.extractInt | Shared/include/Shared/network/array_editor.ipp:9-22 | reads the integer ahead or fails without moving; the cursor never passes the end |
| ArrayEditors.ArrayAnalyzer.extractBool | Shared/src/network/array_editor.cpp:42-49 | any byte but 0 is true |
| ArrayEditors.ArrayAnalyzer.extractBuffer | Shared/include/Shared/network/array_editor.ipp:24-48 | reads length and content; a length that is too great fails behind the length |
| ArrayEditors.FieldsRoundTrip | Shared/include/Shared/network/array_editor.ipp:9-73 | any sequence of fields is extracted as inserted, buffers cut to their greatest length, and the cursor ends right behind them |
| ArrayEditors.ExtractedIsEncoding | Shared/include/Shared/network/array_editor.ipp:9-48 | on arbitrary bytes, what was taken for an integer or a buffer is the encoding of what was extracted |
| WireFormat.FieldBytes | Shared/include/Shared/network/array_editor.ipp:50-73 | the bytes of every kind of field; a buffer longer than 65535 bytes keeps its first 65535 |
| Responses.ResponseBuilder.buildNormal | Server/src/network/response/builder.cpp:10-14 | begins a normal response |
| Responses.ResponseBuilder.buildError | Server/src/network/response/builder.cpp:16-24 | begins an error, forgetting what was built before |
| Responses.ResponseBuilder.InsertField | Server/include/network/response/builder.hpp:11-31 | a field goes behind everything, header included |
| Responses.ReplyIsMeaning | src/network/request/handler.cpp:22-64 | whatever is inserted after an error, the client reads that error, its message cut to 65535 bytes; a normal response is read as its fields |
| WireFormat.ResponseBytes | Server/src/network/response/builder.cpp:10-35 | a response is 0x00 and the fields, or 0xFF, the error, the length of its message, the message and any fields |
| WireFormat.ReplyBytes | src/network/request/handler.cpp:22-64 | a frame is granted if it starts with 0x00, an error if with 0xFF and its message is complete, malformed if it is too short, and else of an unknown type |
| Bfl.BFLEncoder.encode | Server/src/network/bfl/encoder.cpp:15-22 | the buffer allocated up front is filled exactly, in bounds, with the encoded list, behind what was encoded before |
| Bfl.BFLEncoder.pushFileCount | Server/src/network/bfl/encoder.cpp:24-29 | makes room for the count and writes it |
| Bfl.BFLEncoder.allocMemoryForFiles | Server/src/network/bfl/encoder.cpp:31-37 | makes room for all records and keeps what is written |
| Bfl.BFLEncoder.pushFile | Server/src/network/bfl/encoder.cpp:39-66 | writes one record at the offset, inside the buffer |
| Bfl.BFLDecoder.decode | src/network/bfl/decoder.cpp:35-47 | succeeds if and only if an encoded list starts at the offset, adds that list and stops right behind it; a new decoder is total on arbitrary bytes |
| Bfl.BFLDecoder.getFileCount | src/network/bfl/decoder.cpp:49-57 | the count, if there are four bytes |
| Bfl.BFLDecoder.decodeFile | src/network/bfl/decoder.cpp:59-66 | one record, if and only if one starts here |
| Bfl.BFLDecoder.getFileName | src/network/bfl/decoder.cpp:88-103 | a name of the announced size, never beyond the end |
| Bfl.ListUnique | src/network/bfl/decoder.cpp:35-103 | no bytes start with the encodings of two lists |
| Bfl.ListSize | Server/src/network/bfl/encoder.cpp:68-71 | a list takes at least 4 + 11 n bytes, and the sizes computed up front are those written |
| Bfl.SendList | Server/src/network/bfl/encoder.cpp:15-71 | encoding and decoding gives the list back if and only if count and names fit their length fields |
| WireFormat.ListBytes | Server/src/network/bfl/encoder.cpp:24-66 | a listing is four bytes of count and, for each file, its type, eight bytes of size, two of name length and the name |
| Framing.Channel.sendBuffer | Server/src/network.cpp:28-46 | length and content go behind what was sent before |
| Framing.Channel.readBuffer | src/network.cpp:46-63 | takes the next frame, or fails when it does not arrive completely |
| Framing.Channel.readInt | Client/include/network.hpp:32-45 | takes the next integer, or fails |
| Framing.FrameRoundTrip | src/network.cpp:19-63 | a buffer is read back, whatever follows, if and only if it is shorter than 2^32 bytes |
| Framing.FramesRoundTrip | Server/src/network.cpp:28-72 | any buffers sent in a row, empty ones included, are read back in a row with nothing left over |
| WireFormat.FrameBytes | Server/src/network.cpp:28-46 | a frame is four bytes of length, least significant first, and the content |
| Versions.FromCombinedOfCombine | Shared/src/util/version.cpp:14-23 | a version survives being combined |
| Versions.CombineOfFromCombined | Shared/src/util/version.cpp:14-23 | a number is the version read from it if and only if it has at most 48 bits |
| Versions.CombineOrders | Shared/src/util/version.cpp:14-17 | combined versions compare like versions, part by part |
| WireFormat.VersionBytes | Shared/src/util/version.cpp:14-17 | a version on the wire is patch, minor and major, two bytes each, and two zeros |
| VersionText.VersionStruct.setFromCombined | Shared/src/util/version.cpp:19-23 | the three fields are those that were combined |
| VersionText.VersionStruct.setFromString | Shared/src/util/version.cpp:25-33 | reads the three parts of a text with exactly two dots, each modulo 2^16, setting them one by one until one fails; changes nothing for other texts |
| VersionText.StoiStops | Shared/src/util/version.cpp:31-31 | the second part is cut out too long, to no effect |
| VersionText.StoiReads | Shared/src/util/version.cpp:25-33 | a number is blanks, at most one sign and all the digits there are, if it is an `int` |
| VersionText.PartlyRead | Shared/src/util/version.cpp:25-33 | the parts before the first that is no number are set, and the others are not |
| VersionText.PrintAndRead | Shared/src/util/version.cpp:10-33 | a printed version is read back if and only if the delimiter is a dot |
| Strings.findOccurences | Shared/src/util/string.cpp:95-103 | all positions of the character, in order, and no others |
| Strings.utf8Length | Shared/src/util/string.cpp:36-54 | the number of strides over the bytes, also for malformed text |
| Strings.LengthOfEncoded | Shared/src/util/string.cpp:36-54 | for any code points encoded as in section 3 of RFC 3629 the length is their number |
| Transfers.DownloadExact | src/network/request/handlers/io_get_file_content.cpp:67-87 | the frames of a download are as many as announced, each write stays inside its frame, and the bytes written are the file, for every file and buffer size |
| Transfers.UploadExact | src/network/request/handlers/io_set_file_content.cpp:48-92 | the frames of an upload are as many as announced, none longer than the buffer, and joined they are the content |
| Transfers.UploadArrives | Server/src/network/request/handlers/io_set_file_content.cpp:86-99 | the server reads exactly these frames off the bytes and joins them to the content |
| Transfers.UploadFrame | src/network/request/handlers/io_set_file_content.cpp:72-92 | frame number i of an upload is the i-th chunk, the last one what is left |
| Transfers.DownloadFrame | Server/src/network/request/handlers/io_get_file_content.cpp:81-94 | a download has the same frames, but where nothing is left for the last one, what the buffer still holds is sent again |
| Transfers.SendChunk | Server/src/network/request/handlers/io_get_file_content.cpp:84-91 | one turn: the buffer, cut down for a short last chunk, is read into and sent, and the frames still to be sent are the remaining ones |
| Transfers.TransmitDownload | Server/src/network/request/handlers/io_get_file_content.cpp:81-94 | on a file of any length, sends the announced number of frames, the buffer keeping what it held where the file ends too early |
| Transfers.ReadsExact | Server/src/network/request/handlers/io_get_file_content.cpp:81-94 | on a file as long as announced these are full chunks, then the short rest or the stale buffer |
| Transfers.Downloader.downloadNextBuffer | src/network/request/handlers/io_get_file_content.cpp:67-87 | takes one frame and writes the part of it that belongs to the file, or fails when the frame is too short for that |
| Transfers.Downloader.downloadFile | src/shell/commands/io_load/file_downloader.cpp:13-32 | on whatever arrives, takes the announced frames and stays inside them if and only if each is long enough; then writes what is cut from them in order |
| Transfers.ShortFrame | src/network/request/handlers/io_get_file_content.cpp:75-84 | bytes for which the client would read past the end of its buffer |
| Transfers.Uploader.uploadNextBuffer | src/network/request/handlers/io_set_file_content.cpp:72-92 | sends the next chunk of the stream, padded with zeros when the stream is shorter than announced |
| Transfers.Uploader.uploadFile | src/shell/commands/io_load/file_uploader.cpp:18-37 | on a stream of any length, sends the announced number of frames |
| Transfers.AnnouncedExact | src/network/request/handlers/io_set_file_content.cpp:72-92 | on a stream as long as announced these are full chunks and the rest |
| Transfers.AnnouncedContent | src/network/request/handlers/io_set_file_content.cpp:72-92 | on any stream, joined they are the stream cut or padded with zeros to the announced size |
| Transfers.TransmitUpload | Server/src/network/request/handlers/io_set_file_content.cpp:86-99 | writes the announced number of frames, whatever they are, or as many as arrive |
| RequestHandlers.ClientReads | Server/src/network/request/handler.cpp:28-61 | what the client reads from a handler's one response: an unmet requirement, else the last error reported before sending, else an invalid request if nothing was sent, else all inserted fields |
| RequestHandlers.RH.sendResponse | Server/src/network/request/handler.cpp:45-61 | sends the response the first time only |
| RequestHandlers.RH.CheckRequirements | Server/src/network/request/handler.cpp:63-97 | succeeds if and only if version, login and role all meet the requirements; otherwise builds the error of the first that does not, 0x00, 0x10 or 0x20 |
| RequestHandlers.RH.Perform | Server/src/network/request/handler.cpp:28-61 | any sequence of extractions, insertions, errors and sends sends at most one response, the one built up to the first send |
| RequestHandlers.RH.extractPath | Server/src/network/request/analyzer.cpp:9-18 | a path that cannot be extracted is reported at once |
| RequestHandlers.RH.checkBufferSize | Server/src/network/request/handlers/io_get_file_content.cpp:44-56 | accepts exactly sizes from 1 to the maximum |
| RequestHandlers.RH.GetFileContent | Server/src/network/request/handlers/io_get_file_content.cpp:22-94 | one response with size and frame count and then the frames, or nothing sent and the error of the denied request |
| RequestHandlers.RH.SetFileContent | Server/src/network/request/handlers/io_set_file_content.cpp:26-99 | one response and then the announced frames become the file, or nothing sent or read and the error of the denied request |
| RequestHandlers.RH.run | Server/src/network/request/handler.cpp:28-43 | the handler's own part runs if and only if version, login and role meet the requirements, and then exactly one response frame leaves, before any data, and files and input change only as the granted transfer says; otherwise the one frame is the error 0x00, 0x10 or 0x20 and nothing changes |
| ClientRequests.RH.checkResponse | src/network/request/handler.cpp:22-48 | reads one frame and takes it for what it means: granted, refused, unknown or malformed |
| ClientRequests.RH.processResponseError | src/network/request/handler.cpp:50-64 | the error id and the message, or malformed |
| ClientRequests.RH.AskDownload | src/network/request/handlers/io_get_file_content.cpp:30-37 | sends the request with the path and the buffer size |
| ClientRequests.RH.BeginDownload | src/network/request/handlers/io_get_file_content.cpp:36-45 | continues exactly when a frame arrives that grants the download with both numbers |
| ClientRequests.RH.AskUpload | src/network/request/handlers/io_set_file_content.cpp:34-50 | sends the request with path, size, buffer size and frame count |
| ClientRequests.DownloadUnderstood | Server/src/network/request/handlers/io_get_file_content.cpp:22-71 | the server makes of a download request what the client meant, the path cut to 65535 bytes |
| ClientRequests.UploadUnderstood | Server/src/network/request/handlers/io_set_file_content.cpp:26-84 | the server makes of an upload request what the client meant |
| WireFormat.RequestLayout | src/network/request/handlers/io_set_file_content.cpp:34-50 | the bytes of the requests for a download and an upload, and of the one that ends the session |
| WireFormat.DownloadBytes | Server/src/network/request/handlers/io_get_file_content.cpp:22-71 | what those bytes lead to: error 0x41 for the buffer size, else 0x42 for the file, else the file |
| WireFormat.UploadBytes | Server/src/network/request/handlers/io_set_file_content.cpp:26-84 | and for an upload: error 0x41, else 0x42, else the announced transfer |
| WireFormat.TooShort | Server/src/network/request/handlers/io_set_file_content.cpp:26-84 | a request that ends before its last field is answered by error 0x01 |
| WireFormat.OpenedBytes | Server/src/network/request/handlers/io_get_file_content.cpp:58-79 | the response that opens a download: size of the file and number of frames, size / buffer size + 1 |
| ClientRequests.SizesOpened | src/network/request/handlers/io_get_file_content.cpp:36-45 | the client learns size and frame count from a download that is accepted, and from nothing else |
| ClientRequests.DownloadReply | src/network/request/handlers/io_get_file_content.cpp:30-45 | what the client gets out of all the bytes the server sends for a download request |
| ClientRequests.DownloadFile | src/shell/commands/io_load/file_downloader.cpp:13-32 | both ends together: a copy is made if and only if version, login and role meet the requirements, the buffer size is accepted and the file is there, and then it is the file |
| ClientRequests.UploadReply | Server/src/network/request/handlers/io_set_file_content.cpp:26-84 | what the client gets out of what the server sends for an upload request, and what the server takes the request for |
| ClientRequests.UploadFile | src/shell/commands/io_load/file_uploader.cpp:18-37 | both ends together: an upload is made if and only if version, login and role meet the requirements, the buffer size is accepted and the file can be opened; then the file has the content, and else no file has changed |
| ServerSessions.Client.checkWelcomeMessage | Server/src/network/client.cpp:80-98 | accepts exactly the three bytes of the welcome message |
| ServerSessions.Client.checkVersion | Server/src/network/client.cpp:104-117 | learns the client's version and answers with three, or neither |
| ServerSessions.Client.handleNewRequest | Server/src/network/client.cpp:119-139 | one buffer off the stream: ignored if empty, else served; the end of the stream ends the session |
| ServerSessions.Client.processReceivedRequest | Server/src/network/client.cpp:141-160 | quitting ends the session unanswered, an unknown id and every handler are answered |
| ServerSessions.Client.sendResponseError | Server/src/network/client.cpp:162-168 | one error response |
| ServerSessions.Client.startCommunication | Server/src/network/client.cpp:66-78 | on whatever bytes arrive: the flag, the versions, and then exactly what serving the requests one by one sends, with the files that leaves |
| ServerSessions.EachAnsweredOnce | Server/src/network/client.cpp:119-160 | whatever bytes arrive and whatever handlers do, every request that is not empty is answered by exactly one well-formed response, and data follow only a granted download |
| Permissions.Denied | Server/src/network/request/handler.cpp:63-97 | a request that is denied, by its id and what is known of the peer, is answered by its error and changes nothing |
| Permissions.NotLogged | Server/src/network/request/handler.cpp:80-87 | a peer that is not logged is refused every id but 0x00, 0x21, 0x83 and 0x84: error 0x02 if no handler has it, 0x00 if the version is too old, else 0x10; files, peer and stream stay |
| Permissions.OpenToAll | Server/include/network/request/handlers/io_move_file.hpp:8-12 | the handlers of those four ids run for everyone whose version is at least 1.0.0 |
| Permissions.DevelopersOnly | Server/include/network/request/handlers/run_syscmd.hpp:11-15 | 0x23 and 0xA0 take a role of at least 2, else error 0x20 |
| Permissions.LoggedIsServed | Server/include/network/request/factory.hpp:30-50 | every other known id is served to whoever is logged, 0x44 as a download and 0x60 as an upload |
| Permissions.QuitsUnanswered | Server/src/network/client.cpp:119-146 | 0x20 ends the session and an empty request is ignored, both without an answer |
| Permissions.NoneServedWithoutLogin | Server/src/network/client.cpp:141-160 | whatever bytes arrive on a connection: as long as no handler leaves a login, every request but those four is answered by its error, and the files change only through those four |
| ClientSessions.Client.connect | src/network/client.cpp:27-39 | sends the welcome message and, if it is accepted, the version, and learns the versions that arrive; a client that is turned away stays marked as connected |
| ClientSessions.Client.checkWelcomeMessage | src/network/client.cpp:59-71 | accepted exactly when a flag arrives that is not 0 |
| ClientSessions.Client.checkVersion | src/network/client.cpp:73-95 | learns the three versions, or as many as arrive, one after the other |
| ClientSessions.Client.close | src/network/client.cpp:116-121 | announces the end with a request of two bytes |
| ClientSessions.Handshake | src/network/client.cpp:59-95 | both ends together: each reads what the other writes, both succeed and each learns the other's versions, nothing left over |
| SessionInvariant.HandshakeKeeps | Server/src/network/client.cpp:66-117 | the steps of the handshake keep the two parties in step |
| SessionInvariant.VersionsKeep | src/network/client.cpp:73-95 | so do the steps that exchange the three versions |
| SessionInvariant.AskKeeps | src/network/request/handler.cpp:18-20 | and a new request, even while the server is still receiving |
| SessionInvariant.TakeRequestKeeps | Server/src/network/client.cpp:119-144 | the server takes only the one request that is awaited, or the end |
| SessionInvariant.RespondKeeps | Server/src/network/request/handler.cpp:28-61 | any response of any handler, known or unknown request, keeps them in step |
| SessionInvariant.HearKeeps | src/network/request/handler.cpp:22-39 | the client acts on a response as the server expects |
| SessionInvariant.FetchKeeps | src/network/request/handlers/io_get_file_content.cpp:67-87 | a frame of a download is long enough for what is written of it, and the rest still completes the file |
| SessionInvariant.SendKeeps | Server/src/network/request/handlers/io_get_file_content.cpp:81-94 | sending a frame leaves the same frames to come |
| SessionInvariant.PushKeeps | src/network/request/handlers/io_set_file_content.cpp:72-92 | pushing a frame leaves the same frames for the server |
| SessionInvariant.ReceiveKeeps | Server/src/network/request/handlers/io_set_file_content.cpp:86-99 | what was received and what is on its way stay the offered file |
| SessionInvariant.FetchAnswer | Server/src/network/request/handlers/io_get_file_content.cpp:22-79 | a download request is answered with size and frame count of the file it names, or with an error |
| SessionInvariant.PushAnswer | Server/src/network/request/handlers/io_set_file_content.cpp:26-37 | an upload is granted if and only if the server goes on to receive it |
| SessionRuns.InStep | src/network/request/handler.cpp:22-48 | in every reachable state neither end has read anything but what it expects |
| SessionRuns.OneResponse | Server/src/network/request/handler.cpp:28-61 | in every reachable state, what is at the head of the channel when the client reads its reply is the response to the request it awaits, granting or refusing it; there is at most one, and data travel only behind it |
| SessionRuns.Lockstep | Server/src/network/client.cpp:119-160 | when the client may ask again everything was answered and read, all downloads are complete, nothing is on its way to it, and exactly the frames the server still needs of an upload are on their way to the server |
| SessionRuns.ReadyAfterReply | src/network/request/handler.cpp:22-39 | after a reply, both channels are empty and the server waits whenever the client becomes ready for its next request, if and only if the reply does not grant an upload |
| SessionRuns.ReadyAtFirst | src/network/client.cpp:27-39 | and the same always holds before the first request |
| SessionRuns.AheadOfServer | src/network/request/handlers/io_set_file_content.cpp:72-92 | after every upload that is granted in any reachable state, the client can be ready while no frame has been read |
| SessionRuns.NotLockstep | src/shell/commands/io_load/file_uploader.cpp:18-37 | a reachable session in which the client is ready and the channel to the server is not empty |
| SessionRuns.CopiesExact | src/shell/commands/io_load/file_downloader.cpp:21-28 | in every reachable state finished downloads are the files served and finished uploads the contents offered, in order, at most the last one missing |
| SessionRuns.Progress | Server/src/network/client.cpp:66-78 | a session that is not at rest is never stuck |
| SessionRuns.Descends | Server/src/network/client.cpp:66-78 | every step but a new request brings it closer to rest |
| SessionRuns.ComesToRest | Server/src/network/client.cpp:66-78 | so it gets there from every reachable state, with everything answered, read, served and stored |
| SessionTransfers.FetchCompletes | src/shell/commands/io_load/file_downloader.cpp:13-32 | a download that can be granted: however both ends go on, at rest the client has one more file, and it is the one it asked for |
| SessionTransfers.PushCompletes | src/shell/commands/io_load/file_uploader.cpp:18-37 | an upload that can be granted: however both ends go on, at rest the file at that path has the content, and no other has changed |
| SessionTransfers.Quits | src/network/client.cpp:116-121 | a client at rest can end the session, and the server then closes it |
| Permissions.NothingWithoutLogin | Server/src/network/request/handler.cpp:80-87 | in every session in which no handler leaves a login, nothing is served, stored, fetched or offered, and no file changes but through one of the four open ids |
| SessionRuns.Connects | src/network/client.cpp:27-39 | the handshake succeeds, and the server then knows the client's version |
| SessionRuns.PacketsOnTheWire | src/network.cpp:46-63 | in every reachable state the packets are what both ends read off the bytes written |
| SessionServer.StepsServe | Server/src/network/client.cpp:119-160 | the server's steps for a request send the same bytes, leave the same bytes unread and the same files as its loop, also when the bytes end within an upload |

## Left out

- Sockets, name resolution, partial delivery, timeouts and error codes: replaced by channels.
- Paths and the file system (`Server/src/io/sfs.cpp`): a user's files are a map from the path in the request to a content, and a set of paths that cannot be opened for writing.
- Login, users and roles: a handler other than the two transfers is any sequence of calls, and leaves any login and any files.
- Console output, progress bars, colours, lengths of time, commands that only call a handler, server restart, system commands, threads and signals.
- Configuration files and the resolver that runs over the command line before the tokenizer.
- Error message texts: parameters of the model; an analyzer only knows whether there is an error.
- The interrupt `shutdown_requested`, and what a server thread does after an exception.
- The null checks of lexer, parser, loader and handlers, and failing to open a language file.
- SmclParser.SMCLParser.SortedDepths: the library sort is a function of the model, as is the order in which the map is walked.
- SmclParser.SMCLParser.constructor: the language data are a value of the parser, not an object shared with its caller.
- Strings.utf8Length: text in another encoding than that of RFC 3629 has a length, but nothing is said about its meaning.
- ClientRequests.RH.AskDownload: the original's `_run` sends its request and waits for the response in one call; the model has one method before and one after the wait. The same holds for `RH.AskUpload`.
- RequestHandlers.RH.extractPath: the path is left as the request names it; resolving it against the user's root directory is not modelled.
- ClientSessions.Client.connect: the messages that compare the versions.
- Transfers.Downloader.downloadNextBuffer: what is written when the original reads past the end of its buffer; the model stops there.
- Sessions: the step system has one client; a response or request of 2^32 bytes or more is not taken into account there.
