# Dafny model of the HTTP and JSON engines and the dispatch loop

The project models, and proves properties of, the parts of the server where its difficulty lies.

- **The chunked decoder** (`ChunkedDecoder`, `ChunkedBody`, `ChunkedRuns`, `ChunkedVerdicts`): the resumable
  decoder for the chunked transfer coding (section 4.1 of RFC 7230) as a class that compacts its buffer in
  place, proved to compute a byte-at-a-time automaton; the automaton accepts exactly a grammar of bodies,
  asks for more exactly inside one, and cutting the stream into calls changes nothing.
- **The request parser** (`HttpGrammar`, `HttpParser`, `HttpTheorems`, `HttpMessages`, `HttpVerdicts`): the
  three-outcome parser with its fast scans and resume shortcut, proved equal to plain byte loops; its
  outcomes are stable, and all three are characterised by the rendered heads (sections 3.1.1, 3.2 and 3.2.6
  of RFC 7230).
- **JSON strings** (`JsonString`, `JsonUnicode`, `JsonEscapes`): the two passes of `parse_string`, which can
  fall out of step, stay within the allocation; well-formed literals yield the UTF-8 they denote (section 7
  of RFC 8259, sections 3 and 4 of RFC 3629).
- **JSON parser and printer** (`JsonTree`, `JsonGrammar`, `JsonParser`, `JsonNumbers`, `JsonTexts`,
  `JsonRoundTrip`, `JsonPrinter`, `JsonLayout`): the parser over a moving offset, which links new items into
  trees, and the printer over a fixed or growing buffer. The parser accepts exactly a grammar of texts with
  free white space, each for its meaning; printed text parses back exactly up to the nesting limit, and
  printing succeeds exactly when the text and two more bytes fit.
- **Minifier** (`JsonMinify`, `JsonMinifyTheorems`): in place, idempotent, insensitive to comments and white space,
  and on formatted text exact for precisely the trees that `MinifiesWell` describes.
- **Item lists and trees** (`ItemList`, `ItemTrees`, `ItemValues`, `ItemEdits`, `JsonLookup`, `JsonCompare`,
  `ItemCompare`): the linked lists of children on the heap, sequences of edits, recursive duplicates and
  parses over them, and the comparison of two trees.
- **Requests** (`Transacoes`): from the bytes read to the transaction, joining both parsers.
- **The event loop** (`WaitingList`, `Server`, `ServerTheorems`, `ServerRuns`, `ServerLives`, `EventLoop`): the
  waiting list as linked nodes, the pool of connections and the life of each request as a nondeterministic
  step system, what holds at every wait point of every run, how each request is answered, and runs that
  show what does not hold.

Code that changes state step by step is a class or a method with loops, proved against functions; what
the code promises is proved about those functions. `Bytes` holds bytes, 64-bit arithmetic and the
predicate that a sequence stands in another at some place; `Bits` the bit operations that encoding UTF-8 takes.

Where the code does not do what its comments or its purpose suggest, the model follows the code:

- `parse_hex4` gives 0 for bad digits, so `\uZZZZ` is accepted as U+0000 and swallows six bytes
  (cJSON/cJSON.c:640-643).
- `minify_string` takes a quote behind any backslash as escaped, also behind an escaped backslash
  (cJSON/cJSON.c:2840).
- The overhead guard tests data < read / 4, not the 80% of its comment (picohttpparser/picohttpparser.c:669-673).
- `queu_pop` sets `last` to the second node that is left (src/server.c:53).
- After a failed sender `queu_dispatch` releases the connection and goes on using it (src/server.c:213-216).
- "More than one match" is only noticed when the earlier match is not the first pattern (src/request.c:61).
- A request without a method is refused only once a byte behind its path and the spaces is there, and one
  whose version is wrong only once nine bytes are (picohttpparser/picohttpparser.c:376-384 and 280-286).
- Buffers need text + 2 bytes, not 5 bytes more than estimated (cJSON/cJSON.h:162).

Properties that are false without a condition are stated with their exact condition:
`WaitingList.PushAppends` and `ServerRuns.UndispatchedAreWaiting`, `ServerTheorems.OrderlyDispatch` and
`ServerTheorems.ExclusiveRuns`, `HttpTheorems.ResumeAgrees`, `HttpVerdicts.Verdicts`, `JsonMinifyTheorems.FormattedMinifies`,
`JsonRoundTrip.RoundTrip`, `JsonCompare.SameAsItself` and `ItemCompare.DuplicateCompares`,
`Transacoes.ValorStoredExactly`. The failing cases are shown by `ServerRuns.RequestLost` and
`ServerRuns.SharedConnectionReached`, `HttpTheorems.ResumeDelaysRefusal` and `HttpTheorems.ResumeRefusesEarly`,
`JsonMinifyTheorems.BackslashKeepsSpace`, `JsonCompare.RepeatedKeyDiffers`, `Transacoes.LargeValorAccepted` and
`JsonString.SecondPassMayPassTheQuote`.

Parameters stand for what the code cannot control: which requests' senders succeed and which completion
comes next (`Turn`), what `regexec` and `sscanf` say (`matches`, `scanned`), how `strtod` rounds (`round`), what an
out-of-range conversion leaves (`undefined`), and whether the processor has the 16-byte search instruction (`sse`).

To verify: `dafny verify dfyconfig.toml`.

## Model

| member | source | states |
|---|---|---|
| `ChunkedDecoder.Decoder.Decode` | picohttpparser/picohttpparser.c:543-676 | one call, in place, is one call of the byte-at-a-time automaton: afterwards the buffer holds the decoded data, then the input not consumed, then what stood behind the input; the decoder, the size and the return value are the automaton's |
| `ChunkedDecoder.Decoder.Scan` | picohttpparser/picohttpparser.c:550-663 | the six-state loop reads every byte the automaton reads, leaves the decoded data at the front, never overwrites unread input, and stops for the reason the automaton stops |
| `ChunkedDecoder.Decoder.ReadSize` | picohttpparser/picohttpparser.c:552-584 | the digits of a size and the byte behind them: more than 16 digits, no digit, or a byte that may not follow a size end the call with -1 |
| `ChunkedDecoder.Decoder.ReadDigits` | picohttpparser/picohttpparser.c:553-582 | the digit loop leaves the automaton's outcome for the rest of the input unchanged |
| `ChunkedDecoder.Decoder.SkipExt` | picohttpparser/picohttpparser.c:586-603 | the extension up to LF is passed over; a zero size leads to the trailers or completes the body |
| `ChunkedDecoder.Decoder.PassData` | picohttpparser/picohttpparser.c:605-621 | as much of the chunk as is there is moved down behind the data decoded before |
| `ChunkedDecoder.Decoder.SkipCrlf` | picohttpparser/picohttpparser.c:623-636 | CRs and an LF after the data; any other byte is refused and not consumed |
| `ChunkedDecoder.Decoder.ReadLineHead` | picohttpparser/picohttpparser.c:637-646 | a trailer line that is empty but for CRs completes the body |
| `ChunkedDecoder.Decoder.SkipLine` | picohttpparser/picohttpparser.c:648-657 | the rest of a trailer line is passed over |
| `ChunkedDecoder.Decoder.Account` | picohttpparser/picohttpparser.c:663-675 | the return value, and for an incomplete call the overhead counter and its guard, in 64-bit arithmetic |
| `ChunkedDecoder.Slide` | picohttpparser/picohttpparser.c:608-618 | moving input down appends exactly that input to the decoded data and leaves the rest of the buffer as it was |
| `Bytes.MoveDown` | picohttpparser/picohttpparser.c:666-667 | `memmove` to a lower address: every byte of the block arrives, every byte outside the target stays |
| `ChunkedDecoder.DataBlock` | picohttpparser/picohttpparser.c:605-621 | passing n data bytes at once is n steps of the automaton |
| `ChunkedBody.SizeNeverWraps` | picohttpparser/picohttpparser.c:576-581 | the size stays below 16 to the number of digits read, so the 64-bit multiplication and addition are exact |
| `ChunkedBody.RunBounded` | picohttpparser/picohttpparser.c:543-676 | so in every state that a zero-filled decoder reaches |
| `ChunkedBody.BodyRun` | picohttpparser/picohttpparser.c:550-664 | every body of the grammar (any hex spelling of 1 to 16 digits, LF-free extensions, optional trailers) is decoded to its data and left exactly at its end |
| `ChunkedBody.AcceptBody` | picohttpparser/picohttpparser.c:550-664 | conversely, a complete run has read a body of the grammar |
| `ChunkedBody.AcceptsExactlyBodies` | picohttpparser/picohttpparser.c:543-676 | one call succeeds if and only if the input starts with a body of the grammar; it then returns the concatenated data and the exact number of bytes left over |
| `ChunkedVerdicts.StateCompletes` | picohttpparser/picohttpparser.c:550-664 | from every state that a zero-filled decoder reaches some input completes the body |
| `ChunkedVerdicts.Verdicts` | picohttpparser/picohttpparser.c:543-676 | input from the start is incomplete if and only if it is a proper prefix of a body, complete if and only if it starts with one, and refused in all other cases |
| `ChunkedVerdicts.CallVerdicts` | picohttpparser/picohttpparser.c:543-676 | one call returns -2 if and only if its input is a proper prefix of a body and the overhead guard does not trip, and -1 if and only if the input neither starts with a body nor is such a prefix, or the guard trips |
| `ChunkedRuns.RunConcat` | picohttpparser/picohttpparser.c:550-661 | the automaton over two inputs, one after the other, is the automaton over both |
| `ChunkedRuns.CallConcat` | picohttpparser/picohttpparser.c:543-676 | two calls, the first incomplete, give the data, state and return value of one call |
| `ChunkedRuns.SplitInvariance` | picohttpparser/picohttpparser.c:543-676 | however a stream is cut into calls, data, rest, final state and return value are those of one call, unless the overhead guard ends an earlier call |
| `ChunkedRuns.CallAccounted` | picohttpparser/picohttpparser.c:669-674 | an incomplete call keeps: total read minus total overhead is the data delivered |
| `ChunkedRuns.RunAccounted` | picohttpparser/picohttpparser.c:548-674 | over any run of incomplete calls below 2^64 bytes the subtraction never wraps, and the guard fires exactly when the overhead is at least 100 KiB and the data below a quarter of what was read |
| `HttpGrammar.TokenCharsAreTchars` | picohttpparser/picohttpparser.c:96-103 | the table accepts exactly the tchar of section 3.2.6 of RFC 7230 |
| `HttpParser.FindCharFast` | picohttpparser/picohttpparser.c:105-132 | with or without the 16-byte instruction no skipped byte lies in the ranges, and a reported byte does |
| `HttpParser.ParseToken` | picohttpparser/picohttpparser.c:245-277 | the fast scan in front changes nothing: the result is that of testing byte by byte that each is a tchar up to the delimiter |
| `HttpParser.AdvanceToken` | picohttpparser/picohttpparser.c:71-94 | the same for the path |
| `HttpParser.ScanText` | picohttpparser/picohttpparser.c:139-170 | the fast scan and the loop that looks at eight bytes a turn skip only bytes that do not end the text |
| `HttpParser.GetTokenToEol` | picohttpparser/picohttpparser.c:134-195 | a header value ends where the byte-by-byte scan ends it |
| `HttpParser.IsComplete` | picohttpparser/picohttpparser.c:197-223 | the scan for the empty line, restarted three bytes before the old end |
| `HttpParser.ParseHttpVersion` | picohttpparser/picohttpparser.c:280-296 | HTTP/1. and one digit, -2 below nine bytes, -1 otherwise |
| `HttpParser.TrimValue` | picohttpparser/picohttpparser.c:341-350 | the value without the blanks behind it |
| `HttpParser.ParseHeader` | picohttpparser/picohttpparser.c:301-351 | one header line: a name, or none for a continuation line, and the value |
| `HttpParser.ParseHeaders` | picohttpparser/picohttpparser.c:298-353 | the header section fills the array from the front, in order; more headers than it holds are refused |
| `HttpParser.ParseRequestLine` | picohttpparser/picohttpparser.c:369-396 | the request line |
| `HttpParser.ParseRequestHead` | picohttpparser/picohttpparser.c:355-399 | the whole head |
| `HttpParser.PhrParseRequest` | picohttpparser/picohttpparser.c:401-427 | n with all spans, -1 or -2, with the shortcut if the caller passes an earlier length |
| `HttpTheorems.PrefixStability` | picohttpparser/picohttpparser.c:355-399 | a buffer that parses or is refused keeps its outcome and its spans however it is extended |
| `HttpTheorems.StrictPrefixesAreIncomplete` | picohttpparser/picohttpparser.c:355-399 | every strict prefix of an n-byte head is incomplete (-2) |
| `HttpTheorems.RestartScan` | picohttpparser/picohttpparser.c:197-223 | three bytes before the end of an incomplete scan its line-end count no longer matters |
| `HttpTheorems.ResumeScan` | picohttpparser/picohttpparser.c:197-223 | when the first L bytes scan as incomplete, the scan restarted at L - 3 gives what a scan from zero gives |
| `HttpTheorems.ScanFindsTheEnd` | picohttpparser/picohttpparser.c:197-223 | a head that parses is scanned as complete with the same end |
| `HttpTheorems.ResumeChangesNothing` | picohttpparser/picohttpparser.c:401-427 | for a head of more than L bytes that parses, passing last_len = L changes nothing |
| `HttpTheorems.ResumeIsFullScan` | picohttpparser/picohttpparser.c:413-419 | after an incomplete scan the shortcut decides what a scan of the whole buffer would decide |
| `HttpTheorems.ShortHeadParses` | picohttpparser/picohttpparser.c:355-399 | a head that ends within the first L bytes parses from them alone |
| `HttpTheorems.ResumeAgrees` | picohttpparser/picohttpparser.c:401-427 | after -2 for the first L bytes, last_len = L misses no head that is complete now; it changes nothing if and only if its scan finds an empty line or refuses just when the plain parse does |
| `HttpTheorems.ResumeAgreesAfterScan` | picohttpparser/picohttpparser.c:401-427 | the same after an incomplete scan of the first L bytes, where the scan of the whole buffer decides |
| `HttpTheorems.ResumeDelaysRefusal` | picohttpparser/picohttpparser.c:413-419 | after -2 for G, the buffer G@ is refused without the shortcut and incomplete with it |
| `HttpTheorems.ResumeRefusesEarly` | picohttpparser/picohttpparser.c:413-419 | after -2 for a request line up to its CR, another byte is incomplete without the shortcut and refused with it |
| `HttpMessages.LineRun` | picohttpparser/picohttpparser.c:369-396 | a rendered request line parses to its method, path and minor version |
| `HttpMessages.FieldRun` | picohttpparser/picohttpparser.c:301-351 | a rendered header line parses to its name and its trimmed value |
| `HttpMessages.FieldsRun` | picohttpparser/picohttpparser.c:298-353 | a rendered header section parses to its headers, in order, up to the limit |
| `HttpMessages.RenderedHeadParses` | picohttpparser/picohttpparser.c:298-427 | every valid head within the header limit, followed by any bytes, parses to exactly its spans, and n is its length |
| `HttpMessages.AcceptLine` | picohttpparser/picohttpparser.c:369-396 | conversely, a request line that parses is a rendered one |
| `HttpMessages.AcceptFields` | picohttpparser/picohttpparser.c:298-353 | and so is a header section |
| `HttpMessages.AcceptHead` | picohttpparser/picohttpparser.c:355-399 | and a whole head |
| `HttpMessages.SpansInOrder` | picohttpparser/picohttpparser.c:298-399 | all spans of an accepted head are ordered, do not overlap and lie within its n bytes |
| `HttpMessages.ParsesExactlyHeads` | picohttpparser/picohttpparser.c:355-427 | a buffer parses if and only if it starts with a valid rendered head (and then to its parts, by `RenderedHeadParses`) |
| `HttpVerdicts.FieldsBreakOff` | picohttpparser/picohttpparser.c:298-353 | a header section that asks for more is a proper prefix of a valid one within the limit |
| `HttpVerdicts.Verdicts` | picohttpparser/picohttpparser.c:355-427 | a buffer is incomplete if and only if it is a proper prefix of a valid head within the header limit, has fewer than nine bytes behind a method and a path, or has no method and breaks off before the byte behind the path; it is refused if and only if it is none of these and starts with no valid head |
| `HttpVerdicts.TooManyHeaders` | picohttpparser/picohttpparser.c:311-314 | a request line with more header lines than the limit behind it is refused, whatever follows |
| `JsonString.FindEnd` | cJSON/cJSON.c:791-813 | the first pass finds the closing quote and counts the escapes before it |
| `JsonString.ParseHex4` | cJSON/cJSON.c:620-652 | four hex digits, and 0 if one of them is bad |
| `JsonString.EncodeUtf8` | cJSON/cJSON.c:720-769 | the bytes written, last one first, are the UTF-8 of the code point (section 3 of RFC 3629), behind what was written before |
| `Bits.Continuation` | cJSON/cJSON.c:752 | the or with 0x80 and the mask 0xBF give, as a byte, 0x80 plus the low six bits |
| `Bits.FirstByte` | cJSON/cJSON.c:758-761 | the or with the mark of two, three or four bytes is, as a byte, their sum |
| `Bits.Pair` | cJSON/cJSON.c:712 | the masks, the shift and the or of a surrogate pair are its code point |
| `JsonString.Utf16LiteralToUtf8` | cJSON/cJSON.c:657-775 | one \u escape or surrogate pair, or a refusal |
| `JsonString.UnescapeOne` | cJSON/cJSON.c:833-878 | one escape sequence of the second pass |
| `JsonString.EscapesTakeTwo` | cJSON/cJSON.c:795-809 | every escape that the first pass counts accounts for two bytes of input, wherever the second pass joins |
| `JsonString.PlainStep` | cJSON/cJSON.c:828-831 | copying a byte keeps the passes in step |
| `JsonString.EscapeStep` | cJSON/cJSON.c:833-878 | unescaping a sequence keeps them in step, even one with bad digits that passes the closing quote |
| `JsonString.RoomLeft` | cJSON/cJSON.c:815-817 | in step means within the allocation, terminator included |
| `JsonString.SecondPassMayPassTheQuote` | cJSON/cJSON.c:640-643 | a concrete literal on which the second pass overshoots the closing quote by one |
| `JsonString.FillOutput` | cJSON/cJSON.c:824-882 | for every literal, bad \u digits included, the second pass fits in what the first pass allocated, and the bytes are the unescaped contents |
| `JsonString.ParseLiteral` | cJSON/cJSON.c:778-904 | both passes together: the allocation is never exceeded and ends in a terminator |
| `JsonUnicode.TextLiteral` | cJSON/cJSON.c:795-813 | a literal of well-formed items is closed where the items end |
| `JsonUnicode.StepMeaning` | cJSON/cJSON.c:826-879 | each step of the second pass reads what the next item denotes, or refuses it |
| `JsonUnicode.UnescapeItems` | cJSON/cJSON.c:826-879 | so from any item on |
| `JsonUnicode.LiteralDenotes` | cJSON/cJSON.c:778-904 | a valid UTF-8 literal whose \u have four digits unescapes to exactly the UTF-8 of the code points it denotes, or is refused for an unpaired surrogate or another bad escape |
| `JsonUnicode.DenotedIsUtf8` | cJSON/cJSON.c:778-904 | what it yields is a sequence of encoded scalar values |
| `JsonEscapes.EncodedDecodes` | cJSON/cJSON.c:720-769 | the bytes of every scalar value are a well-formed sequence of section 4 of RFC 3629, and its free bits are the value |
| `JsonEscapes.DecodedEncodes` | cJSON/cJSON.c:720-769 | conversely, every well-formed sequence is what is written for its value |
| `JsonEscapes.PairsCombine` | cJSON/cJSON.c:680-712 | the two halves of what lies above 0xFFFF combine to the code point |
| `JsonEscapes.HexDigits` | cJSON/cJSON.c:620-652 | which bytes are hexadecimal digits, and of which value |
| `JsonEscapes.Hex4Spells` | cJSON/cJSON.c:620-652 | four digits in either case are read as the number they spell |
| `JsonEscapes.ShortEscapes` | cJSON/cJSON.c:838-862 | the short escapes byte by byte, and the refusal of every other letter |
| `JsonParser.ParseBuffer.SkipWhitespace` | cJSON/cJSON.c:1043-1066 | the offset moves to the first byte above SP, or back onto the last byte |
| `JsonParser.ParseBuffer.SkipBom` | cJSON/cJSON.c:1069-1082 | a byte order mark is skipped |
| `JsonParser.ParseBuffer.CountNumberChars` | cJSON/cJSON.c:318-354 | how many bytes are copied for `strtod`, at most 63 |
| `JsonParser.ParseBuffer.ParseNumber` | cJSON/cJSON.c:305-378 | the item is a number with the exact value of the number characters, and the offset is where `strtod` stops |
| `JsonParser.ParseBuffer.ParseString` | cJSON/cJSON.c:778-904 | the item is a string with the text of the literal up to its first NUL |
| `JsonParser.NextItem` | cJSON/cJSON.c:1482-1502 | a new item goes behind the last one, linked both ways, before it is filled; the trees before it stand for what they stood for |
| `JsonParser.Finish` | cJSON/cJSON.c:1521-1528 | the first child leads to the last, and the children hang under the item: a well-linked tree of the array or object they make up |
| `JsonParser.ParseBuffer.ParseValue` | cJSON/cJSON.c:1317-1369 | the item becomes the root of a well-linked tree, new below it, that stands for the value that the grammar gives; the offset is behind it and the depth restored |
| `JsonParser.ParseBuffer.ParseItem` | cJSON/cJSON.c:1481-1512 | one turn of the array loop: the list of trees is one longer and stands for one item more |
| `JsonParser.ParseBuffer.ParseItems` | cJSON/cJSON.c:1478-1513 | the array loop: a chain of new trees that stand for the items read, up to the byte that is no comma |
| `JsonParser.ParseBuffer.ParseName` | cJSON/cJSON.c:1662-1683 | the text that is parsed first becomes the name of the item |
| `JsonParser.ParseBuffer.ParseMember` | cJSON/cJSON.c:1639-1692 | one turn of the object loop: one member more, with its name |
| `JsonParser.ParseBuffer.ParseMembers` | cJSON/cJSON.c:1636-1693 | the object loop |
| `JsonParser.ParseBuffer.ParseArray` | cJSON/cJSON.c:1446-1541 | the item becomes an array of the items in order, its list of children closed; refused at depth 1000 |
| `JsonParser.ParseBuffer.ParseObject` | cJSON/cJSON.c:1606-1716 | the same for an object and its members |
| `JsonParser.Parse` | cJSON/cJSON.c:1084-1183 | a new root, linked to nothing, of a well-linked tree of new items only for the value at the start of a C string, and where that ends; null if there is none |
| `JsonNumbers.DecimalParses` | cJSON/cJSON.c:305-378 | a decimal (sign, digits, point and digits, exponent) of at most 63 characters that no number character follows is read to its end, and its value v satisfies the equation between v, its digits and powers of ten |
| `JsonNumbers.AcceptDecimal` | cJSON/cJSON.c:305-378 | conversely, a number that is taken is such a decimal, with its value |
| `JsonNumbers.SpellsOneValue` | cJSON/cJSON.c:353 | the equation has exactly one solution |
| `JsonTexts.ElementsParse` | cJSON/cJSON.c:1478-1518 | elements with any white space around them parse to their meanings in order, if none nests too deep |
| `JsonTexts.EntriesParse` | cJSON/cJSON.c:1636-1694 | the same for the entries of an object, with white space around keys, colons and values |
| `JsonTexts.TextParses` | cJSON/cJSON.c:1317-1369 | wherever a text stands, it parses to its meaning and up to its end, exactly when it nests within 1000 |
| `JsonTexts.DocumentParses` | cJSON/cJSON.c:1084-1183 | a text with a byte order mark or none and white space (bytes up to 32) around every bracket, comma, colon, key and value parses to its meaning and stops at its end, exactly when it nests at most 1000 deep |
| `JsonTexts.AcceptElements` | cJSON/cJSON.c:1478-1518 | conversely, accepted elements are such elements |
| `JsonTexts.AcceptEntries` | cJSON/cJSON.c:1636-1694 | and accepted entries such entries |
| `JsonTexts.AcceptDocument` | cJSON/cJSON.c:1084-1183 | what is accepted is such a text, is what it means, and ends where it ends |
| `JsonTexts.ParsesExactlyTexts` | cJSON/cJSON.c:1084-1183 | input is accepted if and only if it starts with such a text; everything else is refused |
| `JsonRoundTrip.DecimalRun` | cJSON/cJSON.c:305-378 | the decimal text of an int, followed by no number character, parses back to that int |
| `JsonRoundTrip.StringRun` | cJSON/cJSON.c:778-904 | an escaped NUL-free byte string parses back to itself |
| `JsonRoundTrip.ItemsRun` | cJSON/cJSON.c:1480-1518 | printed items parse to those items, if none nests too deep |
| `JsonRoundTrip.MembersRun` | cJSON/cJSON.c:1638-1694 | printed members parse to those members, if none nests too deep |
| `JsonRoundTrip.ValueRun` | cJSON/cJSON.c:1317-1369 | the text of a value parses to it wherever it stands, exactly when depth and nesting stay within 1000 |
| `JsonRoundTrip.RoundTrip` | cJSON/cJSON.c:1317-1443 | parsing printed text, formatted or not, gives back the tree and stops at its end if and only if the tree nests at most 1000 deep; deeper trees are refused |
| `JsonPrinter.PrintBuffer.Ensure` | cJSON/cJSON.c:444-527 | succeeds exactly when offset + needed + 1 fits the fixed length or INT_MAX; growing keeps what was printed |
| `JsonPrinter.PrintBuffer.Reallocate` | cJSON/cJSON.c:491-527 | the old bytes are kept as far as they fit |
| `JsonPrinter.PrintBuffer.UpdateOffset` | cJSON/cJSON.c:530-540 | `strlen` from an offset inside printed text stops at the end of that text |
| `JsonPrinter.PrintBuffer.CountEscapes` | cJSON/cJSON.c:934-958 | the length computed before is the length of the escaped text, and no escape means a plain copy |
| `JsonPrinter.PrintBuffer.WriteEscape` | cJSON/cJSON.c:982-1019 | one byte as itself or escaped |
| `JsonPrinter.PrintBuffer.WriteEscaped` | cJSON/cJSON.c:977-1020 | the escaped text, within the space reserved |
| `JsonPrinter.PrintBuffer.PrintStringPtr` | cJSON/cJSON.c:907-1026 | succeeds exactly when the literal and two more bytes fit, and then holds it behind what was there |
| `JsonPrinter.PrintBuffer.PrintNumber` | cJSON/cJSON.c:551-617 | the digits and a terminator, and the offset behind the digits |
| `JsonPrinter.PrintBuffer.PrintItem` | cJSON/cJSON.c:1567-1591 | one turn of the array loop appends the item and its separator |
| `JsonPrinter.PrintBuffer.PrintArray` | cJSON/cJSON.c:1544-1603 | succeeds exactly when its text and two more bytes fit |
| `JsonPrinter.PrintBuffer.PrintKey` | cJSON/cJSON.c:1748-1781 | indent, key and colon |
| `JsonPrinter.PrintBuffer.PrintMember` | cJSON/cJSON.c:1746-1810 | one turn of the object loop appends key, value and separator |
| `JsonPrinter.PrintBuffer.PrintObject` | cJSON/cJSON.c:1719-1830 | succeeds exactly when its text and two more bytes fit |
| `JsonPrinter.PrintBuffer.PrintValue` | cJSON/cJSON.c:1372-1443 | for every valid tree, depth and format: success if and only if offset + text + 2 fits, and then the text and a terminator behind what was printed before, the depth restored |
| `JsonPrinter.TextNoNul` | cJSON/cJSON.c:1372-1443 | printed text holds no NUL, which is what `update_offset` relies on |
| `JsonPrinter.PrintPreallocated` | cJSON/cJSON.c:1297-1314 | succeeds if and only if length >= text + 2 (cJSON.h:162 advises 5 bytes more), and then holds the text |
| `JsonPrinter.PrintBuffered` | cJSON/cJSON.c:1267-1295 | from any start size the growing buffer ends with the same text, as long as text + 2 stays within INT_MAX |
| `JsonPrinter.Print` | cJSON/cJSON.c:1192-1265 | the result is the text and its terminator and nothing else, and parses back to the tree if that nests at most 1000 deep |
| `JsonLayout.StringNoControl` | cJSON/cJSON.c:977-1020 | printed strings hold no byte below 0x20 (section 7 of RFC 8259) |
| `JsonLayout.CompactNoControl` | cJSON/cJSON.c:1372-1443 | nor does any unformatted text: it is one line without tabs |
| `JsonLayout.DigitsCanonical` | cJSON/cJSON.c:550-616 | a printed number is digits with no zero in front (section 6 of RFC 8259) |
| `JsonLayout.FormattedLaid` | cJSON/cJSON.c:1544-1830 | in formatted text every line end is followed by one tab for each open bracket and a key, or by one less and a closing brace, every colon by one tab, every comma by one space or a line end; outside strings no other byte is up to 0x20, in strings none below it |
| `JsonMinify.SkipLine` | cJSON/cJSON.c:2799-2810 | a line comment is dropped |
| `JsonMinify.SkipBlock` | cJSON/cJSON.c:2812-2824 | a block comment is dropped |
| `JsonMinify.MinifyString` | cJSON/cJSON.c:2826-2846 | a literal is copied down; only a quote directly behind a backslash does not close it |
| `JsonMinify.MinifyStep` | cJSON/cJSON.c:2857-2889 | one turn of the loop; input that is not read yet is never overwritten |
| `JsonMinify.Minify` | cJSON/cJSON.c:2848-2894 | in place, for every C string: the buffer then starts with what a byte-at-a-time scanner keeps and a terminator, and nothing behind that changes |
| `JsonMinifyTheorems.MinifiedTwice` | cJSON/cJSON.c:2848-2894 | minifying is idempotent on every byte string |
| `JsonMinifyTheorems.LineCommentDropped` | cJSON/cJSON.c:2799-2810 | putting in a line comment up to its line end, outside strings, changes nothing that is kept |
| `JsonMinifyTheorems.BlockCommentDropped` | cJSON/cJSON.c:2812-2824 | nor does putting in a closed block comment |
| `JsonMinifyTheorems.BlankDropped` | cJSON/cJSON.c:2860-2866 | nor does putting in a space, a tab, CR or LF |
| `JsonMinifyTheorems.StringKept` | cJSON/cJSON.c:2840-2843 | the scanner leaves a printed literal at its end exactly if the string does not end in a backslash |
| `JsonMinifyTheorems.ValueKept` | cJSON/cJSON.c:2848-2894 | over the text of any value: unformatted text and back outside, unformatted text but still inside a string, or a byte that differs |
| `JsonMinifyTheorems.FormattedMinifies` | cJSON/cJSON.c:2848-2894 | minified formatted text equals unformatted text if and only if a string ending in a backslash stands only where nothing but closing brackets follow |
| `JsonMinifyTheorems.BackslashKeepsSpace` | cJSON/cJSON.c:2840-2843 | the array of a backslash and null does not minify to its unformatted text |
| `JsonMinifyTheorems.MinifiedParses` | cJSON/cJSON.c:2848-2894 | and then it parses to the same tree |
| `ItemList.ListIsDetermined` | cJSON/cJSON.c:1856-1873 | a well-linked list is acyclic and ends; two readings of it are the same sequence |
| `ItemList.GetArraySize` | cJSON/cJSON.c:1833-1854 | the walk along `next` ends after as many steps as there are items |
| `ItemList.GetArrayItem` | cJSON/cJSON.c:1856-1873 | the item at an index, or none |
| `ItemList.AddItemToArray` | cJSON/cJSON.c:1961-1992 | append; links stay mutual inverses and the head leads to the new tail |
| `ItemList.DetachItem` | cJSON/cJSON.c:2192-2226 | the k-th item leaves the sequence and keeps no link |
| `ItemList.InsertBefore` | cJSON/cJSON.c:2288-2299 | linking a new item in before the k-th |
| `ItemList.InsertItem` | cJSON/cJSON.c:2268-2300 | insert before the item at the index, or append |
| `ItemList.ReplaceItem` | cJSON/cJSON.c:2302-2349 | the k-th item is exchanged and keeps no link |
| `ItemList.DetachItemFromArray` | cJSON/cJSON.c:2228-2236 | the item at the index leaves, or nothing changes |
| `ItemList.ReplaceItemInArray` | cJSON/cJSON.c:2351-2359 | the item at the index is exchanged, or nothing changes |
| `ItemList.EditOnce` | cJSON/cJSON.c:1961-2359 | one append, insertion, detachment or replacement is that operation on the sequence, and every item outside the list still leads nowhere |
| `ItemList.EditAll` | cJSON/cJSON.c:1961-2359 | any sequence of them leaves a well-linked list of what the same operations make of the sequence |
| `ItemTrees.LinkBehind` | cJSON/cJSON.c:2769-2780 | a new item behind the last one, in a list whose first item does not lead to the last yet |
| `ItemTrees.Hang` | cJSON/cJSON.c:2769-2780 | the next tree goes behind the last one; all trees, and what they say, stay as they are |
| `ItemTrees.CloseList` | cJSON/cJSON.c:2783-2786 | the first child leads to the last, which makes the list well linked |
| `ItemTrees.DuplicateChildren` | cJSON/cJSON.c:2759-2786 | the loop over the children |
| `ItemTrees.Duplicate` | cJSON/cJSON.c:2716-2797 | a recursive duplicate is a well-linked tree of new items only that says the same; a flat one has no children |
| `ItemEdits.EditTree` | cJSON/cJSON.c:1961-2359 | one edit of the children of a tree: every tree stays a tree and says what it said |
| `ItemEdits.PlantedTree` | cJSON/cJSON.c:2192-2226 | after it the parent with its children is a tree, and each tree taken out shares no item with it |
| `ItemEdits.Perform` | cJSON/cJSON.c:1961-2797 | any sequence of appends, insertions, detachments, replacements, duplicates and parses leaves an array that is a well-linked tree, of the value that the same steps make of the list of values |
| `JsonCompare.IntsCompareExactly` | cJSON/cJSON.c:543-547 | the tolerance never makes two different ints equal |
| `JsonCompare.AllFoundCanonical` | cJSON/cJSON.c:3080-3111 | one pass over an object holds exactly if the maps agree on its keys |
| `JsonCompare.CompareIsEquality` | cJSON/cJSON.c:2996-3119 | on int trees with distinct keys the comparison holds if and only if the trees are equal with objects read as maps |
| `JsonCompare.SameAsItself` | cJSON/cJSON.c:2996-3119 | a value compares equal to a copy of itself if and only if, recursively, every member is the same as the first member of its name |
| `JsonCompare.DistinctAgree` | cJSON/cJSON.c:3080-3111 | which holds if no object has a key twice |
| `JsonCompare.RepeatedKeyDiffers` | cJSON/cJSON.c:3082-3095 | the object with the key a twice, for 1 and 2, does not compare equal to its copy |
| `ItemCompare.GetObjectItem` | cJSON/cJSON.c:1885-1915 | the first child of that name |
| `ItemCompare.CompareArrays` | cJSON/cJSON.c:3054-3076 | two walks in parallel, and both must end together |
| `ItemCompare.FindAll` | cJSON/cJSON.c:3082-3095 | one pass of the object comparison |
| `ItemCompare.ShapeIsDetermined` | cJSON/cJSON.c:3020-3024 | the same root is the same tree, so the shortcut for identical items is sound |
| `ItemCompare.Compare` | cJSON/cJSON.c:2996-3119 | on the heap, case-sensitively, for any two trees: what the recursive comparison of their values says, wherever meeting the same item on both sides is harmless; an item equals itself |
| `ItemCompare.ComparePlain` | cJSON/cJSON.c:2996-3119 | on int trees with distinct keys: true if and only if the values are equal with objects read as maps |
| `ItemCompare.DuplicateCompares` | cJSON/cJSON.c:2716-3119 | for every tree: a recursive duplicate compares equal to its source if and only if every member is the same as the first of its name |
| `JsonLookup.DistinctLookup` | cJSON/cJSON.c:1885-1915 | with distinct keys a lookup finds exactly the member of that name, whatever the order |
| `Transacoes.GetObjectItem` | cJSON/cJSON.c:1885-1925 | the child for the first member of that name, none for values that are no objects |
| `Transacoes.SelectPattern` | src/request.c:51-69 | the last pattern that matches wins; a match behind one at index 1 or more is refused, behind one at index 0 it is not |
| `Transacoes.RequestParser` | src/request.c:32-88 | accepted exactly when the head parses within 100 headers, the method starts like GET or POST, a pattern is selected and its id can be read; then body_loc is the length of the head, and otherwise the request data stays as it was |
| `Transacoes.VerbOfHead` | src/request.c:20-30 | the verb of a valid head is GET or POST exactly if its method starts with those bytes |
| `Transacoes.TakeMembers` | src/request.c:98-130 | the three lookups, checks and stores on the parsed tree |
| `Transacoes.ParseTransacoes` | src/request.c:90-136 | accepted exactly when the body's first valor, tipo and descricao are as asked, and then the fields are set and the rest of descricao is untouched |
| `Transacoes.WantedMembers` | src/request.c:98-130 | for distinct keys: exactly these three members decide, wherever they stand and whatever else there is |
| `Transacoes.ValorStoredExactly` | src/request.c:108 | an accepted valor is stored as it is if and only if it is below 2^63, whatever an undefined conversion leaves |
| `Transacoes.ExactValor` | src/request.c:98-108 | a valor up to 2^53 is wanted as it was sent |
| `Transacoes.LargeValorAccepted` | src/request.c:98-108 | a body with any valor that rounds to an integer up to 2^63, 2^63 included, is accepted |
| `Transacoes.FractionRefused` | src/request.c:100-108 | a body that is an object whose first valor is a decimal without exponent, of digits below 2^53, with a digit other than 0 behind its point is refused, for every rounding that is accurate to the 2^53rd part |
| `Transacoes.EndToEnd` | src/request.c:39-136 | for every valid head followed by a printed tree within the 4096 bytes, reading head and body gives what the tree asks for, or nothing if its first valor, tipo and descricao are not as asked or it nests deeper than 1000 |
| `WaitingList.Queue.QueuPush` | src/server.c:28-40 | the list afterwards is the pushed list of the model, including the pushes that cut it or miss it |
| `WaitingList.Queue.QueuPop` | src/server.c:41-56 | the first request is handed out and `last` points where the code leaves it |
| `WaitingList.PushAppends` | src/server.c:28-40 | a push appends if and only if the list is empty or `last` is its last node; otherwise a request is lost |
| `WaitingList.PopThenPush` | src/server.c:41-56 | after a pop the next push appends exactly if no request or two are left |
| `WaitingList.FatalIsUnreachable` | src/server.c:29-30 | the FATAL at the start of both functions fires in no run |
| `WaitingList.SafeRunsAreFifo` | src/server.c:28-56 | a run whose pushes are all safe is first in, first out, and the first unsafe push makes the list too short |
| `WaitingList.InterleavingLosesRequest` | src/server.c:53 | a concrete run that loses a request |
| `EventLoops.EventLoop.GetDbconn` | src/server.c:75-83 | the lowest unused connection is marked, or none is left |
| `EventLoops.EventLoop.ReleaseDbconn` | src/server.c:84-92 | the connection is unmarked |
| `EventLoops.EventLoop.PushAccepting` | src/server.c:94-144 | the lowest free slot accepts the next connection, or the server stops |
| `EventLoops.EventLoop.DispatchTurn` | src/server.c:207-220 | one turn of the dispatch loop is one step of the model |
| `EventLoops.EventLoop.QueuDispatch` | src/server.c:205-223 | the loop computes the model's dispatch and keeps its invariant |
| `EventLoops.EventLoop.HandleCompletion` | src/server.c:230-283 | every completion does to pools, list and requests what the model's step does, and keeps the invariant |
| `EventLoops.EventLoop.ServerLoop` | src/server.c:225-297 | over any turns the pools, the list and the requests are those of the run of the model, and the loop stops when the run does |
| `ServerTheorems.DispatchKeeps` | src/server.c:205-223 | after a dispatch nothing waits or every connection is marked, whichever senders fail |
| `ServerTheorems.CompleteKeeps` | src/server.c:230-283 | waiting requests stay distinct, being read, and without a pending completion |
| `ServerTheorems.RunsKeepInv` | src/server.c:225-297 | so in every run from the start |
| `ServerTheorems.WaitPointsAreBusy` | src/server.c:225-233 | at every wait point of every run the list from `first` is empty or all 75 connections are marked used |
| `ServerTheorems.OrderlyDispatch` | src/server.c:205-223 | a dispatch keeps connections exclusive if and only if no failing sender that the free connections reach comes before a succeeding one |
| `ServerTheorems.CompleteKeepsExclusive` | src/server.c:266-272 | every completion keeps connections exclusive |
| `ServerTheorems.ExclusiveRuns` | src/server.c:205-283 | over whole runs: marked used exactly when one and only one request in the DB holds it, at every wait point, if and only if every dispatch is orderly |
| `ServerTheorems.WithoutFailuresExclusive` | src/server.c:205-283 | in particular in every run in which no sender fails |
| `ServerTheorems.SharedConnection` | src/server.c:213-216 | from any such state: after a failed sender the next two requests get the same connection |
| `ServerRuns.FullRunReaches` | src/server.c:205-283 | for every n up to 75 a run from the start in which the first n requests hold the first n connections |
| `ServerRuns.SharedConnectionReached` | src/server.c:205-283 | a run from the start after which two requests wait for the DB on the same connection |
| `ServerRuns.UndispatchedAreWaiting` | src/server.c:28-56 | in every run the requests that asked for the DB and have not been dispatched are exactly the waiting ones if and only if every push of the run was safe |
| `ServerRuns.LostForever` | src/server.c:205-283 | one that is not on the list is dispatched in no continuation |
| `ServerRuns.RequestLost` | src/server.c:205-283 | a run from the start, without a failure, that loses a request in this way |
| `ServerLives.LifeCycle` | src/server.c:225-283 | in every run the operations that succeed for a slot follow the cycle accept, read, perhaps the DB, write, close, and the slot says which of them comes next |
| `ServerLives.ClosedAfterWrite` | src/server.c:273-281 | a slot is closing only behind a write, and is free or accepting again only behind a close |
| `ServerLives.StaysInFlight` | src/server.c:225-283 | while only others are served, an operation in flight stays in flight |
| `ServerLives.MovesOn` | src/server.c:244-281 | a completion moves the slot of its request on by one operation |
| `ServerLives.Answered` | src/server.c:254-281 | from every reachable state a request that has been read without asking for the DB, or whose DB answer is due, is written to, closed and freed by its next three completions, whatever happens to others in between |
| `ServerLives.TakenFromList` | src/server.c:205-223 | a waiting request that a dispatch takes gets its DB answer, or an error response if its sender fails |

## Left out

- Floating point: numbers are exact reals, so the rounding and overflow of `strtod`, the `%g` printing of numbers that are no ints, NaN and infinity are not modelled; `Transacoes` takes the rounding of valor as a parameter.
- JsonParser.ParseBuffer.ParseNumber: gives the exact value, and leaves out `valueint`, the same number saturated to an int.
- JsonRoundTrip.RoundTrip: covers trees whose numbers are ints, because other numbers are printed with `%g`; so do the printer, the minifier on printed text, and `Transacoes.EndToEnd`.
- JsonPrinter.PrintBuffer.PrintValue: covers the same trees, and prints from the value, not from items.
- Transacoes.EndToEnd: covers bodies that are printed trees of ints.
- JsonCompare.CompareIsEquality: asks for int numbers and distinct keys, because the tolerance of `compare_double` is no equality on other numbers and a repeated key is looked up at its first member only.
- ItemCompare.Compare: says nothing more than that an item equals itself for two trees that share items and both repeat keys, where the shortcut for identical items is not what comparing the values says.
- ItemList.AddItemToArray: asks for an item that stands in no list, as the library's callers must ensure; so do the insertions and replacements.
- ItemEdits.Perform: edits the children of one array; edits at several levels of a tree are several calls.
- ItemEdits.EditTree: takes a replaced tree out but does not free it; `Perform` never uses it again.
- Transacoes.RequestParser: a failing `regcomp` (PARSER_MEMORY) is not modelled.
- Allocation failure, and allocators without `realloc` (`ensure` then copies offset + 1 bytes).
- Raw items, references, constant keys, `cJSON_Delete`, the `Create`, `Is` and `Add...ToObject` wrappers, and the case-insensitive lookup.
- `cJSON_ParseWithLength` on input without a terminator, error positions and `require_null_terminated`.
- `phr_parse_response` and `phr_parse_headers`, which repeat the shape of the request parser.
- io_uring, sockets, signals and libpq: completions and the outcome of a sender are left open; a submission that fails may still be completed later.
- The regular expressions, `sscanf` and the static responses.
- The SQL functions and the limits they enforce.
