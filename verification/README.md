# Verified algorithms of the CTSI settlement library

CTSI exchanges SOAP messages, keeps its configuration as XML, and signs records with DES and MD5. This project
models the algorithms behind that in Dafny and proves what they compute. Code that works by changing things in
place is modelled in place: objects are classes, buffers are arrays, loops are loops, and each such method is
proved against a function whose own properties are proved as lemmas.

- **Multi-reference values and blocks** (`Memory`, `IdTable`, `IdState`, `IdSteps`, `Soap`, `Resolver`, `Resolve`,
  `Runs`, `Relocate`, `UpdatePointers`, `BlockList`, `Blocks`, `SaveBlock`, `Counterexamples`). gSOAP threads
  forward references through the very slots that they will fill. Memory is 32-bit, little-endian and byte by byte.
  `Good` says that every chain is intact in memory and every registered region is accounted for; every operation
  keeps it, soap_resolve consumes it, and moving a block carries it to the new addresses.
- **Chunked transfer** (`ChunkFormat`, `ChunkSender`, `ChunkReceiver`, `Chunked`, `ChunkGrammar`): buffered sending in all four
  I/O modes, the receiver over a transport that cuts the stream anywhere, and the wire against the grammar.
- **Strings on the wire** (`Unicode`, `SoapText`, `SoapTextCode`, `SoapAttribute`, `SoapAttributeCode`, `Wide`, `Base64`,
  `Base64Code`): escaping and reading back, content and attributes, UTF-8 and wide strings, base64.
- **Attachments** (`Attachments`, `AttachmentsCode`, `DimeReading`, `DimeReader`, `MimeReading`, `MimeRoundTrip`,
  `MimeExact`, `MimeReader`): DIME and MIME output, the size announced for it, and reading both back.
- **TinyXML** (`XmlText`, `XmlTextProofs`, `XmlTextExact`, `XmlTree`, `XmlRoundTrip`, `XmlShape`,
  `XmlReferences`, `XmlCode`, `XmlParser`, `XmlPrinter`, `DomList`): the recursive-descent parser against the printer,
  what references stand for, and the sibling lists of the DOM.
- **DES** (`DesTables` to `DesMacCode`, `FipsTables`, `Fips46`): the cipher with its rearranged tables, two-key 3DES, the MACs.
- **MD5** (`Md5Spec`, `Md5Process`, `Md5`, `Md5Vectors`): the incremental hasher and the keyed hash.
- **TiXmlString** (`TinyString`): the growing buffer and its amortised cost.

`Basics` holds what several of these share.

Conventions: `unsigned long`, `size_t` and pointers have 32 bits and wrap where the code can make them wrap;
`char` is signed where the code depends on it; buffer sizes and the number of buckets are arbitrary positive numbers,
SOAP_BLKLEN is 256 and the message buffer 1024. What the allocator, the transport and the peer do is a parameter of each operation: a flag that an allocation fails,
the address that it returns, or an arbitrary number of bytes per read.

## Model

| member | source | states |
|---|---|---|
| `IdTable.ComputeHash` | CTSI/stdsoap2.cpp:6694-6699 | the loop of soap_hash computes the 32-bit multiplicative hash over signed chars, modulo the number of buckets |
| `IdTable.HashesOf` | CTSI/stdsoap2.cpp:6694-6699 | the hash sums of "#1" and of a character above ASCII, as numbers |
| `IdTable.Lookup` | CTSI/stdsoap2.cpp:7376-7388 | the bucket scan finds an id if and only if the map from ids to entries has it, and finds that entry |
| `IdTable.PushStores` | CTSI/stdsoap2.cpp:7390-7403 | a new entry at the head of its bucket leaves the hashed buckets in agreement with the plain map, extended by it |
| `IdTable.ReplaceStores` | CTSI/stdsoap2.cpp:7842-7876 | overwriting an entry in place keeps the buckets in agreement with the plain map |
| `Soap.Context.constructor` | CTSI/stdsoap2.cpp:7338-7342 | an emptied table over any memory is sound: no id is known and nothing waits |
| `Soap.Context.IdLookup` | CTSI/stdsoap2.cpp:7798-7876 | the slot is filled at once when the object is known, else threaded in front of the chain of its id; type clashes and a failed allocation are reported and change nothing; every chain, slot and target stays intact |
| `Soap.Context.IdForward` | CTSI/stdsoap2.cpp:7886-7940 | a target joins the chain through its own first word or the flist; a clash of type or size is reported and changes nothing; every chain, slot and target stays intact |
| `Soap.Context.IdEnter` | CTSI/stdsoap2.cpp:7942-7995 | the object is recorded under its id; a second entry and a clash with what waits are reported and change nothing; memory is not touched |
| `IdSteps.WriteFree` | CTSI/stdsoap2.cpp:7836-7876 | a store into memory that nobody registered leaves every chain, slot and target as it was |
| `Resolver.HasCopies` | CTSI/stdsoap2.cpp:2263-2284 | the scan of the whole table answers whether some target still waiting starts in a range of addresses |
| `Resolver.ResolveLinks` | CTSI/stdsoap2.cpp:2289-2316 | walking a link chain turns each of its slots into the entered address and changes nothing else |
| `Resolver.CopyOut` | CTSI/stdsoap2.cpp:2317-2371 | the copy chain and the flist of an entry are emptied; each of their targets equals the object, and nothing else changes |
| `Resolve.LinkAll` | CTSI/stdsoap2.cpp:2295-2316 | the first pass fills the chains of all entered ids and stops with an error exactly when a local id was never entered |
| `Resolve.CopyAll` | CTSI/stdsoap2.cpp:2317-2371 | the copying passes terminate, whatever waits at the end is deadlocked, and every copy made still equals its source |
| `Resolve.ResolveAll` | CTSI/stdsoap2.cpp:2289-2371 | soap_resolve fails if and only if a local id was never entered; otherwise slots of entered ids hold their address, each id is copied to all of its targets or to none, each copy made equals its source at the end, the ids left waiting are the largest deadlocked set, and no other byte changes |
| `Resolve.NothingLeftWaiting` | CTSI/stdsoap2.cpp:2317-2371 | when containment is acyclic and every source has been entered, nothing stays pending |
| `IdState.AcyclicNeverDeadlocks` | CTSI/stdsoap2.cpp:2317-2371 | a set of ids that wait for one another needs a cycle of containment or a source never entered |
| `IdState.ProgressStep` | CTSI/stdsoap2.cpp:2325-2365 | copying one object keeps all earlier copies equal to their sources, because no pending target lay inside those |
| `Runs.RunAndResolve` | CTSI/stdsoap2.cpp:2289-2371 | for every sequence of lookups, forwards and entries in any order on an empty table: if soap_resolve then succeeds, every local id asked for was entered, every slot of an entered id holds the entered address, and, with acyclic containment and all sources entered, every target equals its object |
| `Resolve.UnenteredSlotKeepsLink` | CTSI/stdsoap2.cpp:2295-2316 | a slot of an id that is not local and was never entered holds the address of the slot registered before it, and no error is reported |
| `Counterexamples.DanglingSlots` | CTSI/stdsoap2.cpp:2295-2316 | a run of two lookups and soap_resolve that ends without error and with such a slot |
| `UpdatePointers.UpdateAll` | CTSI/stdsoap2.cpp:2204-2256 | every address in the table that lies in the moving bytes is shifted, every word of a pending chain names its successor at its new address, and only those words change |
| `Relocate.MovedGood` | CTSI/stdsoap2.cpp:2204-2256 | after the update and the copy every chain, slot and target is intact at its new address, even when chain nodes lie inside the moving bytes |
| `Relocate.FilledSlotFollowsIffUnmoved` | CTSI/stdsoap2.cpp:2204-2256 | a slot filled before the move names the new place of its object if and only if that object did not move |
| `Blocks.PushBlock` | CTSI/stdsoap2.cpp:2163-2181 | a block is pushed in front of the list with its header, or the failed allocation is reported |
| `Blocks.PopBlock` | CTSI/stdsoap2.cpp:2185-2200 | the newest block is taken off and its size given back |
| `Blocks.SizeBlock` | CTSI/stdsoap2.cpp:2380-2392 | the newest block is declared shorter and the total follows |
| `Blocks.FirstBlock` | CTSI/stdsoap2.cpp:2396-2417 | the list is reversed in place: only headers change, and the oldest block comes first |
| `Blocks.NextBlock` | CTSI/stdsoap2.cpp:2421-2438 | the first block is released and the next one returned |
| `Blocks.EndBlock` | CTSI/stdsoap2.cpp:2454-2480 | every block is released and nothing outside the blocks is touched |
| `SaveBlock.SaveAll` | CTSI/stdsoap2.cpp:2486-2512 | the buffer holds the push-order concatenation of the blocks except for words of pending chains, which follow the moves; every other byte outside blocks and buffer is as it was; a failed allocation is reported |
| `SaveBlock.MovesKeepChains` | CTSI/stdsoap2.cpp:2204-2256 | after all moves every chain has the same nodes in the same order, each at the address it moved to, and every object and waiting target followed |
| `SaveBlock.FollowOrigin` | CTSI/stdsoap2.cpp:2486-2512 | the address of byte d of the joined data is moved to byte d of the buffer |
| `Counterexamples.StaleSlot` | CTSI/stdsoap2.cpp:2486-2512 | a run in which a slot still names the old place of an object after its block has been saved |
| `ChunkSender.Sender.SendRaw` | CTSI/stdsoap2.cpp:730-760 | what has been sent grows by exactly the argument in every I/O mode, and the buffer is never left full |
| `ChunkSender.Sender.FlushRaw` | CTSI/stdsoap2.cpp:812-832 | a flushed piece reaches the wire in the form of the mode |
| `ChunkSender.Sender.EndSend` | CTSI/stdsoap2.cpp:8047-8132 | the wire carries all pieces: as chunks with the end marker, or one after the other |
| `ChunkReceiver.Receiver.GetChunkChar` | CTSI/stdsoap2.cpp:1025-1035 | the next byte of the stream, fetched from the transport when the buffer is empty |
| `ChunkReceiver.Receiver.RecvRaw` | CTSI/stdsoap2.cpp:1052-1175 | over any framed stream and any read sizes each call opens a window on the next bytes of the body, and reports the end exactly when the body has been delivered |
| `Chunked.Exchange` | CTSI/stdsoap2.cpp:730-832 | a body cut into any parts, sent through a buffer of any size and delivered in pieces of any size arrives complete and in order, followed by the end |
| `ChunkGrammar.ConformsIffNeverWraps` | CTSI/stdsoap2.cpp:812-832 | by the grammar of section 4.1 of RFC 7230: what goes out is a chunked-body, and then one that carries exactly what was sent, if and only if something was sent and no 32-bit total in front of a later piece is zero |
| `ChunkGrammar.ChunkPeels` | CTSI/stdsoap2.cpp:812-832 | reading a chunked-body is deterministic: after the first chunk CRLF must follow and a chunked-body of the rest of the body |
| `ChunkGrammar.FourGigabytesBreakFraming` | CTSI/stdsoap2.cpp:820-828 | what 65536 full buffers of 65536 bytes and one more put on the wire is no chunked-body |
| `ChunkGrammar.Transfer` | CTSI/stdsoap2.cpp:730-832 | a body that is not empty and not longer than 4 GiB, in any parts and through a buffer of any size, goes out as a chunked-body that carries it |
| `ChunkFormat.HexInverse` | CTSI/stdsoap2.cpp:1149-1151 | reading back the hexadecimal chunk size gives the size |
| `SoapText.ReadsBack` | CTSI/stdsoap2.cpp:11174-11365 | for every NUL-free byte string and both settings of flag, reading the escaped string and a closing tag gives the string back and stops at the tag |
| `SoapText.References` | CTSI/stdsoap2.cpp:1448-1480 | the references that are written and the five predefined entities of section 4.6 of XML 1.0 stand for their characters |
| `SoapAttribute.EscapedSafe` | CTSI/stdsoap2.cpp:10783-10867 | an escaped attribute value holds no quote, no opening bracket, no tab and no line end; escaped content holds no bracket and no carriage return |
| `SoapAttribute.AttributeReads` | CTSI/stdsoap2.cpp:10235-10297 | soap_getattrval over an escaped value and its quote yields the bytes of the encoding and stops behind the quote |
| `SoapAttribute.WindowReads` | CTSI/stdsoap2.cpp:10235-10297 | a buffer of n bytes takes the first n bytes of the value, or all of it and the quote |
| `SoapAttribute.AttributeSurvivesIff` | CTSI/stdsoap2.cpp:12701-12720 | a string sent as an attribute and taken back with soap_s2string is the same if and only if it is ASCII |
| `SoapAttribute.AccentLost` | CTSI/stdsoap2.cpp:12701-12720 | the byte 0xE9 is lost |
| `SoapAttribute.QuoteInside` | CTSI/stdsoap2.cpp:10835-10840 | a quote inside an attribute value goes out as a reference |
| `SoapTextCode.StringOut` | CTSI/stdsoap2.cpp:10783-10867 | the run-and-escape loop sends exactly the escaped string |
| `SoapTextCode.Reader.Char` | CTSI/stdsoap2.cpp:1448-1480 | a reference is read up to its semicolon and stands for the character it names |
| `SoapTextCode.Reader.GetToken` | CTSI/stdsoap2.cpp:1512-1602 | the reader yields the next character, tag token or quote and leaves the rest |
| `SoapTextCode.Reader.StringIn` | CTSI/stdsoap2.cpp:11174-11365 | the look-aside loop stores exactly the string that its input stands for, within the length limits |
| `SoapTextCode.OutThenIn` | CTSI/stdsoap2.cpp:10783-11365 | writing then reading returns the string |
| `SoapAttributeCode.GetAttrVal` | CTSI/stdsoap2.cpp:10235-10297 | the loop fills its buffer with exactly the bytes of the window, with a terminator if the delimiter was found |
| `SoapAttributeCode.WindowsJoin` | CTSI/stdsoap2.cpp:10549-10562 | a full window and the next one from where it stopped make one window |
| `SoapAttributeCode.ReadAttribute` | CTSI/stdsoap2.cpp:10541-10574 | whatever buffers there are, the value comes out whole: in the old buffer, or by way of the doubling look-aside buffer in a new one that is large enough |
| `SoapAttributeCode.AttributeOutThenIn` | CTSI/stdsoap2.cpp:9967-9969 | an attribute value that was sent is read back through buffers of any size, and is the string itself if it is ASCII |
| `Unicode.Decodes` | CTSI/stdsoap2.cpp:1678-1715 | the first byte of a multibyte character tells how many follow, and together they give back its value (section 2 of RFC 2279) |
| `Unicode.OctetTable` | CTSI/stdsoap2.cpp:1678-1715 | the bytes are those of the table of section 2 of RFC 2279, in all six rows |
| `Unicode.PutMultibyte` | CTSI/stdsoap2.cpp:1678-1715 | the nested comparisons of soap_pututf8 store that encoding for every value from 0x80 to 0x7FFFFFFF |
| `Wide.Wchar2s` | CTSI/stdsoap2.cpp:12957-13002 | the counted allocation has room for the encoding and holds it with its terminator |
| `Wide.S2wchar` | CTSI/stdsoap2.cpp:12901-12955 | the decoder returns the decoded values and their terminator inside its allocation and checks the length limits |
| `Wide.SurvivesIff` | CTSI/stdsoap2.cpp:12901-13002 | a wide string comes back unchanged if and only if no value is 0x80000000 or more |
| `Wide.StopsInsideIff` | CTSI/stdsoap2.cpp:12911-12945 | the decoder stops at the terminator of a string, whatever lies behind it, if and only if no character of the string is cut off |
| `Wide.CutCharacterRunsOn` | CTSI/stdsoap2.cpp:12911-12945 | behind a lone first byte 0xC3 it steps over the terminator and reads on |
| `Wide.NegativeLost` | CTSI/stdsoap2.cpp:12957-13002 | the value 0xFFFFFFFF comes back as 0x7FF |
| `Wide.ConvertUTF32ToUTF8` | CTSI/tinyxmlparser.cpp:87-125 | TinyXML emits the same bytes for every non-zero value below 0x200000 |
| `Base64.DecodesEncoded` | CTSI/stdsoap2.cpp:15483-15599 | decoding the encoding of any byte string gives the string (section 4 of RFC 4648) |
| `Base64.LetterIs` | CTSI/stdsoap2.cpp:305-306 | the alphabet is Table 1 of RFC 4648 |
| `Base64.QuadIs24Bits` | CTSI/stdsoap2.cpp:15483-15530 | three bytes are one number of 24 bits, cut into four digits from the high end |
| `Base64.TestVectors` | CTSI/stdsoap2.cpp:15483-15530 | "f", "fo" and "foo" are encoded as in section 10 of RFC 4648 |
| `Base64.BlanksIgnored` | CTSI/stdsoap2.cpp:15541-15560 | white space inserted anywhere does not change what is decoded, nor whether it is decoded |
| `Base64.FailsIff` | CTSI/stdsoap2.cpp:15541-15560 | decoding fails if and only if a byte outside the alphabet and white space precedes the padding |
| `Base64Code.S2base64` | CTSI/stdsoap2.cpp:15483-15522 | the in-place loops produce the encoding and its terminator inside the allocation |
| `Base64Code.Base642s` | CTSI/stdsoap2.cpp:15525-15599 | the decoder yields the decoded bytes, their exact number and a terminator inside its own allocation, and fails exactly when decoding does |
| `Base64Code.EncodeThenDecode` | CTSI/stdsoap2.cpp:15483-15599 | the one undoes the other |
| `AttachmentsCode.CountAttachments` | CTSI/stdsoap2.cpp:13587-13641 | the accumulated size, in 32 bits, is the sum of what each record, part and boundary is counted as |
| `AttachmentsCode.PutDimeHdr` | CTSI/stdsoap2.cpp:13687-13721 | the twelve header bytes with their clamped lengths, then options, id and type filled up to four bytes |
| `Attachments.FirstBytes` | CTSI/stdsoap2.cpp:13703-13704 | the first two bytes of a record are version 1, message-end where due, and a media type |
| `AttachmentsCode.PutDime` | CTSI/stdsoap2.cpp:13731-13808 | every attachment goes out as one record and only the last one carries the end flag |
| `AttachmentsCode.PutMimeHdr` | CTSI/stdsoap2.cpp:14300-14316 | boundary and header lines, each one left out when there is nothing to say |
| `AttachmentsCode.PutMime` | CTSI/stdsoap2.cpp:14327-14382 | every part, then the closing boundary |
| `MimeReading.CodesRead` | CTSI/stdsoap2.cpp:513-522 | the name of every transfer encoding is told from the others and read back as its encoding |
| `MimeReading.NamesRead` | CTSI/stdsoap2.cpp:14045-14063 | the name of every header is told from the others and sets its own field |
| `MimeRoundTrip.HeaderBack` | CTSI/stdsoap2.cpp:14300-14316 | a header with at least one line is read back as the fields it was written from |
| `MimeRoundTrip.MimeReads` | CTSI/stdsoap2.cpp:14327-14382 | the parts sent behind any content arrive as they were, each with its content, in front of whatever follows |
| `MimeExact.MimeReadsIff` | CTSI/stdsoap2.cpp:14016-14069 | they do so if and only if each of them has a header line |
| `MimeExact.HeaderlessLost` | CTSI/stdsoap2.cpp:14019-14023 | a part without a header line does not arrive |
| `MimeReader.Reader.ReadLineOf` | CTSI/stdsoap2.cpp:13552-13580 | the loops of soap_getline read one line, continued lines with it |
| `MimeReader.Reader.GetMimeHdr` | CTSI/stdsoap2.cpp:14016-14069 | one header is read up to its empty line, or the kind of failure |
| `MimeReader.Reader.GetContent` | CTSI/stdsoap2.cpp:14117-14237 | the comparison that starts over at the next return stops at the first delimiter, with everything in front of it as content |
| `MimeReader.Reader.GetMime` | CTSI/stdsoap2.cpp:14079-14084 | all parts up to the end of the message |
| `MimeReader.PutThenGet` | CTSI/stdsoap2.cpp:14327-14382 | sending and then reading returns content and parts if and only if every part has a header line |
| `Attachments.AnnouncedIffNothingCut` | CTSI/stdsoap2.cpp:13587-13808 | for all modes and attachments, in whatever order they are sent: the announced size is the number of bytes sent if and only if what the 16-bit name lengths cut off is a multiple of 2^32 |
| `Attachments.AnnouncedWhenNamesFit` | CTSI/stdsoap2.cpp:13587-13641 | names of up to 65536 bytes never disturb the announced size |
| `Attachments.NoExcess` | CTSI/stdsoap2.cpp:13693-13703 | nothing is cut off if and only if every name fits |
| `Attachments.SameForms` | CTSI/stdsoap2.cpp:6927-7018 | the forms counted in the counting pass are the forms sent in the sending pass |
| `Attachments.LongNameMiscounted` | CTSI/stdsoap2.cpp:13595-13603 | an id of 65537 bytes makes the announced size four too large |
| `AttachmentsCode.CountThenSend` | CTSI/stdsoap2.cpp:13587-14382 | counting and then sending a whole message meets that law on the wire |
| `DimeReading.RecordReadsIff` | CTSI/stdsoap2.cpp:13851-13893 | one record reads back as given if and only if its header can tell all of its lengths and neither id nor type is an empty string |
| `DimeReading.DimeReadsIff` | CTSI/stdsoap2.cpp:13901-14003 | all attachments read back as given, and reading stops behind them, if and only if the headers can tell all lengths and no id or type is an empty string |
| `DimeReading.LongIdCut` | CTSI/stdsoap2.cpp:13693-13698 | an id of 65536 bytes comes back one byte short |
| `DimeReading.EmptyIdLost` | CTSI/stdsoap2.cpp:13817-13825 | an empty id comes back as none |
| `DimeReader.Reader.GetHeader` | CTSI/stdsoap2.cpp:13851-13893 | the header and its three fields, or the kind of failure; nothing is read behind the last record |
| `DimeReader.Reader.GetDime` | CTSI/stdsoap2.cpp:13911-14003 | the loop collects exactly the records up to the one with the end flag |
| `DimeReader.PutThenGet` | CTSI/stdsoap2.cpp:13731-14003 | sending then reading returns the attachments under exactly that condition |
| `XmlCode.EncodeString` | CTSI/tinyxml.cpp:51-132 | the loop writes the encoded string, passing references over as they are |
| `XmlCode.GetEntityAt` | CTSI/tinyxmlparser.cpp:437-530 | numeric references in both bases and named ones are read as the grammar says, or a null pointer is returned |
| `XmlCode.ReadNameAt` | CTSI/tinyxmlparser.cpp:400-435 | the longest name at the pointer |
| `XmlCode.ReadTextKept` | CTSI/tinyxmlparser.cpp:573-595 | an attribute value up to its quote |
| `XmlCode.ReadTextCondensed` | CTSI/tinyxmlparser.cpp:596-636 | element text with white space condensed, up to a tag |
| `XmlTextProofs.ValueReads` | CTSI/tinyxmlparser.cpp:1391-1462 | an attribute value without "&#x" is read back from its encoding, whatever follows the quote |
| `XmlTextProofs.TextReads` | CTSI/tinyxmlparser.cpp:1496-1545 | a text without "&#x" and without leading, trailing or doubled white space is read back from its encoding |
| `XmlTextProofs.ValueReadsIff` | CTSI/tinyxmlparser.cpp:573-636 | an attribute value survives printing and reading if and only if it does not hold "&#x" |
| `XmlTextExact.TextReadsIff` | CTSI/tinyxmlparser.cpp:596-636 | the text of an element survives printing and reading if and only if it holds no "&#x" and no leading, trailing or doubled space |
| `XmlTextExact.DoubledSpaceLost` | CTSI/tinyxmlparser.cpp:596-636 | two spaces do not come back as two |
| `XmlTextProofs.HexReferenceLost` | CTSI/tinyxml.cpp:59-82 | the value "&#x41;" comes back as "A" |
| `XmlReferences.DecimalReads` | CTSI/tinyxmlparser.cpp:478-511 | a decimal reference, whatever its digits and what follows, is the character with the low byte of its number modulo 2^32 |
| `XmlReferences.HexadecimalReads` | CTSI/tinyxmlparser.cpp:450-477 | so is a hexadecimal one, with digits of either case |
| `XmlReferences.NamesRead` | CTSI/tinyxmlparser.cpp:513-523 | the five predefined entities of section 4.6 of XML 1.0 are read as their characters |
| `XmlReferences.EncodePlain` | CTSI/tinyxml.cpp:51-132 | the encoding of a value without "&#x" holds no quote, no bracket and no control character |
| `XmlReferences.CharactersAgree` | CTSI/tinyxmlparser.cpp:400-435 | in ASCII names and white space are those of XML 1.0, up to the colon, DEL, vertical tab and form feed |
| `XmlReferences.DecimalInDocument` | CTSI/tinyxmlparser.cpp:1391-1462 | the attribute value in <a b="&#65;"/> is A |
| `XmlRoundTrip.ElementReads` | CTSI/tinyxmlparser.cpp:1042-1246 | parsing the print of any valid element, at any depth and before any text, gives the element and that text |
| `XmlRoundTrip.DocumentReads` | CTSI/tinyxmlparser.cpp:703-795 | parsing the print of any valid document gives the document |
| `XmlRoundTrip.KidsPrint` | CTSI/tinyxml.cpp:799-849 | children stand four spaces further in on lines of their own, an only text on the line of its element |
| `XmlRoundTrip.EmptyPrints` | CTSI/tinyxml.cpp:1144-1152 | an element without children is printed in one tag with its attributes |
| `XmlShape.ParsedShaped` | CTSI/tinyxmlparser.cpp:703-1246 | whatever text is parsed, the names in the result are names, no element has two attributes of one name, and no text is blank or stands next to another |
| `XmlShape.DocumentReadsIff` | CTSI/tinyxmlparser.cpp:703-1246 | a document whose values and texts can each be read back survives printing and parsing if and only if it has that shape |
| `XmlShape.ReparseSame` | CTSI/tinyxmlparser.cpp:703-795 | printing what was parsed and parsing it again changes nothing more |
| `XmlShape.AdjacentTextsLost` | CTSI/tinyxmlparser.cpp:1178-1246 | two neighbouring texts do not come back as two |
| `XmlParser.ParseAttributeAt` | CTSI/tinyxmlparser.cpp:1391-1462 | attribute parsing yields the attribute and the place behind it, or a null pointer |
| `XmlParser.ParseElementAt` | CTSI/tinyxmlparser.cpp:1042-1176 | element parsing yields the element and the place behind it, or an error |
| `XmlParser.ReadValueAt` | CTSI/tinyxmlparser.cpp:1178-1246 | the children up to the closing tag, blank texts dropped |
| `XmlParser.ParseDocumentAt` | CTSI/tinyxmlparser.cpp:703-795 | document parsing yields the nodes or an error |
| `XmlPrinter.PrintTo` | CTSI/tinyxml.cpp:799-849 | the element printer writes the printed form at its depth |
| `XmlPrinter.PrintDocumentTo` | CTSI/tinyxml.cpp:1144-1152 | the document printer writes each node and a line end |
| `XmlPrinter.PrintThenParse` | CTSI/tinyxml.cpp:1144-1152 | printing then parsing a valid document returns it without error |
| `DomList.TiXmlNode.LinkEndChild` | CTSI/tinyxml.cpp:185-210 | append on the sequence of children; a document is refused and the list left alone |
| `DomList.TiXmlNode.InsertBeforeChild` | CTSI/tinyxml.cpp:229-259 | insertion in front of a child; a stranger or a document is refused |
| `DomList.TiXmlNode.InsertAfterChild` | CTSI/tinyxml.cpp:262-292 | insertion behind a child; a stranger or a document is refused |
| `DomList.TiXmlNode.ReplaceChild` | CTSI/tinyxml.cpp:295-331 | update at the place of a child; a stranger or a document is refused |
| `DomList.TiXmlNode.RemoveChild` | CTSI/tinyxml.cpp:334-358 | deletion of a child; a stranger is refused |
| `DomList.TiXmlNode.FirstChildNamed` | CTSI/tinyxml.cpp:360-369 | the first child of that name, or null if there is none |
| `DomList.TiXmlNode.LastChildNamed` | CTSI/tinyxml.cpp:372-381 | the last child of that name, or null if there is none |
| `DomList.TiXmlNode.LinksInverse` | CTSI/tinyxml.cpp:185-358 | next and prev are mutually inverse, the ends are firstChild and lastChild, and every parent is the owner |
| `DomList.InsertedShape` | CTSI/tinyxml.cpp:229-292 | the three words changed by an insertion describe the longer sequence |
| `DomList.RemovedShape` | CTSI/tinyxml.cpp:334-358 | the two words changed by a removal describe the shorter sequence |
| `DesTables.IpUndoesInverse` | CTSI/3DES.cpp:54-63 | the initial and the final permutation are mutually inverse, one way |
| `DesTables.InverseUndoesIp` | CTSI/3DES.cpp:54-63 | and the other way |
| `DesTables.ERearranged` | CTSI/3DES.cpp:72-75 | the rearranged expansion table is table E regrouped six by six |
| `DesTables.Pc2Rearranged` | CTSI/3DES.cpp:76-79 | the rearranged table of permuted choice 2 is the standard one regrouped six by six |
| `DesBits.BlockBits` | CTSI/3DES.cpp:105-120 | the eight bits that a byte is unpacked into are its binary digits, the highest first, as FIPS 46-3 numbers them |
| `FipsTables.IpAgrees` | CTSI/3DES.cpp:54-63 | both initial permutations are those of FIPS 46-3 |
| `FipsTables.PAgrees` | CTSI/3DES.cpp:64-66 | P is that of FIPS 46-3 |
| `FipsTables.Pc1Agrees` | CTSI/3DES.cpp:67-71 | permuted choice 1 is that of FIPS 46-3 |
| `FipsTables.ShiftsAgree` | CTSI/3DES.cpp:52-53 | so is the schedule of left shifts |
| `FipsTables.BoxesAgree` | CTSI/3DES.cpp:80-90 | the eight boxes are the selection functions of FIPS 46-3, by row and column |
| `DesCode.BitToByte` | CTSI/3DES.cpp:105-121 | the bits of the bytes, high bit first |
| `DesCode.ByteToBit` | CTSI/3DES.cpp:123-140 | the bytes of the bits |
| `DesCode.BitXor` | CTSI/3DES.cpp:142-148 | bitwise exclusive or |
| `DesCode.SelectExchangeFromTable` | CTSI/3DES.cpp:200-211 | selection of bits by a table |
| `DesCode.LShift` | CTSI/3DES.cpp:244-255 | rotation of a half key to the left in place |
| `DesCode.RShift` | CTSI/3DES.cpp:231-242 | rotation of a half key to the right in place |
| `DesCode.Shift` | CTSI/3DES.cpp:213-229 | both halves turned for a round, in the direction of the operation |
| `DesCode.SChange` | CTSI/3DES.cpp:277-303 | the eight boxes applied to their six bits |
| `DesAlgo.FFunction` | CTSI/3DES.cpp:257-275 | the cipher function of the rearranged tables |
| `DesAlgo.SixteenRounds` | CTSI/3DES.cpp:170-195 | the loop in place runs the sixteen rounds on its key schedule |
| `DesAlgo.DesAlgo` | CTSI/3DES.cpp:150-198 | the whole routine computes the cipher of the model |
| `DesAlgo.En3DES` | CTSI/3DES.cpp:315-327 | encrypt, decrypt, encrypt with the two halves |
| `DesAlgo.De3DES` | CTSI/3DES.cpp:329-341 | decrypt, encrypt, decrypt with the two halves |
| `DesInverse.KeysReversed` | CTSI/3DES.cpp:213-255 | the schedule of right shifts visits the encryption keys in reverse |
| `DesInverse.RoundsCancel` | CTSI/3DES.cpp:170-195 | the Feistel rounds on the reversed keys cancel the rounds, for any round keys |
| `DesInverse.Inverse` | CTSI/3DES.cpp:150-198 | decryption inverts encryption and encryption inverts decryption, for every key and block |
| `DesInverse.Inverse3` | CTSI/3DES.cpp:315-341 | De3DES inverts En3DES and the other way round |
| `DesInverse.OuterHalf` | CTSI/3DES.cpp:305-341 | the outer steps are under the first half of the key, the inner one under the second |
| `DesInverse.EqualHalves` | CTSI/3DES.cpp:315-341 | with equal halves two-key 3DES is DES |
| `Fips46.IndexIsRowColumn` | CTSI/3DES.cpp:277-303 | on rearranged bits the plain six-bit index is the row and column index of FIPS 46-3 |
| `Fips46.SameCipherFunction` | CTSI/3DES.cpp:257-303 | the routine computes the cipher function f of FIPS 46-3 |
| `Fips46.RefinesStandard` | CTSI/3DES.cpp:150-198 | the routine computes FIPS 46-3 enciphering and deciphering for every key and block |
| `Fips46.Complementation` | CTSI/3DES.cpp:150-275 | the complement of a block under the complement of a key gives the complement of the result |
| `DesMac.PadInjective` | CTSI/3DES.cpp:344-372 | only equal messages pad to the same blocks |
| `DesMac.PadByte` | CTSI/3DES.cpp:344-372 | behind the message stand 0x80 and zeros |
| `DesMac.MacIsDes3MacOfPadded` | CTSI/3DES.cpp:344-397 | MAC is DES3MAC of the padded message |
| `DesMac.MacEnciphersLast` | CTSI/3DES.cpp:344-372 | MAC is the left half of the last block enciphered, algorithm 1 of ISO/IEC 9797-1:2011 |
| `DesMac.Mac16EnciphersLast` | CTSI/3DES.cpp:399-441 | MAC16 is the left half of the last block under two-key triple DES, algorithm 3 of ISO/IEC 9797-1:2011 |
| `DesMac.Des3MacIgnoresTail` | CTSI/3DES.cpp:374-397 | DES3MAC does not depend on bytes behind the last whole block |
| `DesMac.Mac16EqualHalves` | CTSI/3DES.cpp:399-441 | MAC16 with equal key halves is MAC |
| `DesMac.EncryptInjective` | CTSI/3DES.cpp:305-308 | encryption under a key is injective |
| `DesMac.OneBlockChangeShows` | CTSI/3DES.cpp:344-397 | two messages that differ in one block have different chaining values from there on |
| `DesMacCode.ComputeMac` | CTSI/3DES.cpp:344-372 | the loop computes MAC of the model, the last block padded in place |
| `DesMacCode.ComputeDes3Mac` | CTSI/3DES.cpp:374-397 | the loop computes the chain over whole blocks |
| `DesMacCode.ComputeMac16` | CTSI/3DES.cpp:399-441 | the chain under the first key half, then decrypted and encrypted again (sections 6.3.3 and 7.4 of ISO/IEC 9797-1:2011) |
| `Md5Process.MacroIsStepped` | CTSI/md5.cpp:91-96 | the macro P with its additions in the order of the code is one operation of RFC 1321 |
| `Md5Process.SameF` | CTSI/md5.cpp:103-103 | the selection written with two exclusive ors is F of RFC 1321 |
| `Md5Process.Round1a` | CTSI/md5.cpp:105-112 | eight operations of the first round in the rotated roles of the registers |
| `Md5.Process` | CTSI/md5.cpp:70-191 | the unrolled routine is the compression of section 3.4 of RFC 1321 |
| `Md5.Context.Starts` | CTSI/md5.cpp:59-68 | the initial state |
| `Md5.Context.Update` | CTSI/md5.cpp:196-235 | whatever the cuts, state and buffer stand for the whole message so far; a non-positive length changes nothing |
| `Md5.HashParts` | CTSI/md5.cpp:196-271 | however a message is cut into calls of md5_update, the digest is that of RFC 1321 on the whole message |
| `Md5.Context.Finish` | CTSI/md5.cpp:248-271 | the digest is that of RFC 1321 on the whole message, for messages of any length |
| `Md5.CountsOn` | CTSI/md5.cpp:207-211 | the two-word counter with its carry counts bytes modulo 2^64 |
| `Md5.LengthIs` | CTSI/md5.cpp:254-259 | the two words of bits are the low 64 bits of the bit length |
| `Md5.Csum` | CTSI/md5.cpp:300-308 | the digest of a buffer |
| `Md5.ComputeHmac` | CTSI/md5.cpp:313-348 | the keyed hash of section 2 of RFC 2104 under the first 64 bytes of the key |
| `Md5.CutKeyIff` | CTSI/md5.cpp:325-331 | a longer key gives the keyed blocks of RFC 2104 if and only if its first 64 bytes are its digest and zeros |
| `Md5.LongKeyDiffers` | CTSI/md5.cpp:325-331 | for a key of 65 bytes 1 they differ |
| `Md5.HmacAgrees` | CTSI/md5.cpp:313-348 | then, and for every key of up to 64 bytes, the result is that of RFC 2104 |
| `Md5Spec.FoldOn` | CTSI/md5.cpp:215-228 | folding the blocks of a concatenation continues from the state of its first part |
| `Md5Vectors.InitialBytes` | CTSI/md5.cpp:59-68 | the registers start as in section 3.3 of RFC 1321, byte by byte |
| `Md5Vectors.EmptyDigest` | CTSI/md5.cpp:70-191 | the digest of the empty message is that of section A.5 of RFC 1321 |
| `Md5Vectors.WordOfBytes` | CTSI/md5.cpp:37-54 | words are stored and loaded low-order byte first |
| `Md5Vectors.LengthBytes` | CTSI/md5.cpp:254-262 | the length in bits is written byte by byte, the low-order one first, modulo 2^64 |
| `Md5Vectors.HmacIsRfc2104` | CTSI/md5.cpp:313-348 | with zeros behind the key up to 64 bytes, the keyed hash is the formula of section 2 of RFC 2104 |
| `Md5Spec.PaddedInjective` | CTSI/md5.cpp:237-271 | only equal messages pad to the same blocks |
| `TinyString.TiXmlString.Reserve` | CTSI/tinystr.cpp:37-46 | a larger representation with the same contents, or nothing to do |
| `TinyString.TiXmlString.Append` | CTSI/tinystr.cpp:68-78 | the contents grow by the argument, size stays at most capacity with a terminator, and the cost stays paid for |
| `TinyString.TiXmlString.Assign` | CTSI/tinystr.cpp:49-65 | the contents become the argument |
| `TinyString.TiXmlString.Find` | CTSI/tinystr.h:166-176 | the first occurrence at or after an offset and before the next NUL, or npos |
| `TinyString.AppendAll` | CTSI/tinystr.cpp:37-78 | over any run of appends the contents are the concatenation and reallocations have moved at most twice the final length |

## Findings

Where the code does not do what its users may expect, the code was modelled as it is. Each line gives the place,
the exact condition, and the members that prove it.

| what happens | where | when | shown by |
|---|---|---|---|
| A slot of an id without '#' that is never entered keeps the address of the slot registered before it, or NULL if it was the first, after a successful soap_resolve. | CTSI/stdsoap2.cpp:2295-2316 | for exactly these ids | `Resolve.UnenteredSlotKeepsLink`, `Counterexamples.DanglingSlots` |
| A slot filled before its object moves with a saved block keeps the old address. | CTSI/stdsoap2.cpp:2204-2256 | if and only if the object moves | `Relocate.FilledSlotFollowsIffUnmoved`, `Counterexamples.StaleSlot` |
| A chunk total that wraps to zero drops the CRLF in front of the next size line. | CTSI/stdsoap2.cpp:820-828 | if and only if a 32-bit total in front of a later piece is zero; an empty body is no chunked-body either | `ChunkGrammar.ConformsIffNeverWraps`, `ChunkGrammar.FourGigabytesBreakFraming` |
| The announced size counts names in full, the DIME header clamps them to 65535 bytes. | CTSI/stdsoap2.cpp:13595-13603, CTSI/stdsoap2.cpp:13693-13703 | wrong if and only if what is cut off is no multiple of 2^32 bytes; never for names of up to 65536 bytes | `Attachments.AnnouncedIffNothingCut`, `Attachments.LongNameMiscounted` |
| The 16-bit lengths of a DIME header cannot tell longer names or options, and a length of 0 stands for no name. | CTSI/stdsoap2.cpp:13693-13710, CTSI/stdsoap2.cpp:13817-13825 | records read back if and only if id, type and options have at most 65535 bytes and neither id nor type is an empty string | `DimeReading.DimeReadsIff`, `DimeReading.LongIdCut`, `DimeReading.EmptyIdLost` |
| A MIME part without any header line is misread: its content is taken for a header. | CTSI/stdsoap2.cpp:14019-14023 | if and only if a part has no header line, among parts whose texts fit header lines and whose contents hold no delimiter line | `MimeExact.MimeReadsIff`, `MimeExact.HeaderlessLost` |
| A character above ASCII in an attribute value is sent as two bytes, and soap_s2string drops both. | CTSI/stdsoap2.cpp:12712-12719 | if and only if the value is not ASCII | `SoapAttribute.AttributeSurvivesIff`, `SoapAttribute.AccentLost` |
| An attribute value that holds "&#x" is printed as it is and read back as something else. | CTSI/tinyxml.cpp:59-82 | if and only if it holds "&#x" | `XmlTextProofs.ValueReadsIff`, `XmlTextProofs.HexReferenceLost` |
| Wide values from 0x80000000 on become two bytes that stand for another value. | CTSI/stdsoap2.cpp:12957-13002 | if and only if such a value occurs | `Wide.SurvivesIff`, `Wide.NegativeLost` |
| Text with leading, trailing or doubled spaces, or with "&#x", is not read back as it was. | CTSI/tinyxmlparser.cpp:596-636 | if and only if it has one of these | `XmlTextExact.TextReadsIff`, `XmlTextExact.DoubledSpaceLost` |
| Neighbouring texts, blank texts, repeated attribute names and names that are no names do not survive printing and parsing. | CTSI/tinyxmlparser.cpp:1178-1246 | among documents whose values and texts can each be read back: if and only if one of these occurs, the document is empty or a text stands at its top | `XmlShape.DocumentReadsIff`, `XmlShape.AdjacentTextsLost` |
| soap_s2wchar reads past the terminator of a string whose last character is cut off. | CTSI/stdsoap2.cpp:12911-12945 | if and only if a character is cut off | `Wide.StopsInsideIff`, `Wide.CutCharacterRunsOn` |
| md5_hmac cuts keys of more than 64 bytes off where section 2 of RFC 2104 hashes them. | CTSI/md5.cpp:325-331 | the keyed blocks agree if and only if the first 64 bytes are the digest and zeros | `Md5.CutKeyIff`, `Md5.HmacAgrees`, `Md5.LongKeyDiffers` |
| DES3MAC leaves out a last block that is not whole. | CTSI/3DES.cpp:374-397 | always | `DesMac.Des3MacIgnoresTail` |

## Left out

- Resolve.ResolveAll: pointer levels above 0, custom fcopy callbacks and the forwarding of attachments through the xlist are not modelled; a level-0 slot and a byte-for-byte copy are.
- Soap.Context.IdForward: a forward of zero bytes; every call in the generated code passes the sizeof of a type (CTSI/soapC.cpp:868), which is never 0, and regions are told apart by their addresses.
- Runs.RunAndResolve: the calls are required to use slots and targets that do not overlap, as the deserialisers do; without that the chains themselves would overwrite one another.
- Blocks.PushBlock: one block list is modelled, not the stack of lists that soap_new_block pushes.
- SaveBlock.SaveAll: with flag 0 nothing may be registered in the blocks, since the code then tells nobody of the move.
- ChunkReceiver.Receiver.RecvRaw: the value of a size line that overflows 32 bits, zlib, DIME demultiplexing and filters are not modelled; an unframed stream is only shown to leave the receiver valid.
- ChunkSender.Sender.SendRaw: errors of the transport, send filters and compression.
- SoapTextCode.Reader.GetToken: CDATA sections, comments and processing instructions, input that ends inside a tag or a reference, and signs or blanks inside the digits of a reference.
- SoapTextCode.Reader.StringIn: the modes UTFSTRING, MBSTRING and LATIN, reading literal XML (flag 2 and 0), and the growth of the look-aside buffer, which is one growing sequence here.
- SoapAttributeCode.ReadAttribute: allocations that fail, and the modes UTFSTRING, MBSTRING and LATIN.
- Wide.S2wchar: the method requires that no character is cut off; Wide.StopsInsideIff says exactly when the code reads past the terminator, and what it then finds there is not modelled.
- Base64Code.Base642s: decoding into a buffer of the caller, where the code cuts off what does not fit.
- AttachmentsCode.PutDime: streaming callbacks and the chunked records that they produce.
- AttachmentsCode.PutMime: streaming callbacks.
- AttachmentsCode.CountThenSend: the order that soap_end_send gives the list is modelled on sequences, not by relinking next pointers.
- DimeReader.Reader.GetDime: records that continue in another one, and the record of the envelope in front.
- MimeReader.Reader.GetMime: Content-Disposition, a NUL right behind a delimiter, a boundary taken from the message itself, streaming callbacks, and the blocks that a content is collected in.
- XmlParser.ParseDocumentAt: comments, CDATA sections, declarations and unknown tags, for which the outcome says so; UTF-8 and byte order marks, row and column stamping, streams and files.
- XmlParser.ParseElementAt: the attributes are a sequence; the ring of TiXmlAttributeSet is not modelled.
- XmlShape.DocumentReadsIff: which values and which texts can be read back is exact for one at a time (XmlTextProofs.ValueReadsIff, XmlTextExact.TextReadsIff); inside a whole document a reference without a semicolon reads on into what follows, and that is not followed up.
- XmlCode.EncodeString: characters are bytes and the locale of isalpha and isspace is C.
- DomList.TiXmlNode.InsertBeforeChild: the clone that is linked in is a parameter; Clone itself, deletion of nodes and the search for the document to report an error to are not modelled.
- DesAlgo.DesAlgo: the arrays tempA, tempB and tempC, which never reach the output, and DefuseKey.
- DesMac.OneBlockChangeShows: says nothing about the truncated four bytes, which can collide.
- Md5.Context.Update: total is two numbers below 2^32 rather than two machine words; md5_file and the wiping of memory.
- Md5.HmacAgrees: for longer keys only the keyed blocks are compared; different blocks may still have the same digest.
- TinyString.TiXmlString.Append: appending a string to itself, the operators and the comparisons.
- Sockets, SSL, NTLM, HTTP headers, cookies, zlib and logging: input and output or foreign libraries.
- The generated serialisers, the dialogs and the serial port code: no algorithm of their own.
