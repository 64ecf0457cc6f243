# IoT hub: parser, codec, radio and manager

Four layers of an IoT hub, and a template coder that reuses the first, as Dafny modules.

1. **JSON tokenizer and in-place editor** (`Jsmn`, `JsmnStack`, `JsonTree`, `JsmnText`, `JsonEdit`, `JsonLookup`,
   `JsonPath`, `JsonFile`, `IoTCommand`). The tokenizer keeps no stack: it finds enclosing brackets
   by scanning the token table backwards. The editor splices text and shifts token offsets instead of
   tokenizing again. Objects and arrays are those of sections 4 and 5 of RFC 8259; atoms are looser.
2. **Package codec and stream framer** (`Package`, `PackageBuffer`, `Framer`). A NUL-separated header
   that states its own length, a byte sum folded to 16 bits with end-around carry, and a compacting
   receive buffer.
3. **XBee API frames and broker** (`XBeeFrame`, `XBeeLine`, `XBeeWire`, `XBeeDevice`, `XBeeBroker`, `XBeeReassembly`,
   `XBeeDevices`, `StopAndWait`). Byte escaping, the byte-at-a-time receiver, 60-byte fragments,
   reassembly per device, and the ready flag shared by two threads.
4. **Manager** (`Registry`, `Payload`, `Manager`, `Effects`, `Clients`, `ManagerService`). Addresses, the device table,
   dispatch, forwarding and discovery, as a state machine over whole runs of packages, and the receive
   loop that feeds it the chunks of all clients.
5. **Template coder** (`CoderTemplate`, `Coder`, `CoderBuild`). A document is built from a preorder
   table of rows and a stream of leaf texts, and encoded back.

Each layer has a specification on values and, for code that works in place, a class or methods over
arrays that are proved against it: `Jsmn.Parser` against `Jsmn.Run`, `JsonFile.JsonData` against
`JsonEdit` and `JsonLookup`, `PackageBuffer` against `Package` and `Framer`, `XBeeDevice.XBee` against
`XBeeFrame`, `XBeeDevices.DeviceTable` against `XBeeReassembly`, `ManagerService.Server` against
`Manager`, `CoderBuild.Builder` against `CoderTemplate`. The theorems are about the specifications.

What is legal, what is on the wire and what each package does is also stated in literal terms, apart
from the definitions the code shares: characters in `JsmnText`, bytes in `XBeeWire` and at the end of
`Package`, `XBeeBroker` and `XBeeReassembly`, texts in `IoTCommand.CommandText` and
`CoderBuild.BuiltText`, and the manager's table slot by slot in `Effects`.

Received bytes are arguments: chunks for a socket, and for the serial line a schedule of polls, each
idle or with one byte. Sent bytes are results. A thread interleaving is a sequence of actions.

Where the code and its comments disagree the code is modelled: a backslash in a string skips the next
character and nothing checks `\u` (the switch at Utility/jsmn.cpp:113 looks at the backslash itself);
`getPacketLength` drops the high length byte (XBeeBroker_API/XBeeApiMode.cpp:755-757); the header length
thresholds 8 and 97 are each one too high (Utility/IoTUtility.cpp:199-210), which `HeaderLengthExact`
turns into the exact condition; an escape byte that is the last byte available stays pending, and
another escape behind it makes the receiver flip a byte twice (XBeeBroker_API/XBeeApiMode.cpp:938-953),
for which `XBeeLine` gives the exact condition; `free` calls on embedded arrays are ignored.

Three outcomes mark input on which the source reads unset memory or leaves its arrays: `Undefined` in
`Package` (a negative length, an over-long header field), `TooShort` in `XBeeReassembly`, and `Broken`
with `Unreadable` in the manager: no NUL in the data or more than the content buffer holds, fewer than two
tokens, a first key of 50 characters or more, a registration whose text does not tokenize or has no device
id, a lookup that leaves the table, a field too long for its buffer, a list, package or destination too long
for the buffer it is sent from, and a hundred and first address. All other packages are handled, also those
whose text does not tokenize: the handler reads their first key from the tokens the tokenizer left.

## Model

| member | source | states |
|---|---|---|
| Jsmn.Parser.AllocToken | Utility/jsmn.cpp:8-19 | a free slot is handed out with its fields reset and toknext advanced, or, with the table full, -1 and nothing changed |
| Jsmn.Parser.ParsePrimitive | Utility/jsmn.cpp:37-76 | an atom ends at a delimiter, a NUL or the end; an unprintable character rejects it and a full table fails it, with the position put back |
| Jsmn.Parser.ParseString | Utility/jsmn.cpp:81-142 | a string ends at the first quote that no backslash skips; without one the error is PART and the position is put back |
| Jsmn.Parser.FindOpen | Utility/jsmn.cpp:182-206 | the backward scan finds the last token that has a start and no end |
| Jsmn.Parser.CloseBracket | Utility/jsmn.cpp:177-208 | a closing bracket ends the innermost open bracket of its kind and makes the next one out the super token, or is rejected |
| Jsmn.Parser.CommaAt | Utility/jsmn.cpp:221-236 | a comma moves the super token from a key back to the innermost open bracket, and changes nothing else, whatever kind the read before the table yields |
| Jsmn.Parser.Parse | Utility/jsmn.cpp:148-261 | the whole in-place tokenizer leaves the code, the position and the token table that the one-character steps on values give |
| Jsmn.StepKeepsGrounded | Utility/jsmn.cpp:221-236 | without a super token no bracket is open, so what a comma reads in front of the table cannot matter |
| JsmnStack.StacklessRefinesStack | Utility/jsmn.cpp:159-260 | for every text and table size the tokenizer that scans backwards for open brackets gives the code, tokens and super token of a parser with an explicit bracket stack |
| JsmnStack.RefStepKeepsInv | Utility/jsmn.cpp:155-245 | every step of the stack parser keeps: the stack lists exactly the open brackets, starts increase, spans are nested or disjoint, parents come first |
| JsmnStack.SuccessShape | Utility/jsmn.cpp:159-260 | on success: count equals the number of tokens equals the sum of sizes plus the roots, no bracket is open, every token lies inside the text, starts increase, spans are nested or disjoint |
| JsmnStack.TokensFit | Utility/jsmn.cpp:8-19 | no run, successful or not, leaves more tokens than the table has room for |
| JsmnStack.TokensStarted | Utility/jsmn.cpp:148-261 | whatever a run leaves, a failed one too: every token starts inside the text, and is open or ends there at or behind its start |
| JsonTree.RunValue | Utility/jsmn.cpp:148-245 | from any state that may take a value, the text of a legal value leads to the state with exactly that value's tokens appended and the super token's size raised |
| JsonTree.ParsingUndoesPrinting | Utility/jsmn.cpp:37-261 | for every tree of objects and arrays, keys, strings, atoms and any spacing that fits the table, tokenizing its text succeeds with the node count and leaves exactly its preorder table of kinds, starts, ends and sizes |
| JsmnText.AtomsAre | Utility/jsmn.cpp:43-66 | the atoms of the round trips are exactly the non-empty texts of the codes 33 to 126 other than comma and the closing brackets, not starting with an opening bracket, a quote or a colon |
| JsmnText.AtomExact | Utility/jsmn.cpp:37-76 | a text of its own is read as one atom that covers it if and only if it is one of these |
| JsmnText.AtomStep | Utility/jsmn.cpp:43-66 | from any state an atom ends exactly at NUL, tab, line feed, carriage return, blank, comma or a closing bracket, and gives one token; any other code below 32 or from 127 on rejects it; a full table has no room for it |
| JsmnText.BadCharacter | Utility/jsmn.cpp:54-58 | such a code is rejected in front of an atom, too |
| JsmnText.SpacesAre | Utility/jsmn.cpp:216-217 | gaps are exactly the texts of tabs, line feeds, carriage returns and blanks |
| JsmnText.SpacesTokenize | Utility/jsmn.cpp:216-217 | they leave no token and no error |
| JsmnText.StringsAre | Utility/jsmn.cpp:81-142 | the string bodies of the round trips are exactly the texts in which every quote and every NUL is behind a backslash that is not itself behind such a one, and the end is not |
| JsmnText.StringExact | Utility/jsmn.cpp:81-142 | a text in quotes is read as one string that covers it if and only if it is one of these |
| JsmnText.Errors | Utility/jsmn.cpp:148-260 | from any state: NOMEM for an opening bracket with the table full, INVAL for a closing bracket that does not close the innermost open one, PART for a string without an end and for the end of the text inside a bracket |
| JsonEdit.SetTokenIsReplace | Utility/jsFileParser.cpp:205-292 | overwriting a non-empty text in place gives the printed changed tree, and the shifted table is that tree's table if and only if nothing follows the root |
| JsonEdit.EditEqualsReparse | Utility/jsFileParser.cpp:205-292 | when the root ends the content, the shifted tokens are exactly those a fresh tokenization of the new content gives |
| JsonEdit.EditsStayIndexed | Utility/jsFileParser.cpp:205-292 | after any sequence of such edits text and table are those of the changed tree |
| JsonEdit.EditsEqualReparse | Utility/jsFileParser.cpp:205-292 | after any sequence of such edits the table is the one a fresh tokenization of the text gives, and the root ends where the text ends |
| JsonEdit.ReplaceShifts | Utility/jsFileParser.cpp:277-287 | the shift rule (starts after the change, ends at or after it) maps the tokens of a tree to those of the changed tree |
| JsonLookup.SearchIsFirstRead | Utility/jsFileParser.cpp:86-153 | one lookup step inside an object, exactly: it lands on the token behind the first text, in preorder, that equals the key, be it a key or a value, leaves the table if that text is the last token, and finds nothing if there is none |
| JsonLookup.KeyStepExact | Utility/jsFileParser.cpp:86-153 | one key step inside an object lands on that key's value if and only if no earlier text in the object reads the same |
| JsonLookup.NumberIsShown | Utility/jsFileParser.cpp:124-130 | an array index written in decimal digits is read as that number |
| JsonLookup.PathFollowsTree | Utility/jsFileParser.cpp:189-203 | a path of unshadowed keys and in-range indices resolves to the token of the value a walk of the tree reaches |
| JsonLookup.LookupAgreesWithTree | Utility/jsFileParser.cpp:189-203 | the range found for such a path holds exactly the source text of that value |
| JsonFile.GetValueAgreesWithTree | Utility/jsFileParser.cpp:189-203 | the result of get_jsfile_value on a printed document is that source text |
| JsonFile.MissingKeyIsSkipped | Utility/jsFileParser.cpp:189-203 | a key that no text in the document reads is passed over, and the next one looked up in its place; after the last the range is still the root |
| JsonPath.ReplaceAtPath | Utility/jsFileParser.cpp:205-292 | changing the leaf a path leads to keeps the path, which then leads to the new text |
| JsonPath.SetThenGet | Utility/jsFileParser.cpp:189-292 | overwriting the leaf at a path and looking the path up again gives the new text |
| JsonFile.JsonData.InitToken | Utility/jsFileParser.cpp:56-71 | the content is tokenized up to its NUL; the token count or error code, the tokens left, after an error too, and content_size are those of the tokenizer on that text |
| JsonFile.JsonData.GetPattern | Utility/jsFileParser.cpp:73-84 | the characters of a token's range, and none for a token without an end |
| JsonFile.JsonData.Element | Utility/jsFileParser.cpp:131-137 | the loop over siblings stops at the token of the wanted array element |
| JsonFile.JsonData.SearchInRange | Utility/jsFileParser.cpp:86-153 | finds the token after the first text in range that equals the pattern, or the numbered element of the array that starts the range; otherwise -1 and the range is kept |
| JsonFile.JsonData.GetValue | Utility/jsFileParser.cpp:189-203 | the result buffer gets the text found by the last key, or stays untouched |
| JsonFile.JsonData.CopySpliced | Utility/jsFileParser.cpp:232-271 | the copy loop writes the content with the range replaced by the value, and its NUL |
| JsonFile.JsonData.ShiftTokens | Utility/jsFileParser.cpp:273-287 | every start after the change and every end at or after it moves by the change of length; nothing else moves |
| JsonFile.JsonData.SetSingleValue | Utility/jsFileParser.cpp:205-292 | content, tokens and content_size after a set are the splice, the shifted table and the new end of the root |
| IoTCommand.TemplateText | Utility/IoTUtility.cpp:36 | the fixed command text is the print of the command document with blank fields |
| IoTCommand.Command.Encode | Utility/IoTUtility.cpp:32-91 | for every id and value of at most 9 characters the buffer holds the command document with its three fields overwritten in turn, and the length counts the NUL; without a type the result is -1 |
| IoTCommand.Command.Decode | Utility/IoTUtility.cpp:93-138 | each field is what a lookup in the tokenized text finds, empty when it finds nothing; an unknown type text leaves the type |
| IoTCommand.EncodedReadable | Utility/IoTUtility.cpp:93-138 | every encoded command with legal short fields meets what decoding needs: the lookups stay in the table and the texts fit the fields |
| IoTCommand.CommandRoundTrip | Utility/IoTUtility.cpp:32-138 | for legal atoms, decoding an encoded command gives type, id and value back if and only if the id is not "Value", or the value is a legal string body |
| IoTCommand.CommandText | Utility/IoTUtility.cpp:32-91 | an encoded command character by character, with Req, Res, Wri or Man for its type |
| IoTCommand.TypeTexts | Utility/IoTUtility.cpp:107-122 | the four type texts are read as their types and every other text as none |
| Package.AtoiDecimal | Utility/IoTUtility.cpp:326-350 | reading a written length gives the number back |
| Package.AtoiOfText | Utility/IoTUtility.cpp:326-350 | blanks and a sign in front of a number are read as atoi reads them, and what follows the digits is ignored |
| Package.Fold | Utility/IoTUtility.cpp:286-289 | the fold loop ends, keeps the sum modulo 65535, and gives 0 for 0 and otherwise the residue in 1 to 65535 |
| Package.ByteChangesFold | Utility/IoTUtility.cpp:281-289 | changing any one byte of the summed bytes changes the folded sum |
| Package.HeaderLengthExact | Utility/IoTUtility.cpp:183-211 | the header length a package is created with is the number of bytes before the data if and only if the rest of the header is neither 8 nor 97 and at most 995 bytes long |
| Package.HeaderDescribesItself | Utility/IoTUtility.cpp:161-214 | with addresses of 1 to 14 characters and at most 9999 data bytes the header always states its own length |
| Package.HeaderRoundTrip | Utility/IoTUtility.cpp:306-379 | reading a written header gives version, both lengths and both addresses back, whatever follows |
| Package.HeaderComplete | Utility/IoTUtility.cpp:518-558 | a written header counts as complete and its fields fit their buffers |
| PackageBuffer.IoTPackage.CreatePackage | Utility/IoTUtility.cpp:161-214 | the structure holds the version, the addresses, the data and the computed header length |
| PackageBuffer.EncodePackage | Utility/IoTUtility.cpp:216-304 | the buffer holds the five NUL-ended fields, the data and the folded checksum, and nothing behind them is touched |
| PackageBuffer.DecodeOnlyHeader | Utility/IoTUtility.cpp:306-379 | the five fields are read from the buffer and the data are left alone |
| PackageBuffer.DecodePackage | Utility/IoTUtility.cpp:381-497 | header and data are read, and the result says whether the two bytes behind the data are the checksum of all before them |
| PackageBuffer.IsCompleteHeader | Utility/IoTUtility.cpp:518-558 | true exactly when the filled part of the buffer starts with five non-empty NUL-ended fields |
| Package.HeaderChain | Utility/IoTUtility.cpp:216-304 | the five NUL-ended fields of a written header are, in this order, the version, the header length, the data length, the source and the destination |
| Package.OneByteOnTheWire | Utility/IoTUtility.cpp:161-304 | a package of one data byte, byte for byte, checksum included |
| Package.WellFormedExact | Utility/IoTUtility.cpp:161-214 | the packages of the stream theorems are exactly those with addresses of 1 to 14 bytes without NUL, at most 9999 data bytes, the version IUDP1.0 and lengths that are right |
| Package.FieldsExact | Utility/IoTUtility.cpp:518-558 | a header field counts only if it is not empty and ended by a NUL |
| Package.EmptyFieldWaits | Utility/IoTUtility.cpp:518-558 | bytes with an empty field behind the version are kept, whatever follows |
| Framer.NextOfEncoding | Utility/IoTUtility.cpp:580-628 | an encoded package at the front of the buffer is taken off whole, with every field back and a good checksum, and the bytes behind it stay |
| Framer.NextOfPrefix | Utility/IoTUtility.cpp:580-628 | no proper prefix of an encoded package changes the buffer or reports anything |
| Framer.NextAppend | Utility/IoTUtility.cpp:580-628 | a completed package does not depend on later bytes, and taking it off strictly shortens the buffer, so the loop ends |
| Framer.ChunksAreOneStream | IoTService.cpp:315-345 | for any bytes at all: if no chunk overflows and every look ends quietly, the chunks deliver what their concatenation delivers at once, and leave the same rest |
| Framer.ChunkIndependence | IoTService.cpp:315-345 | whatever part of a stream of packages has arrived in whatever chunks, exactly its whole packages were delivered, in order, and exactly the unfinished rest is buffered |
| Framer.WholeStream | IoTService.cpp:315-345 | once the whole stream has arrived, all packages were delivered and the buffer is empty |
| Framer.DamageIsDetected | Utility/IoTUtility.cpp:603-624 | changing any one data or checksum byte of an encoded package gives a checksum error and an empty buffer, whatever follows |
| Framer.JunkIsDropped | Utility/IoTUtility.cpp:587-592 | seven or more bytes that do not start with IUDP1.0 are dropped at once, with the result INVALID_PACKAGE |
| Framer.FewBytesAreKept | Utility/IoTUtility.cpp:582-585 | fewer than seven bytes are kept, whatever they are |
| Framer.OverflowIsDropped | IoTService.cpp:315-326 | a chunk that would take the buffer past 2000 bytes is dropped together with what is buffered |
| Framer.RecoversFromJunk | IoTService.cpp:315-345 | behind a chunk of junk a stream of packages is framed as if it were the first |
| Framer.RecoversFromOverflow | IoTService.cpp:315-345 | so it is behind an overflow, whatever was buffered |
| Framer.RecoversFromDamage | IoTService.cpp:315-345 | and behind a damaged package that came in one chunk |
| PackageBuffer.ReceiveBuffer.DropFront | Utility/IoTUtility.cpp:605-616 | the bytes behind a package move to the front, and everything at and beyond the new count is zero |
| PackageBuffer.ReceiveBuffer.GetCompleted | Utility/IoTUtility.cpp:580-628 | result, package and remaining bytes are those of one look at the buffered bytes, and the rest of the buffer stays zero; bytes that do not start with IUDP1.0 give INVALID_PACKAGE and an empty buffer |
| PackageBuffer.ReceiveBuffer.TakeAll | IoTService.cpp:328-345 | the loop delivers every package that one quiet drain of the buffer holds and keeps its rest |
| PackageBuffer.ReceiveBuffer.ReceiveChunk | IoTService.cpp:315-345 | a chunk that would overflow empties the buffer and is dropped, so does a chunk of junk that comes to an empty buffer; otherwise it is appended and the buffer drained |
| PackageBuffer.ReceiveBuffer.ReceiveAll | IoTService.cpp:315-345 | one client's chunks, one after the other, deliver and leave in the buffer what the run on values does, whatever the bytes, as long as no look meets a header the source cannot handle |
| PackageBuffer.ReceiveBuffer.ReceiveStream | IoTService.cpp:315-345 | for the chunks of any part of a stream of packages the receive loop over the array delivers exactly the whole packages of that part, in order, and holds exactly the unfinished rest |
| PackageBuffer.ReceiveBuffer.ReceiveStreamAfterJunk | IoTService.cpp:315-345 | the same for the receive loop over the array behind a chunk of junk |
| XBeeWire.SymbolsSent | XBeeBroker_API/XBeeApiMode.cpp:1598-1610 | 0x7e, 0x7d, 0x11 and 0x13 are sent as 0x7d and 0x5e, 0x5d, 0x31, 0x33, every other byte as itself |
| XBeeWire.WireBytes | XBeeBroker_API/XBeeApiMode.cpp:1554-1610 | for every api id, frame id and data a sent frame starts with 0x7e and holds no other 0x7e, no 0x11 and no 0x13, and every 0x7d in it is followed by 0x5e, 0x5d, 0x31 or 0x33 |
| XBeeWire.UnescapedIsSent | XBeeBroker_API/XBeeApiMode.cpp:1554-1610 | undoing the escapes of what was sent gives the bytes back |
| XBeeWire.FrameLayout | XBeeBroker_API/XBeeApiMode.cpp:1554-1596 | behind the start byte and with the escapes undone: two length bytes, high byte first, that count the api id, the frame id and the data; these; and a byte that makes their sum 255 modulo 256 |
| XBeeWire.NodeJoinFrame | XBeeBroker_API/XBeeApiMode.cpp:1554-1596 | one frame byte for byte |
| XBeeWire.FrameEnds | XBeeBroker_API/XBeeApiMode.cpp:984-1012 | at the checksum byte a frame ends complete with error 0 or, with a wrong sum, incomplete with error 1; a byte that does not fit ends it with error 2 |
| XBeeWire.StartEnds | XBeeBroker_API/XBeeApiMode.cpp:932-936 | a start byte inside a frame ends the call with error 3 |
| XBeeFrame.OneSymbol | XBeeBroker_API/XBeeApiMode.cpp:928-956 | one sent byte, escaped or not, over one or several calls and split anywhere, has the effect of one unescaped byte |
| XBeeFrame.SendReceive | XBeeBroker_API/XBeeApiMode.cpp:921-1027 | the bytes of a request with at most 105 data bytes, over any polls, yield one response with the same api id and the frame id followed by the data |
| XBeeFrame.SendReceiveAll | XBeeBroker_API/XBeeApiMode.cpp:921-1027 | any number of requests sent one after the other are all received, in order |
| XBeeFrame.SendReceiveExact | XBeeBroker_API/XBeeApiMode.cpp:968-1023 | a request is received as sent if and only if it has at most 105 data bytes |
| XBeeFrame.Resynchronises | XBeeBroker_API/XBeeApiMode.cpp:930-936 | from any reachable receiver the second of two sent frames is delivered; the first one too if and only if the receiver was between frames |
| XBeeFrame.StoresInBounds | XBeeBroker_API/XBeeApiMode.cpp:973-1023 | over every session on any bytes the receiver stays reachable with its position at most 111, and the frame buffer is never written above index 106 |
| XBeeFrame.ReadPacketSound | XBeeBroker_API/XBeeApiMode.cpp:921-1027 | a call on any bytes keeps the receiver reachable, which includes a running checksum of 0 whenever a frame starts, and offers a response only if api id, frame data and checksum add up to 255 modulo 256 |
| XBeeLine.SymbolsExact | XBeeBroker_API/XBeeApiMode.cpp:938-953 | on every schedule the state machine gets exactly the bytes the line stands for if and only if no escape left pending by an idle poll meets another escape |
| XBeeLine.EverySchedule | XBeeBroker_API/XBeeApiMode.cpp:938-953 | every schedule of a line's bytes gives the state machine exactly the bytes the line stands for if and only if no escape byte in the line is followed by an escape byte |
| XBeeLine.InFrame | XBeeBroker_API/XBeeApiMode.cpp:921-1027 | from inside a frame, whatever the line brings and over any number of calls, a response holds the bytes so far and then exactly the bytes the state machine was given |
| XBeeLine.HoldsTheLine | XBeeBroker_API/XBeeApiMode.cpp:921-1027 | over any number of calls on any schedule, a response starts at the first start byte and its length bytes, api id, data and checksum are exactly the unescaped bytes since, if and only if no pending escape met another escape; so always when no escape byte is followed by one |
| XBeeLine.ArrivalMatters | XBeeBroker_API/XBeeApiMode.cpp:938-953 | the same three line bytes, two escapes and a 5, are kept as two bytes when they arrive at once and as one when the line was idle behind the first |
| XBeeDevice.XBee.PacketLength | XBeeBroker_API/XBeeApiMode.cpp:755-757 | the packet length is the low length byte alone |
| XBeeDevice.XBee.Step | XBeeBroker_API/XBeeApiMode.cpp:963-1024 | state and frame buffer after one byte are those of the byte's effect on values, and the line is untouched |
| XBeeDevice.XBee.ReadPacket | XBeeBroker_API/XBeeApiMode.cpp:921-1027 | one call consumes exactly the polls, and leaves exactly the state, that the receiver on values gives |
| XBeeDevice.XBee.SendByte | XBeeBroker_API/XBeeApiMode.cpp:1598-1610 | a special byte is written as 0x7d and its flipped value, as in SymbolsSent, if escaping is asked for; any other byte as itself |
| XBeeDevice.XBee.Send | XBeeBroker_API/XBeeApiMode.cpp:1554-1596 | the start byte, then length, api id, frame id, data and checksum, all escaped, are appended to the line |
| XBeeBroker.AddressRoundTrip | XBeeBroker_API/XBeeApiMode.cpp:185-197 | a 64-bit address survives being split into bytes and joined again |
| XBeeBroker.FrameDataLayout | XBeeBroker_API/XBeeApiMode.cpp:1160-1204 | the bytes of a transmit request are the address, the short address, radius, option and payload in that order |
| XBeeBroker.AddressBytes | XBeeBroker_API/XBeeApiMode.cpp:1160-1204 | the high word of an address comes first, and in each word the high byte |
| XBeeBroker.FragmentFrame | XBeeBroker_API/XBeeBroker.cpp:274-312 | a fragment is sent with api id 0x10 and the slot index plus one for frame id: the address, 0xfffe, two zeros and the fragment |
| XBeeBroker.FragmentAt | XBeeBroker_API/XBeeBroker.cpp:274-312 | the k-th fragment is the 60 bytes from byte 60k on, or what is left |
| XBeeBroker.FragmentsJoin | XBeeBroker_API/XBeeBroker.cpp:274-312 | fragments have 1 to 60 bytes and concatenate to the encoded package |
| XBeeBroker.Cut | XBeeBroker_API/XBeeBroker.cpp:274-312 | the sending loop cuts whole 60-byte fragments and then what is left |
| XBeeBroker.FragmentsReachTheRadio | XBeeBroker_API/XBeeBroker.cpp:274-312 | the fragments of a package, sent as transmit requests and read over any polls, arrive with the device's frame id and address, and their payloads put together are the package |
| XBeeReassembly.RxLayout | XBeeBroker_API/XBeeApiMode.cpp:173-197 | a response with api id 0x90 is eight address bytes, three that are passed over and the payload; with another api id it is no received data |
| XBeeReassembly.ReceiveFeedsOne | XBeeBroker_API/XBeeBroker.cpp:136-200 | a frame of received data feeds the buffer of its own sender and no other, and no two slots share an address |
| XBeeReassembly.RemoveDropsOne | XBeeBroker_API/XBeeBroker.cpp:481-510 | removing a device empties its buffer and no other |
| XBeeReassembly.Demultiplexed | XBeeBroker_API/XBeeBroker.cpp:122-200 | however frames of many devices interleave and other devices come and go, each device's packages and buffer are those its own bytes would give alone |
| XBeeReassembly.FragmentsReassemble | XBeeBroker_API/XBeeBroker.cpp:122-200 | from an empty table, the fragments of a device's packages that have arrived deliver exactly the packages they complete, in order, keep exactly the unfinished rest and never fill the buffer; with all fragments there, all packages were delivered |
| XBeeReassembly.FramesAreRead | XBeeBroker_API/XBeeApiMode.cpp:173-197 | frames of received data that arrive over any polls reach the broker with the sender's address and payload, in order |
| XBeeReassembly.LineToPackages | XBeeBroker_API/XBeeBroker.cpp:122-200 | the bytes of any interleaving of many devices' frames, read over any polls, deliver of each device's fragmented packages exactly those that are complete, in order, and buffer exactly the unfinished rest |
| XBeeDevices.DeviceTable.FindDeviceIndex | XBeeBroker_API/XBeeBroker.cpp:512-524 | the first entry with the address, or -1 |
| XBeeDevices.DeviceTable.AddNewDevice | XBeeBroker_API/XBeeBroker.cpp:459-479 | the first free entry gets the address and an empty buffer; with none free nothing changes |
| XBeeDevices.DeviceTable.RemoveDevice | XBeeBroker_API/XBeeBroker.cpp:505-509 | that entry becomes free and no other changes |
| XBeeDevices.DeviceTable.HandleRx | XBeeBroker_API/XBeeBroker.cpp:136-200 | the device array after a frame, and the packages delivered, are those of the table on values; no other device's buffer is touched |
| StopAndWait.StepKeepsGrant | XBeeBroker_API/XBeeBroker.cpp:331-371 | the sending thread goes on only while the flag is set, although it looks and clears in separate critical sections |
| StopAndWait.EveryRun | XBeeBroker_API/XBeeBroker.cpp:202-225 | in every interleaving, timeouts and registrations included: permissions to send plus failures are at most the times the slot was filled plus registration sends, and every sent fragment is in flight, acknowledged, failed or ignored |
| StopAndWait.FilledOnce | XBeeBroker_API/XBeeBroker.cpp:331-371 | in every interleaving, a slot that was filled or registered under at most once in all has at most one unanswered fragment, and none while its flag is set |
| StopAndWait.StopAndWaitHolds | XBeeBroker_API/XBeeBroker.cpp:331-371 | in every interleaving in which this slot sees no timeout and no registration send, whatever happens to others, its device has at most one unacknowledged fragment, a set flag means none in flight, and a fragment is sent only after all earlier ones were acknowledged |
| StopAndWait.StopAndWaitExact | XBeeBroker_API/XBeeBroker.cpp:331-371 | a slot gets one fragment at a time in every interleaving if and only if it may see no timeout and, being the first slot, no registration send |
| StopAndWait.RegistrationBreaksIt | XBeeBroker_API/XBeeBroker.cpp:429-431 | with a registration send a run exists in which the first slot's flag is set while a fragment is in flight |
| StopAndWait.TimeoutBreaksIt | XBeeBroker_API/XBeeBroker.cpp:353-362 | with a timeout every slot has a run in which it is filled again and ready while its earlier fragment is in flight |
| StopAndWait.AnyNumberGoes | XBeeBroker_API/XBeeBroker.cpp:331-371 | without any harm, any slot can be sent any number of fragments, each acknowledged before the next, and is ready for more |
| Registry.RefinesMap | IoTService.cpp:444-518 | each operation on the slot array is the operation on a map from device ids to devices that holds at most as many devices as there are slots |
| Registry.RegisterSlot | IoTService.cpp:794-852 | a registration goes to the slot that holds its device id; without one to the hole with no hole in front; with all slots taken it is dropped |
| Registry.EveryRun | IoTService.cpp:741-852 | over every run of operations the array follows a run of the map, device ids stay distinct and the proxy flag is 0 or 1 |
| Payload.CommandIsRead | IoTService.cpp:444-474 | the data of an encoded command are read as that command |
| Payload.RegistrationIsRead | IoTService.cpp:794-826 | a registration document, with any spacing and further fields, is read as its device id and function group |
| Payload.RegistrationWithoutGroup | IoTService.cpp:810-826 | a registration document in which no text reads FunctionGroup gets the device id for its group, since one buffer takes both |
| Payload.OtherDocument | IoTService.cpp:444-472 | a document with another first key of under 50 characters is nothing the manager knows |
| Payload.NameStays | IoTService.cpp:444-456 | a first key that has been read decides the branch, whatever text follows it and whether or not that tokenizes |
| Payload.BrokenByName | IoTService.cpp:444-472 | text that does not tokenize is read by its first key alone: a command without a type or fields, a registration that reads unset memory, or nothing the manager knows |
| Payload.CutOffCommand | IoTService.cpp:444-469 | the text {"IOTCMD":{ stops the tokenizer with PART and is read as a command without a type |
| Manager.HandleChanges | IoTService.cpp:392-419 | a handled package changes the table by at most one operation, taken from its data and sender alone, and the address count by one exactly for an address request |
| Manager.UntokenizedIsIgnored | IoTService.cpp:444-518 | a management package whose text does not tokenize is no registration, changes nothing and is not answered, unless reading its first key already leaves the defined tokens or takes the registration branch |
| Manager.CutShortIsIgnored | IoTService.cpp:444-518 | in particular any text with a first key of under 50 characters other than IOTDEV that fails to tokenize behind that key is ignored |
| Manager.RegistryOverRuns | IoTService.cpp:392-518 | over every run of packages, those whose text does not tokenize included, the table follows a run of the bounded map, with distinct device ids and proxy flags 0 or 1 |
| Manager.AddressesOverRuns | IoTService.cpp:421-442 | each address request of a run is answered, to the client slot that asked; the n-th answer, as its receiver reads it, carries the n-th address, and no two are alike |
| Manager.DeliveredAreReceived | IoTService.cpp:328-345 | whatever bytes a client sends, in whatever chunks, the packages the receive loop delivers are ones the handlers expect |
| Clients.OwnChunksOnly | IoTService.cpp:315-345 | however the chunks of all clients interleave, and whoever else disconnects, what the manager gets from a slot is what that slot's chunks alone deliver |
| Clients.PackagesArrive | IoTService.cpp:315-345 | of a client whose chunks are part of a stream of packages the manager gets exactly the packages that part completes, in order |
| Clients.ArrivalsReceived | IoTService.cpp:315-345 | whatever all clients send, every package handed to the manager has the shape the handlers expect |
| Clients.AddressesOverClients | IoTService.cpp:315-442 | a client whose stream has arrived in full, in whatever chunks between those of others, was sent one address for each of its requests, and no address was sent twice to anyone |
| Clients.FreshAfterClose | IoTService.cpp:297-307 | a client that takes over a slot starts with an empty buffer, and what its predecessor finished was delivered |
| Effects.Dispatched | IoTService.cpp:392-419 | a package from 0 to 0 asks for an address, one to Master is for the manager, every other is forwarded |
| Effects.ProxyAdded | IoTService.cpp:491-499 | Prx_Add sets the flag of the first device with the address, in its slot, and changes nothing else; with no such device nothing changes; nothing is sent |
| Effects.ProxyRemoved | IoTService.cpp:500-508 | Prx_Rmv clears it in the same way |
| Effects.DeviceDeleted | IoTService.cpp:481-490 | Del_Dev empties the first slot with the address and changes nothing else |
| Effects.OtherCommands | IoTService.cpp:465-518 | a command that is no management command, and a management command with any other id that does not start with Dis_, does nothing |
| Effects.SelectedExact | IoTService.cpp:927-1007 | a device is listed if and only if it is in the table, is not the sender and no user interface, and has the flag asked for |
| Effects.ProxiedIsListed | IoTService.cpp:491-592 | after Prx_Add the device is among the proxied ones and, its id being in one slot, not among the unproxied ones |
| Effects.UnproxiedIsListed | IoTService.cpp:500-592 | after Prx_Rmv it is the other way round |
| Effects.DiscoveryAnswered | IoTService.cpp:561-592 | a discovery whose reply has at most 4096 bytes is answered to the slot it came from, and changes nothing |
| Effects.UnknownDiscovery | IoTService.cpp:561-592 | a discovery of an unknown kind is answered by an empty list |
| Effects.RegistrationStored | IoTService.cpp:794-852 | a registration stores the source address of its package, the id and group of the document, its text and the client slot, with the flag cleared, in the slot that holds the id, without one in the first hole; with all slots taken it is dropped |
| Effects.RegisteredIsReached | IoTService.cpp:520-556 | if no other device holds that address, the next package for it goes byte for byte to the client slot the registration came from |
| Effects.AddressAnswered | IoTService.cpp:421-442 | a request is answered to the slot that asked by one package from Master to DEV. and the count so far, which goes up; from the hundred and first request on the source writes past its suffix buffer |
| Effects.OthersForwarded | IoTService.cpp:520-559 | every other package goes byte for byte to the slot of the first device with its destination address; without one the command to delete that address goes back to the slot it came from |
| Manager.AddKeepsUnique | IoTService.cpp:794-852 | a registration keeps the addresses in the table distinct if and only if it is dropped or no other device holds its address |
| Manager.RoutingExact | IoTService.cpp:700-716 | over every run, looking its address up leads to every registered device at every moment if and only if every stored registration had an address that no other device held just then |
| Manager.RoutingOverRuns | IoTService.cpp:520-559 | after every run a package to be forwarded makes exactly one send, of its own bytes to the slot of the last registration of the device its address leads to, or of a deletion to its sender; with stored registrations as in RoutingExact every registered device is reached |
| Manager.IssuedIsFresh | IoTService.cpp:421-442 | registrations under issued addresses, each used by one device only, meet that condition however often a device registers again |
| Manager.SharedAddress | IoTService.cpp:700-716 | of two devices registered under one address the first keeps getting its packages although the second registered later |
| Manager.ForwardedUnchanged | IoTService.cpp:547-556 | a created package taken off the stream is forwarded byte for byte |
| Manager.DeletionIsRead | IoTService.cpp:530-546 | the sender of a package for an unregistered address reads the answer as the command to delete that address |
| Manager.DiscoveryOverRuns | IoTService.cpp:561-592 | after every run a discovery query is answered by one package whose data read as the addresses and descriptions of exactly the selected devices |
| Manager.DiscoverySplits | IoTService.cpp:927-1007 | the proxied and the unproxied devices together are all listed devices |
| ManagerService.Server.FindDeviceIndexWithIp | IoTService.cpp:668-698 | the first slot with the address, or -1 |
| ManagerService.Server.FindDeviceIndexWithId | IoTService.cpp:741-755 | the first slot with the device id, or -1 |
| ManagerService.Server.AddNewDevice | IoTService.cpp:794-852 | a known device id is replaced in its slot, a new one takes the first hole, and with none left nothing changes |
| ManagerService.Server.DeleteDevice | IoTService.cpp:481-490 | the first device with the address is forgotten, no other |
| ManagerService.Server.SetProxied | IoTService.cpp:491-508 | the flag of the first device with the address is set or cleared in place, no other record changes |
| ManagerService.Server.HandleIpRequestPackage | IoTService.cpp:421-442 | one package with the next address goes to the requesting client, and the count goes up |
| ManagerService.Server.HandleForwardingPackage | IoTService.cpp:520-559 | the sends are those of the forwarding rule on the table, which does not change |
| ManagerService.Server.DiscoverPackageReplier | IoTService.cpp:561-592 | the reply to a discovery query carries the device list of the queried kind, and the table does not change |
| ManagerService.ReadData | IoTService.cpp:444-472 | the data are read as the registration, the command or the unknown document they hold, by the first key the tokenizer left even if it failed later |
| ManagerService.Server.HandlePackage | IoTService.cpp:392-419 | array, records, counter and sends after a package are those of the manager on values |
| CoderTemplate.RowPerToken | IOTProtocol_c#/JsonUtility/Coder.cs:127-216 | a document built from a table has one token for each row of the table |
| CoderTemplate.DataLookup | IOTProtocol_c#/JsonUtility/Coder.cs:80-84 | looking Data up in a built document leads to the token behind the first text that reads so, although the key lies deeper than the range searched |
| CoderTemplate.LeavesOfFill | IOTProtocol_c#/JsonUtility/Coder.cs:127-216 | the leaves of a built document are the stream's leaves in order, the data last |
| Coder.EncodeIsLeaves | IOTProtocol_c#/JsonUtility/Coder.cs:89-125 | encoding a document gives its leaf texts in preorder, each with a NUL |
| CoderTemplate.SlotIsFirst | IOTProtocol_c#/JsonUtility/Coder.cs:80-84 | if no leaf in front reads Data, that text is the key of the data slot, the token before the last |
| CoderTemplate.LeafIsFirst | IOTProtocol_c#/JsonUtility/Coder.cs:80-84 | if a leaf in front reads Data, the text overwritten, in a template of objects, is the key behind the first such leaf |
| Coder.DecodeThenEncode | IOTProtocol_c#/JsonUtility/Coder.cs:61-125 | for every template whose last leaf alone is named Data and every stream of legal atoms for it: the built text tokenizes, the text behind the first Data is overwritten, and encoding gives the leaves and then the data, or 0 in its place if a leaf in front reads Data; with arrays in the template only for streams without such a leaf |
| Coder.RoundTripExact | IOTProtocol_c#/JsonUtility/Coder.cs:61-125 | for every such template of objects, encoding gives the stream of legal atoms back if and only if no leaf in front of the data reads Data, or the data is 0 |
| CoderBuild.TableIsTemplate | IOTProtocol_c#/JsonUtility/token_info.cs:19-47 | the fixed table is the preorder of the template, with eight leaves before the data |
| CoderBuild.BuiltText | IOTProtocol_c#/JsonUtility/Coder.cs:127-216 | the document built from any eight leaves, character by character |
| CoderBuild.Builder.BuildDecoded | IOTProtocol_c#/JsonUtility/Coder.cs:127-216 | a call writes exactly its entry's text, consumes exactly its rows and exactly its leaves, and the call for an object at the root reports both ends and resets the cursors |
| CoderBuild.Decode | IOTProtocol_c#/JsonUtility/Coder.cs:61-86 | decoding any stream of legal atoms leaves the text and the table of the built document with the text behind the first Data overwritten, and encoding that gives the leaves and the data, or 0 for the data if a leaf in front reads Data |
| CoderBuild.TemplateRoundTripExact | IOTProtocol_c#/JsonUtility/Coder.cs:61-125 | for the fixed template, encoding gives a stream of legal atoms back if and only if none of the eight in front of the data reads Data, or the data is 0 |
| CoderBuild.MagicNumberData | IOTProtocol_c#/JsonUtility/Coder.cs:61-125 | with Data for the magic number and any data but 0 the round trip fails: the stream encoded ends in 0 |
| CoderBuild.Encode | IOTProtocol_c#/JsonUtility/Coder.cs:89-125 | the loop writes the text of every string or atom without children, each with a NUL |

## Left out

- The counting mode of the tokenizer, which is called with no token table.
- JsonFile.JsonData.SearchInRange: requires that the scan stays in the table; the source reads past it for an array index out of range or a match on the last token.
- IoTCommand.Command.Decode: requires lookups that stay in the table and texts that fit the ten-byte fields; EncodedReadable shows that encoded commands do.
- XBeeReassembly.FragmentsReassemble: is about a device that is not removed during the run, and an encoded package of at most 2000 bytes, the size of the sending side's buffer. Other devices may pass the end of their own buffers, or send headers the source cannot handle, without the run being excluded; what the source then overwrites is not modelled.
- CoderBuild.TableIsTemplate: the table is stated row by row; the loop that slices the names out of one long string is not part of this model.
- CoderBuild.Decode: starts on a content buffer of NULs. The source writes no NUL behind the text it builds, so that over a longer earlier text the rest of that text would follow.
- Coder.DecodeThenEncode: for a template with arrays, streams in which a leaf in front reads Data are left out, as the token behind it may be a whole element; the fixed template has none.
- XBeeDevice.XBee.Send: requests of at most 255 data bytes, the width of the source's length type.
- C integer widths in the package lengths: `atoi` of a number beyond 31 bits, and sums over buffers of 16 MB and more.
- Sockets, select, threads, mutexes, serial ports, clocks and printing; which client slot a connection gets, and disconnects, which do not remove devices.
- The pause for a key when a device's buffer is exactly full; a frame that would pass the end of that buffer.
- The eleventh device of the XBee broker, for which the source writes past its array.
- AT-command brokers, the BLE and the fake broker: timed dialogues with little logic.
- The registration dialogue of the XBee broker beyond its send under the default frame id.
- The C# copies of the tokenizer, the editor, the package codec and the packet builder.
- The string search helper, whose scan does not restart after a partial match.
- XBee I/O sample accessors, series 1 requests and remote AT requests.
- Overwriting an empty text, for which the source's copy loop drops the value.
