# Verification of libreactor's core

Reactor is an event framework in C around io_uring. This project models its data structures, codecs and
protocols in Dafny and proves what the rest of the library relies on. Code that changes memory or fields is
modelled as methods and classes that change them; each such method is proved against a function or a relation,
and the theorems are lemmas about those.

* **Hash table** (`map.dfy`, `map_history.dfy`, `words.dfy`). The open-addressing table is a class over an array
  of slots. Its representation invariant is the one that makes linear probing work: no empty slot lies between an
  element's home slot and its position, going round the end of the array. Deletion by backward shift keeps it,
  for any hash function, and `MapHistory.Replay` shows that any sequence of insert, erase, reserve and clear
  leaves the table of a mathematical map in which the first insert of a key wins, and that every element given
  to the table is either still stored or was released, exactly once.
* **JSON** (`utf8.dfy`, `hex.dfy`, `json_*.dfy`). The decoder's explicit-stack machine refines a
  recursive-descent parser (`json_grammar.dfy`), the encoder's machine a recursive printer, and printer and parser
  undo each other. Which texts the parser takes is said by derivations of RFC 8259: `json_text.dfy` has white space
  and structure, `json_number.dfy` and `json_literal.dfy` the tokens. How the printed text looks is said on its own
  bytes in `json_layout.dfy`, and that the encoder writes literals of the standard in `json_written.dfy`. Below them
  are the UTF-8 reader and writer and the string escapes.
* **Chunked bodies** (`chunk_decoder.dfy`, `chunk_decode_call.dfy`, `chunk_grammar.dfy`, `http_chunk.dfy`,
  `http_chunk_line.dfy`, `http_chunk_ends.dfy`, `chunk_encoding.dfy`). The resumable decoder is a byte automaton, and
  its in-place C-style call a class method that refines it; the two-pass dechunker is an in-place method over a
  functional scanner. Both invert the canonical encoding. The texts that the decoder finishes on, and those that it
  refuses, are exactly those of a grammar with extensions and trailers; so are the size lines of the dechunker.
* **Responses and numbers** (`http_message.dfy`, `http_response.dfy`): the fast decimal length and print, and the
  response writer, whose bytes are read back as a message.
* **Queues** (`queue_*.dfy`). A producer and a consumer are classes; the whole queue is a state machine in which
  producers, consumers, handlers and the kernel take steps in any order. The kernel may take or give any positive
  number of whole elements, or interrupt a call. Synchronous pushes go past the buffers at any time.
* **Flows** (`flow_queue.dfy`, `flow_shutdown.dfy`, `flow_loop.dfy`, `flow_log.dfy`, `flow_graph.dfy`): the
  NULL-counting shutdown on top of the queue's state machine, for the queue of a node and for the log, and the
  bookkeeping of edges. In the log's model each group runs its event loop, stops its nodes and signs off. The write
  of the log producer is an operation of that loop: it is started with a fresh user, goes through submission ring,
  kernel and completion ring, and its user is freed after its handler, while other operations come and go. That the
  write is always where it should be is an invariant (`FlowLoop.Tied`), so a loop without users leaves nothing in
  the producer's buffers.
* **Streams** (`stream.dfy`): double-buffered output, block-wise input, and any run of both.
* **Event loop** (`reactor.dfy`, `reactor_log.dfy`, `reactor_places.dfy`, `pool.dfy`, `ring.dfy`): who holds the memory
  of each started operation, and when it is freed, over a pool and two rings with 32-bit counters. A log records what
  is started, what enters the completion ring and which callbacks are called; a round makes exactly the calls that
  the vector and the ring owe.
* **Sessions** (`server.dfy`): one request at a time, responses in request order. What a read of the input comes to,
  a hang-up included, is said from the input and the user's reactions alone.
* **Buffers** (`buffer.dfy`, `memory.dfy`): growing memory as operations on byte sequences.

Conventions. A byte is an integer below 256. Text is a sequence; reading past its end gives 0, which is the
terminating NUL. Errors are values of a datatype. Where the C code returns a pointer or an id, the model returns
an index. `>>`, `|` and masks on words are written with division, `Words.Or` and remainders, and sizes with a
64-bit bound are bounded by `WORD_TOP` = 2^63. `hide` statements only keep definitions away from the solver.

## Where the code and the obvious claim differ

The code is followed, and the theorems say exactly when the claim holds.

* Exponents with a leading zero are refused (`src/reactor/decode.c:95`), although section 6 of RFC 8259 allows
  them: `JsonNumber.NumberGrammar`, `JsonNumber.LeadingZeroExponent`.
* An escaped half of a surrogate pair without its other half next to it is refused (`src/reactor/string.c:173-181`),
  although section 7 of RFC 8259 allows any four digits: `JsonLiteral.StringGrammar`, and `JsonLiteral.LoneHalfRefused`
  for the eight bytes `"\ud800"`. Pairs are joined with OR; `JsonLiteral.MeaningIsStandard` says when that gives the
  character that section 7 means.
* A zero in front of an `x` and a hexadecimal digit is refused, because strtold reads on where the number ends
  (`src/reactor/decode.c:101-102`). The decoder returns after one value, so for `0x1` the grammar alone would give 0
  and end at the `x`. `JsonText.TextGrammar` has the condition.
* Escaped surrogate pairs are joined with OR (`src/reactor/string.c:179`), so in ASCII mode characters of every
  second supplementary plane come back one plane lower. `JsonStringLaws.AsciiRoundTrip` has the exact condition
  for a string and `JsonRoundTrip.TextRoundTrip` for a value tree; `JsonStringLaws.AsciiLosesPlaneTwo` and
  `JsonRoundTrip.TreeOfPlaneTwo` have inputs.
* A response to a body of 4 GiB or more announces a shorter length: `HttpResponse.ContentLengthHonest`.
* The response writer (`src/reactor/http.c:247-257`) does not look at what it is given. A line break in the status, the
  type or a field, or a colon in a field's name, makes a reader see other fields or another body:
  `HttpResponse.ResponseReads` says that the response is read back exactly if there is none.
* A synchronous push overtakes elements that still wait in the buffers: `QueueLaws.SyncOrder`. So the NULL of a
  group (`src/reactor/flow.c:132`) overtakes what the nodes log while they are stopped, after the group's loop
  (`src/reactor/flow.c:129-130`), and those messages are lost. `FlowLog.LogServed` says that every message of a
  group is delivered exactly if nothing was logged that late, and `FlowLog.LateMessageLost` has a losing run. If
  a submission ring happens to fill up while the nodes are stopped, some late messages may still get through;
  the theorem covers that.
* After a chunk's data `src/reactor/http.c:118-132` does not look at the two bytes of the line end, so any two
  bytes pass, trailers included, of which two bytes are swallowed. `HttpChunkEnds.StrictIff` compares with a scan
  that looks, for every input, and `HttpChunkEnds.LooseBody` has a body that only http_dechunk accepts.
* A number that the grammar accepts but strtold refuses leaves the read position where strtold stopped
  (`src/reactor/decode.c:101`); the whole text is refused then, so it makes no visible difference.
* `(!stream->flags & STREAM_WRITE_ONLY)` (`src/reactor/stream.c:116`) is true only if no flag at all is set; the
  model tests `flags == 0`.

## Model

| member | source | states |
|---|---|---|
| Words.Roundup | src/reactor/map.c:7-19 | for sizes 1 to 2^63 the bit smearing gives a power of two at least the size and less than twice it |
| Words.LeastPow2 | src/reactor/buffer.c:6-17 | such a power of two is the least one at or above the size |
| Words.Fold | src/reactor/map.c:10-15 | one smearing step doubles the number of known one bits below the highest bit |
| HashMap.Map.constructor | src/reactor/map.c:63-70 | a new table is empty, valid and of least capacity |
| HashMap.Map.Sized | src/reactor/map.c:36-48 | the table that a rehash fills starts empty with the new capacity |
| HashMap.Map.At | src/reactor/map.c:94-108 | probing ends, at the slot of the key if the map has it with its value there, and else at an empty slot with no gap between home slot and it |
| HashMap.Map.Insert | src/reactor/map.c:112-125 | an absent key is added to the map; for a present key nothing changes and the new element is released |
| HashMap.Map.Reserve | src/reactor/map.c:85-90 | the contents stay; there is a rehash only if twice the size exceeds the capacity, and then to the least sufficient power of two |
| HashMap.Map.Carry | src/reactor/map.c:52-54 | carrying over one slot of the old table adds its element to the new one without a nested rehash |
| HashMap.Map.Rehash | src/reactor/map.c:36-59 | rehashing keeps contents and count, and the reserve nested in its inserts never rehashes again |
| HashMap.Map.Erase | src/reactor/map.c:127-165 | erasing removes exactly the key, releases exactly its element, and leaves no gap in any probe path |
| HashMap.Map.ShiftBack | src/reactor/map.c:149-164 | the shifting loop ends with every other element still found from its home slot, cyclic wrap-around included |
| HashMap.HoleMoved | src/reactor/map.c:156-161 | moving an element into the hole keeps all probe paths but those through the new hole, and loses and duplicates nothing |
| HashMap.HoleKept | src/reactor/map.c:152-157 | an element that must not move leaves the hole correct so far |
| HashMap.HoleClosed | src/reactor/map.c:152-154 | when the next slot is empty the hole breaks no probe path any more |
| HashMap.Map.LiveElements | src/reactor/map.c:26-34 | a walk over all slots meets every live element once and nothing else |
| HashMap.Map.Clear | src/reactor/map.c:167-175 | clearing releases each element once and leaves an empty table of least capacity |
| HashMap.EntriesAreContents | src/reactor/map.c:26-34 | the full slots of a valid table are its key-value pairs, each once |
| HashMap.EmptySlot | src/reactor/map.c:134-154 | a table that is not full has an empty slot, which ends every probe and every shift |
| MapHistory.Replay | src/reactor/map.c:85-175 | after any history the table is the mathematical map of that history, and given elements are stored or released, each exactly once |
| MapHistory.Step | src/reactor/map.c:85-175 | one operation does to the table what it does to the map, and accounts for its elements |
| Utf8.GetAccepts | src/reactor/string.c:140-161 | reading non-empty input consumes at least one byte and stays inside, and is accepted exactly if a well-formed sequence of section 4 of RFC 3629 stands there, with its value and length |
| Utf8.PutThenGet | src/reactor/string.c:192-206 | reading what was written for a scalar value gives it back and consumes exactly its bytes |
| Utf8.PutWellFormed | src/reactor/string.c:192-206 | the bytes written for a code are well-formed exactly if it is a Unicode scalar value |
| Utf8.ValueThenPut | src/reactor/string.c:192-206 | a well-formed sequence is the one written for its value, so there is only one |
| Utf8.GetChar | src/reactor/string.c:140-161 | the reading loop computes the specified code and end |
| Utf8.PutTwoIsOr | src/reactor/string.c:196-197 | the arithmetic form of a two-byte sequence is the OR and shift form |
| Utf8.PutThreeIsOr | src/reactor/string.c:198-201 | so is that of a three-byte sequence |
| Utf8.PutFourIsOr | src/reactor/string.c:202-205 | the arithmetic form of a four-byte sequence is the OR and shift form |
| JsonString.PutBasicThenGet | src/reactor/string.c:208-214 | a `\u` escape reads back as its 16-bit value |
| JsonString.PutEncodedThenGet | src/reactor/string.c:163-190 | one escape or an escaped surrogate pair reads back as the scalar value, up to the OR |
| JsonString.EndOfRun | src/reactor/string.c:296-301 | the run of ordinary bytes found is the longest |
| JsonString.Encode | src/reactor/string.c:228-283 | the encoder's run-copying loop produces the character-by-character encoding |
| JsonString.Decode | src/reactor/string.c:285-359 | the decoder's loops produce the character-by-character decoding and end |
| JsonStringLaws.EncodeByChars | src/reactor/string.c:228-283 | the encoding of well-formed text is the encoding of its scalar values one by one |
| JsonStringLaws.DecodeEncoded | src/reactor/string.c:285-359 | decoding an encoding stops at the closing quote and gives the scalar values that survive the escapes |
| JsonStringLaws.RawRoundTrip | src/reactor/string.c:216-359 | in raw mode every well-formed string, zero bytes included, is decoded to itself and fully consumed |
| JsonStringLaws.AsciiRoundTrip | src/reactor/string.c:163-359 | in ASCII mode the text is fully consumed, and gives the string back if and only if every supplementary character has bit 16 of c - 0x10000 clear |
| JsonStringLaws.DecodesTo | src/reactor/string.c:216-359 | in both modes the decoded text is the one made of the surviving scalar values, which a second trip leaves unchanged |
| JsonStringLaws.ReadBackSurvives | src/reactor/string.c:163-190 | what came back once keeps to the planes that survive |
| JsonStringLaws.SurvivesIff | src/reactor/string.c:163-190 | the scalar values that survive are the original ones exactly under that condition |
| JsonStringLaws.AsciiLosesPlaneTwo | src/reactor/string.c:163-190 | U+20000 does not survive |
| JsonDecode.ValueDecode | src/reactor/decode.c:130-315 | the stack machine accepts what the recursive grammar accepts, with the same value (the last of equal keys wins) and the same end, and terminates; which texts these are is said by TextGrammar |
| JsonText.TextGrammar | src/reactor/decode.c:28-315 | for every UTF-8 text and position: a value and an end are given exactly if a derivation of sections 2 to 7 of RFC 8259 stands there, with the longest white space behind it, whose numbers are narrowed, in range and end there, and whose surrogate halves are paired; the value is its meaning |
| JsonText.TreeParsed | src/reactor/decode.c:130-315 | a derivation of a value is taken wherever it stands, whatever white space it has |
| JsonText.TreeFound | src/reactor/decode.c:130-315 | what is taken as a value has a derivation with that meaning and length |
| JsonText.SkippedBlank | src/reactor/decode.c:28-33 | what is skipped between tokens is the longest run of the bytes 20, 09, 0A and 0D |
| JsonLiteral.StringGrammar | src/reactor/decode.c:105-121 | in UTF-8 text a string token is taken exactly if a literal of section 7 of RFC 8259 stands there in which each escaped surrogate half has its other half next to it |
| JsonLiteral.LiteralParsed | src/reactor/string.c:285-359 | for any literal of section 7, whatever follows it: taken exactly under that condition, with the bytes it stands for, ending behind its closing quotation mark |
| JsonLiteral.MeaningIsStandard | src/reactor/string.c:175-182 | those bytes are the ones section 7 means exactly if no pair names a character with bit 16 of c - 0x10000 set |
| JsonLiteral.LoneHalfRefused | src/reactor/string.c:173-181 | `"\ud800"` is a literal of section 7, and is refused |
| JsonDecode.AfterContainerEnd | src/reactor/decode.c:232-276 | at a closing bracket the parent on the stack is always an array, at a closing brace always an object, and going on with it parses the same text |
| JsonDecode.AfterMember | src/reactor/decode.c:291-300 | under a key there is always an object; storing the value in it parses the same text, and progress is made |
| JsonDecode.AfterKey | src/reactor/decode.c:285-290 | on an object only a string can become a key |
| JsonDecode.AfterEmpty | src/reactor/decode.c:225-268 | a closing character instead of a value is accepted exactly if the container on the stack is of its kind and empty |
| JsonDecode.DecodeNumber | src/reactor/decode.c:73-103 | the number scanner accepts exactly the number grammar; text outside it leaves the position, a refused conversion moves it to where strtold stopped |
| JsonDecode.DecodeString | src/reactor/decode.c:105-121 | a string token is a quote, a decoded body and a quote; on failure the position is left |
| JsonNumber.NumberGrammar | src/reactor/decode.c:60-103 | the scanner takes exactly the numbers of section 6 of RFC 8259 whose exponent has no leading zero |
| JsonNumber.ScannedAt | src/reactor/decode.c:73-99 | a number of the grammar is taken whole exactly where no digit, point or exponent goes on with it |
| JsonNumber.DecodedIsNumber | src/reactor/decode.c:73-103 | a decoded number is the text it stands for, inside the input |
| JsonNumber.LeadingZeroExponent | src/reactor/decode.c:95 | `1e09` is a number of RFC 8259 and is refused |
| JsonEncode.ValueBufferEncode | src/reactor/encode.c:50-191 | the encoding machine succeeds exactly if no undefined value is reachable, and then appends exactly the printed text; what was in the buffer stays in any case |
| JsonLayout.Layout | src/reactor/encode.c:110-181 | for every value whose number texts have no white space, quotation mark, bracket, comma or colon, read off the bytes of the text: compact text has no white space outside strings; pretty text is the compact text with each element, member and closing of something not empty on a line of its own behind twice as many spaces as brackets are open, and one space after each colon; without its white space it is the compact text |
| JsonLayout.QuotedKept | src/reactor/encode.c:35-48 | the layout never touches a string |
| JsonWritten.EncoderWritesLiterals | src/reactor/string.c:228-283 | for any string, well-formed or not, the quoted encoding is a literal of section 7 of RFC 8259 with paired surrogate halves, and in ASCII mode has no byte above 7F |
| Hex.NibbleIs | src/picohttpparser/picohttpparser.c:507-518 | hexadecimal digits of either case have the value of their place in the alphabet |
| Hex.HexDigitIs | src/reactor/string.c:208-214 | digits are written in lower case |
| JsonEncode.ValueEncode | src/reactor/encode.c:193-209 | the text of a value, or nothing for one with an undefined part |
| JsonEncode.AfterNext | src/reactor/encode.c:112-181 | after each element or member, what the machine has still to write is the rest of the printed text |
| JsonRoundTrip.TextRoundTrip | src/reactor/encode.c:50-209 | decoding the encoding of a tree without undefined values, with well-formed strings and accepted numbers, consumes all the text, compact or pretty, and gives the tree back always in raw mode, and in ASCII mode if and only if every string and key keeps to the planes that survive |
| JsonRoundTrip.RereadIff | src/reactor/decode.c:130-315 | what the tree comes back as equals the tree exactly under that condition, also where different keys come back the same |
| JsonRoundTrip.ValueTrip | src/reactor/decode.c:130-315 | a value printed anywhere inside a text, at any depth of indentation, is parsed as what it comes back as |
| JsonRoundTrip.TreeOfPlaneTwo | src/reactor/string.c:163-190 | the string U+20000 does not come back in ASCII mode |
| JsonRoundTrip.StringTrip | src/reactor/encode.c:43-48 | a quoted string or key is parsed back whole, as its surviving text |
| JsonRoundTrip.NumberTrip | src/reactor/decode.c:73-103 | a number lexeme is parsed back whole wherever nothing numeric follows |
| JsonKeys.CompareIsDictionary | src/reactor/value.c:274-284 | comparing the common part, then lengths, is the dictionary order on bytes |
| JsonKeys.LessTotal | src/reactor/value.c:274-284 | different keys are ordered one way or the other |
| JsonKeys.LessTransitive | src/reactor/value.c:274-284 | the order is transitive |
| JsonKeys.OrderedUnique | src/reactor/value.c:340-353 | a set of keys has one sorted sequence, whatever order they were collected in |
| JsonKeys.SortKeys | src/reactor/value.c:340-353 | sorting gives the keys in increasing order, none lost or added |
| JsonObject.ObjectKeys | src/reactor/value.c:340-353 | the keys in encoding order depend only on the object's key set, not on the table's history |
| JsonKeys.KeysOf | src/reactor/value.c:340-353 | collected in any order, the keys of equal objects come out the same |
| JsonObject.EncodeTable | src/reactor/encode.c:139-181 | a table is encoded as the object it holds |
| JsonObject.EncodeAlike | src/reactor/value.c:340-353 | two tables with the same members, whatever their histories, encode to the same bytes |
| JsonObject.ObjectSet | src/reactor/value.c:306-313 | setting replaces the value of the key and keeps all others |
| JsonObject.ObjectGet | src/reactor/value.c:321-330 | the value of the key, or undefined |
| JsonObject.ObjectDelete | src/reactor/value.c:332-338 | exactly the key is removed |
| ChunkDecoder.FragmentationInvisible | src/picohttpparser/picohttpparser.c:523-636 | for every way to cut the input up, output, verdict, decoder state and leftover equal those of one call on the whole |
| ChunkDecodeCall.CallByPiece | src/picohttpparser/picohttpparser.c:523-636 | the same of the in-place calls: fed piece by piece they return the output, verdict, state and leftover of one call |
| ChunkDecoder.RunAppend | src/picohttpparser/picohttpparser.c:523-636 | a verdict on a prefix stands, and an unfinished run continues where it stopped |
| ChunkGrammar.DecoderGrammar | src/picohttpparser/picohttpparser.c:523-636 | with or without consume_trailer, the decoder finishes on exactly the texts that begin with a chunked body, extensions, trailers and line ends of any number of CRs included, puts out its data and leaves what follows |
| ChunkGrammar.DecoderRefuses | src/picohttpparser/picohttpparser.c:531-615 | it fails on exactly the texts that no continuation makes begin with such a body |
| ChunkGrammar.BodyRun | src/picohttpparser/picohttpparser.c:523-636 | a body of the grammar is taken whole, whatever follows it |
| ChunkGrammar.TrailersFound | src/picohttpparser/picohttpparser.c:600-626 | what is consumed after the last chunk are lines that are not empty and an empty line |
| ChunkDecoder.RunOk | src/picohttpparser/picohttpparser.c:542-547 | the digit limit keeps the chunk size below 2^64 in every reachable state |
| ChunkDecodeCall.ChunkedDecoder.Decode | src/picohttpparser/picohttpparser.c:523-636 | the in-place call returns the automaton's verdict and leftover count, with output and leftover adjacent in the buffer and the rest untouched |
| ChunkDecodeCall.ChunkedDecoder.TakeData | src/picohttpparser/picohttpparser.c:571-587 | taking a run of data at once moves exactly the bytes the automaton would emit one by one |
| ChunkDecodeCall.RunData | src/picohttpparser/picohttpparser.c:571-587 | n steps of the automaton on data bytes emit those n bytes and count them off |
| HttpChunk.Dechunk | src/reactor/http.c:134-160 | an incomplete or malformed body leaves the buffer alone; a complete one is replaced by its payloads, with the tail untouched |
| HttpChunk.Compact | src/reactor/http.c:149-159 | the second pass, in place, reads every chunk before it is overwritten |
| HttpChunk.MoveChunk | src/reactor/http.c:155-156 | moving a payload down to the output so far leaves everything after its chunk as it was |
| HttpChunk.ScanShift | src/reactor/http.c:141-158 | what a scan finds depends only on the bytes ahead of it |
| HttpChunk.ScanStable | src/reactor/http.c:134-160 | a positive or negative result stays the same on every extension of the input |
| HttpChunk.ChunkSizeStable | src/reactor/http.c:73-116 | a decided size line does not depend on anything after it |
| HttpChunk.ChunkSizeOf | src/reactor/http.c:73-116 | the pointer loops compute the size line's length and value |
| HttpChunkLine.SizeLineGrammar | src/reactor/http.c:73-116 | a size line is awaited as long as there is no line feed; then exactly the lines of blanks, hexadecimal digits, blanks and an optional extension, in front of CR LF, with a size below ULONG_MAX, are taken, with their length and size |
| HttpChunk.LineParts | src/reactor/http.c:81-115 | blanks, digits and an extension all end at or before the first newline, so the loops do not pass it |
| HttpChunk.ChunkOf | src/reactor/http.c:118-132 | a chunk is a size line, as many bytes as it says, and two more |
| HttpChunkEnds.StrictIff | src/reactor/http.c:118-160 | a scan that demands a line end after every chunk finds the same if and only if each scanned chunk has one or the body is malformed anyway |
| HttpChunkEnds.CompleteIff | src/reactor/http.c:118-160 | for a complete body, if and only if each chunk has one |
| HttpChunkEnds.AnyBytesPass | src/reactor/http.c:126-131 | any two bytes after the data are taken for the line end |
| HttpChunkEnds.LooseBody | src/reactor/http.c:134-160 | a malformed body that http_dechunk accepts and phr_decode_chunked refuses |
| ChunkEncoding.DechunkEncoded | src/reactor/http.c:73-160 | any canonical chunked encoding (section 4.1 of RFC 7230) with any tail dechunks to its payloads and its exact length |
| ChunkEncoding.DecodeEncoded | src/picohttpparser/picohttpparser.c:523-636 | the resumable decoder gives the same payloads for it and leaves exactly the tail |
| ChunkEncoding.HexTextNumber | src/reactor/http.c:73-116 | a size written in hexadecimal reads back |
| HttpResponse.U32Len | src/reactor/http.c:8-15 | for every 32-bit n the table lookup gives the number of decimal digits |
| HttpResponse.ScaledBits | src/reactor/http.c:13-14 | multiplying the bit length by 1233/4096 misses the digit count by at most one, which the table corrects |
| HttpResponse.U32Sprint | src/reactor/http.c:17-45 | the digits fill exactly the bytes before the end, and nothing else changes |
| HttpResponse.DecimalParses | src/reactor/http.c:17-45 | the decimal form reads back as the number |
| HttpResponse.ContentLengthHonest | src/reactor/http.c:236-258 | the announced length is the body's if and only if the body is below 4 GiB |
| HttpResponse.WriteResponse | src/reactor/http.c:236-288 | the writers fill exactly the bytes they allocate; read as a message, these have the status line, `*`, the date and the type under Server, Date and Content-Type, a Content-Length that parses to the body's size exactly below 4 GiB, then the caller's fields in order, and the body behind the first empty line, exactly if nothing given to the writer breaks a line |
| HttpResponse.ResponseReads | src/reactor/http.c:236-288 | the same for the response text, both directions |
| HttpMessage.FieldsClean | src/reactor/http.c:62-71 | what is read as a field of any text has no line break, and no colon in its name |
| HttpResponse.LookupAt | src/reactor/http.c:167-176 | looking up a name, in any case, gives the value of the first field of that name |
| HttpResponse.FieldsSizeIs | src/reactor/http.c:272-274 | the precomputed size of the fields is the size of their text |
| QueueProducer.Producer.Update | src/reactor/queue.c:55-78 | starts the specified write, or none while one is pending |
| QueueProducer.Producer.Push | src/reactor/queue.c:97-101 | pushes as specified |
| QueueProducer.Producer.Write | src/reactor/queue.c:36-53 | handles a completed or interrupted write as specified |
| QueueProducer.Producer.Close | src/reactor/queue.c:108-120 | closes as specified |
| QueueProducer.LargestWrite | src/reactor/queue.c:70-76 | a write takes all that is left in the buffer, or 128 elements if there are more |
| QueueProducer.Updated | src/reactor/queue.c:55-78 | nothing unsent is lost or moved, a pending write's memory stays, and a write is pending afterwards exactly if anything is unsent |
| QueueProducer.Pushed | src/reactor/queue.c:97-101 | one element is added behind the unsent ones, and a pending write's memory stays |
| QueueProducer.Written | src/reactor/queue.c:36-53 | exactly what the kernel took leaves the front, after an interruption nothing |
| QueueProducer.Closed | src/reactor/queue.c:108-120 | only the memory of a pending write is kept |
| QueueConsumer.Consumer.Handle | src/reactor/queue.c:131-153 | the callback gets the batch in order up to the call that closes the consumer, and the next read is issued exactly if none did |
| QueueConsumer.Consumer.Close | src/reactor/queue.c:195-207 | a handler at work is told to stop |
| QueueEnds.PushKeeps | src/reactor/queue.c:97-101 | a push keeps pushed = entered + held + dropped, whatever the write is doing |
| QueueEnds.AcceptKeeps | src/reactor/queue.c:76-77 | so does the kernel taking any positive prefix of the memory lent to it |
| QueueEnds.WriteKeeps | src/reactor/queue.c:36-53 | so does the completion handler, also the one of a cancelled write |
| QueueEnds.SenderCloseKeeps | src/reactor/queue.c:108-120 | so does closing |
| QueueEnds.CallKeeps | src/reactor/queue.c:145-152 | a call of the callback keeps read = called + pending + lost |
| QueueEnds.ReadKeeps | src/reactor/queue.c:131-143 | so does the read handler |
| QueueSystem.StepKeeps | src/reactor/queue.c:36-207 | every step of every producer, consumer and the kernel keeps the invariant of the whole queue |
| QueueLaws.Conservation | src/reactor/queue.c:36-207 | in every run, synchronous pushes included, the multiset pushed is the multiset delivered, in the pipe, in batches, in buffers, and thrown away by closing |
| QueueLaws.PipeOrder | src/reactor/queue.c:36-101 | in every run what a producer pushes enters the pipe in push order, all of it when no write is pending, and what it pushes synchronously at once |
| QueueLaws.ReadOrder | src/reactor/queue.c:131-161 | with one consumer the callbacks follow the order of the pipe, without a gap |
| QueueLaws.LoanUntouched | src/reactor/queue.c:55-120 | memory lent to a pending write is changed by no step but its own completion |
| QueueLaws.SyncOrder | src/reactor/queue.c:103-106 | a synchronous push keeps the order if and only if all elements still waiting equal it, and none wait when no write is pending |
| FlowShutdown.ShutdownLosesNothing | src/reactor/flow.c:15-98 | in every run a node's consumer is closed exactly when the count is zero, and then every message of every edge was delivered in edge order, every edge has signed off, and nothing is left or lost |
| FlowShutdown.ActKeeps | src/reactor/flow.c:15-31 | each action keeps the invariant, and the count of sources never drops below zero |
| FlowLog.LogServed | src/reactor/flow.c:120-133 | in every run, when the log consumer is closed, each group's messages from before the end of its loop were delivered in order, and all of them if and only if none was logged later (with a full ring submitted meanwhile: if none was) |
| FlowLoop.TurnKeeps | src/reactor/reactor.c:257-299 | whatever other operations of the loop do, its accounting holds and the pending write stays where it is |
| FlowLoop.StartKeeps | src/reactor/queue.c:77-78 | a write that is started with a fresh user is in the submission ring, and no completion of that user is around |
| FlowLoop.ReportKeeps | src/reactor/reactor.c:120-126 | a write that the kernel is done with has its one completion, with the result, in the completion ring |
| FlowLoop.AnswerKeeps | src/reactor/queue.c:36-50 | the completion the loop finds for the write carries the result of the write; after the handler, the next write or none, the user is freed and the accounting holds |
| FlowLoop.WriteIsLive | src/reactor/reactor.c:251-255 | a pending write has a live user, so the loop goes on |
| FlowLog.HandlerReady | src/reactor/queue.c:36-50 | in every reachable state, a write whose completion the loop comes to has been completed by the kernel with that result |
| FlowLog.LoopDrains | src/reactor/flow.c:128 | with the write tied to the loop, as every action keeps it, a loop that ends without users has no operation anywhere, and nothing waits in the log producer's buffers |
| FlowLog.GroupKeeps | src/reactor/flow.c:120-133 | every action of every group, of its loop, of the kernel and of the reader keeps what is known of each group, the tie between the loop and the pending write included |
| FlowLog.LateMessageLost | src/reactor/flow.c:129-132 | a run in which a message logged while nodes are stopped is overtaken by the NULL and lost |
| FlowQueue.ClosedAfterAll | src/reactor/flow.c:280-297 | a consumer closed by the last NULL was given all that ever went into the pipe; closing in mid-batch drops nothing |
| FlowQueue.ConsumeKeeps | src/reactor/flow.c:280-297 | a call of the consumer keeps the count and the invariant |
| FlowQueue.ConsumeNext | src/reactor/flow.c:15-31 | the callback does to the count, the open flag and the values received what the step of the state machine does to the node |
| FlowQueue.ConsumedIs | src/reactor/flow.c:280-297 | a call of the consumer adds the next message, counts down at a NULL, and closes exactly at the last one |
| FlowQueue.Inlet.Consume | src/reactor/flow.c:15-31 | a message is received, a NULL counts down, the last one closes |
| FlowQueue.SignersCount | src/reactor/flow.c:417-425 | if each source signs off once, NULLs seen and sources signed off are equal in number |
| FlowGraph.Graph.Connect | src/reactor/flow.c:43-55 | each node's count stays the number of edges into it from other groups |
| FlowGraph.Graph.Send | src/reactor/flow.c:85-98 | direct targets are called first, in the order of the edges, then each other edge is pushed on once, in order |
| FlowGraph.Graph.Exit | src/reactor/flow.c:417-425 | one NULL on each edge that leaves the group |
| FlowGraph.Graph.ExitAll | src/reactor/flow.c:417-425 | when all nodes have left, each has been sent as many NULLs as it counts sources |
| Streams.Run | src/reactor/stream.c:23-207 | in any run of writes, flushes, consumes, short sends, receives and closing, bytes sent, then the unsent rest, then the waiting bytes are all bytes written in order, and an open stream with no send pending has nothing flushed or partial left |
| Streams.Stream.Update | src/reactor/stream.c:97-120 | starts the next send or receive; a pending send's memory is not touched, and a stream with flags never starts to receive |
| Streams.Handle | src/reactor/stream.c:23-63 | a write adds exactly its bytes, a completed send sends some, a receive adds its bytes and what the callback writes |
| Streams.Stream.Switch | src/reactor/stream.c:108-112 | the flushed bytes become the writing buffer, the others stay waiting |
| Streams.Stream.Complete | src/reactor/stream.c:46-63 | for a send that did not fail, exactly the reported prefix counts as sent, and the rest is sent next |
| Streams.Stream.Fail | src/reactor/stream.c:51-56 | after an error no send is pending, and all else is as it was |
| Streams.Stream.Receive | src/reactor/stream.c:23-44 | received bytes are appended, the callback may do anything, and receiving goes on |
| Streams.Stream.Flush | src/reactor/stream.c:203-207 | everything written so far is with the kernel or marked to follow |
| Streams.Stream.Consume | src/reactor/stream.c:188-191 | the consumed bytes are the oldest unconsumed ones |
| Streams.Stream.Close | src/reactor/stream.c:163-180 | pending requests are given up, and only what they held is lost; the count of consumed bytes stays |
| Pools.Pool.Malloc | src/reactor/pool.c:25-44 | the object handed out is not in use, and is the one freed last if there is any |
| Pools.Pool.Free | src/reactor/pool.c:46-50 | the object is available again; it must be live, so nothing is freed twice |
| Pools.Pool.AddChunk | src/reactor/pool.c:30-38 | a new chunk adds its 128 objects to the free list once |
| Rings.Ring.Push | src/reactor/reactor.c:98-107 | an entry is added behind the others, none overwritten, also where counters and slots wrap |
| Rings.Ring.Pop | src/reactor/reactor.c:109-118 | the oldest entry is taken |
| Rings.Apart | src/reactor/reactor.c:98-118 | as long as there are no more entries than slots, no two share a slot |
| Rings.WrapKeepsSlot | src/reactor/reactor.c:103-115 | 32-bit wrap-around does not change the slot of a counter |
| OperationPlaces.TakeKeeps | src/reactor/reactor.c:87-96 | live users stay the disjoint union of all places when the kernel takes a request |
| OperationPlaces.PostKeeps | src/reactor/reactor.c:120-126 | and when the kernel posts a completion, with or without MORE |
| OperationPlaces.PopKeeps | src/reactor/reactor.c:283-296 | and when the loop takes one, whose user is live |
| OperationPlaces.FinishKeeps | src/reactor/reactor.c:295-296 | and when the user of a last completion is freed |
| OperationPlaces.NobodyLeft | src/reactor/reactor.c:251-255 | the pool is empty exactly if no place holds an operation |
| OperationPlaces.SomethingComes | src/reactor/reactor.c:278-282 | if more users are live than wait for the next round, a ring or the kernel holds one |
| OperationPlaces.OnlyNext | src/reactor/reactor.c:278-279 | if no more users are live than wait for the next round, the rings and the kernel are empty |
| Reactors.Reactor.TakeCompletion | src/reactor/reactor.c:109-118 | the oldest completion leaves the ring; its user is live |
| Reactors.Reactor.Enter | src/reactor/reactor.c:87-126 | the kernel takes all requests; blocking is allowed only with a ring operation outstanding |
| Reactors.Reactor.DoNext | src/reactor/reactor.c:332-338 | a new user at the end of the vector for the next round |
| Reactors.Reactor.Submit | src/reactor/reactor.c:354-365 | a new user and a request for it, the ring being emptied first when full |
| Reactors.Reactor.Cancel | src/reactor/reactor.c:306-314 | the callback is replaced and nothing is freed; only a ring operation is also asked to end, by a request of its own |
| Reactors.Reactor.RunEntry | src/reactor/reactor.c:269-274 | the callback that the entry's user holds is called once and does what it does; then that user is freed, no other |
| Reactors.Reactor.HandleCompletion | src/reactor/reactor.c:283-297 | the callback that the user holds is called with the result, unless the completion is a notification, and does what it does; the user is freed exactly if no MORE flag is set, and no other user is |
| Reactors.Reactor.PerformOne | src/reactor/reactor.c:306-350 | a callback's operation begins what it should, with its callback, and a cancellation takes effect exactly on an unfinished operation |
| Reactors.Reactor.Complete | src/reactor/reactor.c:281-298 | all completions, those that come meanwhile included, are taken and answered in order |
| ReactorLog.RoundCalls | src/reactor/reactor.c:257-299 | the calls of a round are those of the vector's users, and those of the completions that are no notifications, with their results |
| ReactorLog.CalledRound | src/reactor/reactor.c:251-255 | the order of calls is kept from round to round |
| ReactorLog.RemembersPosted | src/reactor/reactor.c:301-304 | a call that is logged is one of the callback its user holds |
| Reactors.Reactor.LoopOnce | src/reactor/reactor.c:257-299 | whatever callbacks and kernel do, a round calls all entries of the vector in order, then exactly one callback for each completion that was in the ring or entered it and is no notification, in ring order, each the one its user holds at that time; it does nothing else and leaves no completion |
| Reactors.Reactor.Loop | src/reactor/reactor.c:251-255 | over any number of rounds, operations of reactor_next are called in the order of their starts, and each completion that is no notification is called with its result, in ring order; the loop stops exactly when nothing is outstanding |
| Sessions.Run | src/reactor/server.c:20-185 | in any run requests handed over minus answers given is 0 or 1 and 0 exactly if READY is set, the k-th response is the answer to the k-th request, and responses are flushed; without a malformed request, a hang-up or a disconnect the session is never erased, stays open, has got all that arrived, and a round of the loop leaves no readable request unread |
| Sessions.Session.Read | src/reactor/server.c:37-65 | the requests up to the first that is not answered at once are handed over, that one included, and the others are answered as the reactions say, in order; the session is erased exactly if that one hangs up, or a malformed one comes first |
| Sessions.StopsAt | src/reactor/server.c:42-63 | the item at which a read stops is the first that is malformed, hangs up or is answered later |
| Sessions.Handle | src/reactor/server.c:67-84 | one event without a reason to end the session leaves it open with all that arrived |
| Sessions.Session.HandOver | src/reactor/server.c:55-62 | one request is handed over, with READY cleared and the abort flag seen exactly if the user hung up |
| Sessions.Session.Respond | src/reactor/server.c:168-185 | the response is the answer to the one outstanding request; outside the callback it is flushed and the next read scheduled |
| Sessions.Session.Close | src/reactor/server.c:20-35 | the session is erased exactly if no request is with the user |
| Buffers.Buffer.Reserve | src/reactor/buffer.c:56-64 | contents stay, and memory grows only when needed, to a power of two |
| Buffers.Buffer.Resize | src/reactor/buffer.c:66-71 | the first bytes stay, whether the buffer shrinks or grows |
| Buffers.Buffer.Insert | src/reactor/buffer.c:104-111 | bytes are inserted at the position, overlapping moves included |
| Buffers.Buffer.InsertFill | src/reactor/buffer.c:113-123 | copies are inserted at the position |
| Buffers.Buffer.Erase | src/reactor/buffer.c:135-139 | the bytes are cut out and the rest closes up |
| Buffers.Buffer.Compact | src/reactor/buffer.c:73-91 | the memory is cut down to the contents |

## Left out

- System calls, sockets, files, threads, clocks and module loading; the kernel is a party that answers with any allowed result.
- Request parsing (phr_parse_request, phr_parse_response): a session reads from a sequence of complete requests.
- Floating point: a number is its text. strtold's range check is an arbitrary predicate `fits` on that text, and the printing of numbers is not modelled, so there is no claim about texts such as `1e-05` that the encoder may print.
- The hash function is arbitrary; its masks are remainders by the power-of-two capacity.
- Release callbacks: the methods of the table return what the code would release.
- Reference counts of values, and array and string accessors, which only wrap vectors and buffers.
- qsort and memcmp by their contracts; the order in which the table is walked is arbitrary for sorting.
- Text whose bytes at or above 0x80 do not form complete sequences before the terminating NUL.
- JsonEncode.ValueBufferEncode: does not say what an unsuccessful call appends to the buffer, which its only caller throws away.
- Allocation failure, and sizes above 2^63.
- JSON and response buffers are sequences that are appended to; Buffers.Buffer shows what appending does to memory.
- QueueSystem: a callback that asks for the next batch while its own is being delivered, and opening a producer again after closing it with a write pending.
- QueueSystem: the synchronous pop.
- FlowShutdown: destroying a flow while its loops run; closing of producers and consumers by the destructors.
- JsonObject.EncodeTable: the loop that encodes a table's members is that of ValueBufferEncode, which gets them as a map, not as the table.
- FlowLog: the group of the main process, which logs by a plain call.
- Reactors: reactor_async and its thread, and reactor_time.
- Reactors.Reactor.Cancel: cancelling an operation that is already finished, whose memory may belong to another one.
- Streams.Stream.Fail: what a stream does after a send has failed; the code reports the error and starts nothing.
- Streams: opening a stream again after closing it, and the abort flag that guards freed memory.
- Sessions: the lifetime of session memory and of request memory inside the input buffer.
- Sessions: two calls of server_session_next due at once; a second answer overwrites the pending id (`src/reactor/server.c:178`), and `next` counts both as one.
- Sessions.Session.Respond: answering when no request is with the user.
