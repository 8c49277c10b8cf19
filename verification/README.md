# WolkConnect-C: a model of the connector's stateful parts

This project models seven parts of the C connector in Dafny and proves what they are for.

* **jsmn, the JSON tokenizer** (`JsmnSpec`, `JsmnStructure`, `JsmnRestart`, `JsmnCounting`, `JsmnGrammar`, `JsmnLexemes`,
  `JsonText`, `JsmnParser`): the build without strict mode and parent links. `JsmnSpec` gives the tokenizer as a step
  function on values; the class in `JsmnParser` updates the position, the token count, the superior token and the token
  array in place and equals it.
  Proved of it: the tokens of every input form a laminar family; restarts equal one parse; the counting pass is exact;
  every JSON text yields exactly the tokens of its tree; and which strings and words are taken, in both directions.
* **Parameters as JSON** (`ParameterJson`): the printer and the parser over the tokenizer, and their round trip.
* **SHA-256** (`Words`, `Sha256Spec`, `Sha256Words`, `Sha256Example`, `Sha256Stream`): FIPS 180-4 as functions, with what
  their bytes are as numbers and a published digest computed step by step; the context object absorbs byte by byte, in
  chunks cut anywhere, and equals it.
* **The circular buffer and the publish loop** (`CircularBuffer`, `Publish`): a ring that is a bounded queue, and a
  publisher over it that neither loses nor reorders, tries every message in turn, and drains the queue if nothing is
  refused.
* **Base64** (`Base64`, `Base64Numbers`): sections 4 of RFC 4648 and 6.8 of RFC 2045, encoder and decoder with their
  length-only calls, and what the characters are as numbers.
* **File transfer** (`FileManagementSpec`, `FileTransfer`, `FileSender`, `FileLog`, `FileDownload`, `FileManagement`): the
  state machine under every interleaving of events, the hash chain, the final check, the transfer as the platform sees
  it, and everything that is said meanwhile.
* **Firmware update** (`FirmwareUpdate`): the state machine with a record that survives the loss of power at any point.

Code that updates state in place is modelled by classes and methods over arrays, each proved equal to a function on
values; the properties are lemmas about those functions. The results of the user's callbacks and of the network are
parameters or nondeterministic. SHA-256 and MD5 are parameters of the file transfer.

## Where the code differs from its promises

* `jsmn.h` says that a parse that ended with PART expects more bytes. Parsing on equals parsing at once unless the text
  was cut inside a primitive (`JsmnRestart.ResumeIsOneShot`).
* Dropping as many elements as a ring holds leaves marks that read as a full ring (`CircularBuffer.DropIsSound`).
* A ring of more than 2^31 elements can be read in the wrong place (`CircularBuffer.PlaceIsRight`,
  `CircularBuffer.LargeRingIsMisread`).
* The size check of the parameter printer forgets the terminator and the closing brace, so the payload can be overrun
  (`ParameterJson.OverrunsExactly`, `ParameterJson.TwentyThreeOverrun`); `ParameterJson.PrintedExactly` says when not.
* The parameter decoder reads a token slot that was not written when the tokens of an object end with a string at an odd
  place of its stride (`ParameterJson.ReadsUnwrittenExactly`, `ParameterJson.NameOnlyReadsUnwritten`,
  `ParameterJson.NestedStringReadsUnwritten`).
* The Base64 decoder counts line breaks as text; `Base64.RoundTrip` says for which lengths that does no harm. It can then
  also read outside its text, even one that the encoder wrote (`Base64.DecodesOutside`, `Base64.EncodedOverreads`,
  `Base64.ThreeLinesOverread`), but not without line breaks (`Base64.NoBreakNoOverread`).
* The final check of a file reads 1024 bytes for every chunk that its size asks for, however much a packet carries. What
  is handed over was checked whole exactly when no more was written (`FileTransfer.FinalizedFileIsTheAnnouncedOne`). In
  every configuration more can be written (`FileTransfer.OversizedPacketIsHandedOver`,
  `FileTransfer.TwoThousandForSixtyFour`), and when size 0 is announced nothing is checked at all
  (`FileTransfer.AnythingForNothing`). Even files of their announced size are all read whole only if packets carry at
  most 1024 bytes or no file may be longer (`FileTransfer.VerificationCoversEveryFile`).
* Packets are handled in every state, so data is written although nothing was announced
  (`FileTransfer.OnlyTakenPacketsAreWritten`, `FileTransfer.UnannouncedPacketIsWritten`).
* A transfer that a URL command interrupts can leave the previous hash behind, and then the packet that is asked for
  next is refused however often it is sent (`FileSender.NextFileIsNeverReceived`, `FileSender.StaleExactlyWhenSoiled`).
* A firmware record can outlive a failed start or a failed installation (`FirmwareUpdateSpec.AgreementIsKept`), and an
  abort that is refused repeats the status reported last, also success (`FirmwareUpdateSpec.EveryClearingWasReported`).

## Model

| member | source | states |
|---|---|---|
| `JsmnSpec.ScanPrimitive` | sources/utility/jsmn.c:35-84 | A scan that succeeds ends at or behind its start and within the text; one that fails reports an invalid character and never asks for more |
| `JsmnSpec.ScanString` | sources/utility/jsmn.c:89-157 | A string scan that succeeds ends on a quote within the text; one that fails reports an invalid character or a text that ends too early |
| `JsmnSpec.ClosedAboveLastOpen` | sources/utility/jsmn.c:222-232 | Above the token that the backward search finds nothing is open; if it finds none, nothing is |
| `JsmnSpec.Run` | sources/utility/jsmn.c:162-331 | The whole parse ends for every input and array size, keeps -1 <= toksuper < toknext, never goes back, and a successful result is the number of tokens |
| `JsmnStructure.StepKeepsStructure` | sources/utility/jsmn.c:169-319 | Every character keeps: starts strictly increasing, closed tokens delimited by their own brackets or quotes, ranges laminar, open tokens nested |
| `JsmnStructure.RunKeepsStructure` | sources/utility/jsmn.c:162-331 | The same for every state that a parse reaches, also one that stops with an error |
| `JsmnStructure.ParseIsLaminar` | sources/utility/jsmn.c:162-331 | After success: as many tokens as the result says, starts strictly increase, any two ranges are disjoint or the later lies inside a container, containers begin and end with their bracket pair, everything within the text |
| `JsmnStructure.RunStops` | sources/utility/jsmn.c:169-331 | Success means that the end of the text was reached and no token is open |
| `JsmnStructure.StepSizes` | sources/utility/jsmn.c:184-185 | One character adds as much to the sum of the size fields as it creates tokens, except for a token created outside any container |
| `JsmnStructure.SizesAccountForTokens` | sources/utility/jsmn.c:162-331 | Over a whole parse the sum of all size fields and the tokens created outside any container together are the tokens created; the array bound is kept |
| `JsmnRestart.RestartIsOneShot` | sources/utility/jsmn.c:73-77 | After NOMEM with a small array, parsing on with a larger one gives result, tokens and parser state of the one parse with the larger array; without NOMEM the smaller array already gave them |
| `JsmnRestart.RetriesAreOneShot` | sources/utility/jsmn.c:162-331 | Any number of retries with growing arrays ends as the one parse with the last array |
| `JsmnRestart.ResumeIsOneShot` | sources/utility/jsmn.h:24-25 | After PART, parsing on when more text has arrived equals parsing the whole text at once if and only if the text was not cut inside a primitive; the documented resumption does not hold for those |
| `JsmnRestart.ResumeFrom` | sources/utility/jsmn.c:321-331 | The same from any state whose tokens lie before the position |
| `JsmnRestart.CutPrimitiveExample` | sources/utility/jsmn.c:35-84 | A concrete cut: the two chunks [12 and 3] leave two primitives in the array, the text at once leaves one |
| `JsmnRestart.CutPrimitiveDiffers` | sources/utility/jsmn.c:35-84 | A primitive that is continued by the next chunk ends in a different parser state than in one piece |
| `JsmnRestart.RunKeepsClosed` | sources/utility/jsmn.c:194-242 | A token that is closed keeps its type and its bounds for the rest of the parse |
| `JsmnRestart.StepExtends` | sources/utility/jsmn.c:169-319 | A character that does not run out of text is handled the same when text is added behind |
| `JsmnCounting.CountIsExact` | sources/utility/jsmn.c:167-193 | Whenever the filling pass succeeds, the pass without an array returns the same number |
| `JsmnCounting.CountFollowsFill` | sources/utility/jsmn.c:162-331 | The counting pass goes through the same positions and numbers as the filling pass, as far as that comes |
| `JsmnCounting.CountIsTheNeed` | sources/utility/jsmn.c:162-331 | If the counting pass returns n, an array of n tokens never gives NOMEM; and if that parse succeeds, NOMEM comes exactly for smaller arrays |
| `JsmnCounting.SmallerFill` | sources/utility/jsmn.c:6-22 | With fewer tokens the filling pass gives the same answer or NOMEM, nothing else |
| `JsmnGrammar.DocumentParses` | sources/utility/jsmn.c:162-331 | For every document tree whose characters are those of RFC 8259, spelled out, or that are unquoted words of the loose mode, with any blank space inside and around it, an array of enough tokens is filled with exactly the tokens of the tree, types, bounds and child counts, and their number is returned |
| `JsmnGrammar.BareDocumentParses` | sources/utility/jsmn.c:162-331 | The same for a document without blank space around it |
| `JsmnGrammar.ValueParses` | sources/utility/jsmn.c:162-331 | The same for one value in the middle of a parse: its tokens are appended, the superior token counts one child more and is restored |
| `JsmnGrammar.ContainerParses` | sources/utility/jsmn.c:175-244 | Objects and arrays: the brackets, the children between them, and the return to the enclosing container |
| `JsmnGrammar.ChildrenParse` | sources/utility/jsmn.c:258-277 | The children of a container, with labels and commas |
| `JsonText.EveryTextParses` | sources/utility/jsmn.c:162-331 | Every text that RFC 8259 allows, printed from its parts (the four characters of white space, plain characters, the eight escapes, four hexadecimal digits with values 0 to 15, the numbers of section 6, true, false, null, arrays and objects), is tokenized into the tokens of its tree |
| `JsonText.TreeIsWellFormed` | sources/utility/jsmn.c:162-331 | So each such text is one of the documents above: no part of the grammar is missing from them |
| `JsonText.EscapedNewline` | sources/utility/jsmn.c:123-132 | For example an array of one string with an escaped newline gives two tokens |
| `JsmnLexemes.StringScanIsExact` | sources/utility/jsmn.c:89-157 | A string scan reads the inside of a string as far as it goes and succeeds exactly at a quote; it reports an invalid character exactly at a backslash with something else behind it than one of the eight letters or u and hexadecimal digits, and a text that ends too early exactly where it ends |
| `JsmnLexemes.PrimitiveScanIsExact` | sources/utility/jsmn.c:35-67 | A scan of an unquoted word reads the characters from ! to ~ that do not end it; it succeeds exactly at white space, one of the four ending characters or the end of the text, and fails at any other |
| `JsmnLexemes.HexScanIsExact` | sources/utility/jsmn.c:135-147 | The digits behind u: up to four, an error exactly at one that is no hexadecimal digit in front of the end of the text |
| `JsmnLexemes.FirstCharacter` | sources/utility/jsmn.c:174-319 | Which character begins, ends or separates a token, which is skipped, and which is an error |
| `JsmnParser.Parser.constructor` | sources/utility/jsmn.c:337-342 | A fresh parser |
| `JsmnParser.Parser.AllocToken` | sources/utility/jsmn.c:6-22 | Takes the next token and clears it, or says that there is none and changes nothing |
| `JsmnParser.Parser.FillToken` | sources/utility/jsmn.c:24-30 | Writes one token and no other |
| `JsmnParser.Parser.ParsePrimitive` | sources/utility/jsmn.c:35-84 | Reads a primitive as the scan describes, or restores the position and creates no token |
| `JsmnParser.Parser.ParseString` | sources/utility/jsmn.c:89-157 | Reads a string as the scan describes, or restores the position and creates no token |
| `JsmnParser.Parser.OpenBracket` | sources/utility/jsmn.c:175-193 | Performs the opening step on the object and the array in place |
| `JsmnParser.Parser.CloseBracket` | sources/utility/jsmn.c:194-244 | Performs the closing step: closes the last open token of the same type and goes back to the one before it, or fails and changes nothing |
| `JsmnParser.Parser.Comma` | sources/utility/jsmn.c:261-277 | Goes back to the last open container when a label was superior |
| `JsmnParser.Parser.ParseLexeme` | sources/utility/jsmn.c:245-252 | A string or primitive and its place among the children of the superior token, filling or counting |
| `JsmnParser.Parser.ParseChar` | sources/utility/jsmn.c:169-319 | One character equals one step of the specification, in both modes |
| `JsmnParser.Parser.AnyOpen` | sources/utility/jsmn.c:321-328 | Whether a container is left open |
| `JsmnParser.Parser.Parse` | sources/utility/jsmn.c:162-331 | jsmn_parse, updating parser and array in place, returns and leaves behind exactly what Run and CountRun say |
| `ParameterJson.PrintedExactly` | sources/protocol/json_parser.c:641-664 | A call appends the whole object, and stays inside the payload, exactly if what the payload held, the object and a terminator fit 2048 characters |
| `ParameterJson.OverrunsExactly` | sources/protocol/json_parser.c:648-661 | A call writes behind an array exactly if a check lets the payload reach 2048 characters, or a piece is that long, or the closing brace is one too many |
| `ParameterJson.TwentyThreeOverrun` | sources/protocol/json_parser.c:655-661 | An input on which it does, though every name and value fits its struct: an empty payload and 23 parameters of 82 characters each |
| `ParameterJson.SerializeParameters` | sources/protocol/json_parser.c:641-664 | The loop over the payload array, with its strlen and strcat, leaves in it what the specification says, or stops in front of a write behind it |
| `ParameterJson.Append` | sources/protocol/json_parser.c:648-661 | strcat: the string behind the one that the buffer holds, exactly if both and a terminator fit |
| `ParameterJson.FifteenFit` | sources/protocol/json_parser.c:650-661 | Fifteen parameters that fit their structs are always printed whole into an empty payload, inside it |
| `ParameterJson.ReadsUnwrittenExactly` | sources/protocol/json_parser.c:527-548 | The decoder reads a token that the tokenizer did not write exactly for an object whose last token is a string at an odd place of the stride, all earlier strings of the stride being short enough |
| `ParameterJson.NameOnlyReadsUnwritten` | sources/protocol/json_parser.c:527-540 | An input on which it does: an object with a name only |
| `ParameterJson.NestedStringReadsUnwritten` | sources/protocol/json_parser.c:527-540 | And an RFC 8259 document on which it does: an array with one string as the value of a name |
| `ParameterJson.DeserializeParameters` | sources/protocol/json_parser.c:514-549 | The decoder, whatever its token array held, returns what the specification over the parsed tokens says |
| `ParameterJson.PrintsDocument` | sources/protocol/json_parser.c:641-664 | The printed text is a well-formed JSON object whose tokens are the object and a name and a value for each parameter |
| `ParameterJson.PrintedParses` | sources/protocol/json_parser.c:520-526 | The tokenizer on a printed list returns 2n + 1 tokens at the places of the names and values |
| `ParameterJson.PairsDecode` | sources/protocol/json_parser.c:527-548 | The stride of two over those tokens appends the parameters from any index on, in order, up to the first that does not fit |
| `ParameterJson.RoundTrip` | sources/protocol/json_parser.c:514-549 | What is printed for parameters that can stand between quotes, escapes included, is read back with the same count, names and values in order if and only if there are at most 15 with names of at most 31 and values of at most 63 characters; the first that is longer rejects the message, and more than 15 are not looked at |
| `ParameterJson.StopsAtNul` | sources/protocol/json_parser.c:531-538 | What is copied of a name or a value is everything in front of its first NUL |
| `ParameterJson.TwoPrinted` | sources/protocol/json_parser.c:650-661 | What is printed for two parameters, character by character |
| `ParameterJson.TokensInText` | sources/protocol/json_parser.c:531-538 | Every token that the decoder copies from lies within the buffer |
| `Sha256Spec.PadShape` | sources/utility/sha256.c:181-201 | Section 5.1.1 of FIPS 180-4: message, 0x80, zeros and a 64-bit length make whole blocks |
| `Sha256Spec.ZeroCountLeast` | sources/utility/sha256.c:183-190 | No smaller number of zeros would do |
| `Sha256Spec.PadInjective` | sources/utility/sha256.c:181-201 | Different messages below 2^64 bits are padded differently |
| `Sha256Spec.PadLayout` | sources/utility/sha256.c:181-200 | The padding byte by byte: the message, 0x80, zeros up to the last eight bytes, and in these the number of bits modulo 2^64; at most 72 bytes are added |
| `Sha256Spec.ChainFromTheFront` | sources/utility/sha256.c:165-173 | The blocks are taken from the front, each into the hash value of those before it |
| `Sha256Words.WordBytesAreBigEndian` | sources/utility/sha256.c:203-214 | The four bytes that are written for a word are its number in base 256, the most significant digit first |
| `Sha256Words.WordIsTheNumber` | sources/utility/sha256.c:86-89 | The word that is read from four bytes is the number with these digits in base 256 |
| `Sha256Words.DigestIsBigEndian` | sources/utility/sha256.c:203-214 | The digest is the eight words of the hash value as numbers, in order |
| `Sha256Example.DigestOfAbc` | sources/utility/sha256.c:98-215 | "abc" has the digest that FIPS 180-4 publishes for it: 64 schedule words and 64 rounds on plain numbers, with the round constants one by one |
| `Sha256Example.CompressionOfAbc` | sources/utility/sha256.c:98-141 | The compression of its one block, before it is written out |
| `Sha256Stream.Context.constructor` | sources/utility/sha256.c:143-157 | The initial hash value, an empty buffer and a zero counter |
| `Sha256Stream.Context.AddBits` | sources/utility/sha256.c:91-96 | Two words with a carry count modulo 2^64 |
| `Sha256Stream.Context.MessageWord` | sources/utility/sha256.c:115-119 | The schedule word from the words before it |
| `Sha256Stream.Context.CompressBuffer` | sources/utility/sha256.c:98-141 | Schedule and 64 rounds in one loop give the compression of section 6.2.2 of FIPS 180-4 |
| `Sha256Stream.Context.HashBlock` | sources/utility/sha256.c:98-141 | The hash value is replaced by the compression of the buffer |
| `Sha256Stream.Context.AbsorbByte` | sources/utility/sha256.c:165-173 | One byte keeps the invariant: the hash is the fold over all whole blocks, the buffer holds the tail of fewer than 64 bytes, the counter 512 times the blocks |
| `Sha256Stream.Context.Update` | sources/utility/sha256.c:159-174 | Any number of bytes is appended to what was absorbed |
| `Sha256Stream.Context.MarkEnd` | sources/utility/sha256.c:181-190 | The end marker, with an extra block exactly if more than 55 bytes remain |
| `Sha256Stream.Context.StoreLength` | sources/utility/sha256.c:192-200 | The bit length modulo 2^64 as eight bytes, most significant first |
| `Sha256Stream.Context.Finish` | sources/utility/sha256.c:176-201 | The hash value is that of the padded message |
| `Sha256Stream.Context.Done` | sources/utility/sha256.c:176-215 | The digest is that of everything absorbed |
| `Sha256Stream.PaddedBlocks` | sources/utility/sha256.c:181-201 | The blocks that the object compresses, put together, are the padded message |
| `Sha256Stream.LastBlocks` | sources/utility/sha256.c:181-201 | The hash of a message from the hash of its whole blocks and one or two more compressions |
| `Sha256Stream.HashChunks` | sources/utility/sha256.c:143-215 | sha256_init, any sequence of sha256_hash calls and sha256_done give the SHA-256 of the concatenation |
| `Sha256Stream.Sha256Of` | sources/utility/sha256.c:217-224 | sha256 gives the SHA-256 of its data |
| `CircularBuffer.PushKeepsLast` | sources/utility/circular_buffer.c:61-87 | Adding one by one in wrap mode leaves the last elements of everything added |
| `CircularBuffer.SizeBounds` | sources/utility/circular_buffer.c:260-275 | The size is 0 exactly if empty and the capacity exactly if full |
| `CircularBuffer.DropIsSound` | sources/utility/circular_buffer.c:186-200 | Dropping n from the end removes n elements if and only if n is 0 or smaller than the size; dropping all of them leaves marks that read as a full ring |
| `CircularBuffer.Ring.constructor` | sources/utility/circular_buffer.c:41-51 | An initialised ring is empty if it is to be cleared, of any capacity; otherwise the marks stay as they were |
| `CircularBuffer.Ring.Clear` | sources/utility/circular_buffer.c:289-298 | Clearing empties any ring |
| `CircularBuffer.Ring.Size` | sources/utility/circular_buffer.c:260-275 | The size is the number of elements |
| `CircularBuffer.Ring.FreeSpace` | sources/utility/circular_buffer.c:277-287 | The free space is the capacity without them |
| `CircularBuffer.Ring.Add` | sources/utility/circular_buffer.c:61-91 | Appends; a full ring drops its oldest element in wrap mode and refuses otherwise |
| `CircularBuffer.Ring.AddArray` | sources/utility/circular_buffer.c:93-113 | In wrap mode the last elements of old and new remain, whatever the length; otherwise all or nothing |
| `CircularBuffer.Ring.AddAsManyAsPossible` | sources/utility/circular_buffer.c:115-135 | Appends exactly the prefix that fits |
| `CircularBuffer.Ring.Pop` | sources/utility/circular_buffer.c:137-159 | Takes the oldest element |
| `CircularBuffer.Ring.PopArray` | sources/utility/circular_buffer.c:161-184 | Takes exactly the available prefix, in order |
| `CircularBuffer.PlaceIsRight` | sources/utility/circular_buffer.c:212-217 | Reading by position finds the right place if and only if head plus position does not wrap around 32 bits, as it never does up to 2^31 elements |
| `CircularBuffer.LargeRingIsMisread` | sources/utility/circular_buffer.c:212-217 | A full ring of 2^31 + 1 elements on which it does |
| `CircularBuffer.Ring.Peek` | sources/utility/circular_buffer.c:202-220 | Reads by position and changes nothing |
| `CircularBuffer.Ring.PeekArray` | sources/utility/circular_buffer.c:222-240 | Reads exactly the available part |
| `CircularBuffer.Ring.DropFromEnd` | sources/utility/circular_buffer.c:186-200 | The last n elements are gone, for n smaller than the size; beyond that, the marks that result |
| `Publish.Connector.Push` | sources/persistence/in_memory_persistence.c:36-39 | The store accepts a message as the ring does |
| `Publish.Connector.Publish` | sources/wolk_connector.c:420-445 | At most 50 messages are tried, in order, and leave the head as they are sent; success means an empty queue or a full batch, failure that one more was tried, the message that stays at the head, and refused |
| `Publish.FailureIsRefused` | sources/wolk_connector.c:437-444 | A call fails exactly if the network refused one of its messages |
| `Publish.OneCallSendsABatch` | sources/wolk_connector.c:428-445 | A call of which nothing is refused succeeds and sends the first 50 messages, or all there are |
| `Publish.CallsDrain` | sources/wolk_connector.c:420-445 | After k such calls 50 k messages are sent, or all; so enough calls empty any queue |
| `Publish.PublishKeepsOrder` | sources/wolk_connector.c:420-445 | A call keeps the order of sent and queued messages |
| `Publish.PushKeepsOrder` | sources/persistence/in_memory_persistence.c:36-39 | So does a push |
| `Publish.RunKeepsOrder` | sources/wolk_connector.c:420-445 | So does every run |
| `Publish.NothingLost` | sources/wolk_connector.c:420-445 | Without wrapping, in every run: sent messages, then queued messages, are the accepted ones |
| `Publish.NothingReordered` | sources/wolk_connector.c:420-445 | With wrapping too: sent and queued messages are a subsequence of the accepted ones and the queue is their end |
| `Base64.RevcharInverts` | sources/utility/base64.c:22-36 | Looking a letter up gives back the value it stands for; no letter is a line break or padding |
| `Base64Numbers.TableIsTheAlphabet` | sources/utility/base64.c:17 | The character table is Table 1 of RFC 4648, place by place |
| `Base64Numbers.EncodingSpells` | sources/utility/base64.c:38-85 | Apart from its line breaks an encoding is four characters for each three bytes begun; the places of the characters in the alphabet, read as digits in base 64, are the number that the bytes are in base 256, times 4 for two bytes and times 16 for one, and = fills the group |
| `Base64Numbers.LookupFindsThePlace` | sources/utility/base64.c:22-36 | Looking a letter up gives its place in the alphabet |
| `Base64Numbers.OtherCharactersAreTheirCode` | sources/utility/base64.c:22-36 | Looking up any other character gives its own code |
| `Base64Numbers.ThreeAreTheNumber` | sources/utility/base64.c:115-117 | Four letters decode to the number that their places are in base 64, on any text |
| `Base64Numbers.LeftOverIsTheNumber` | sources/utility/base64.c:120-127 | Two or three letters left over decode to the upper 8 or 16 bits of theirs |
| `Base64Numbers.PaddingIsCutOff` | sources/utility/base64.c:91-94 | At most two = are cut off the end of a text, and nothing else is |
| `Base64Numbers.PlainTextGives` | sources/utility/base64.c:87-131 | Every text without line breaks decodes to three bytes for each four characters in front of the padding and one or two for what is left over, as many as the length-only call says |
| `Base64.LengthIsExact` | sources/utility/base64.c:45-50 | The length-only call of the encoder returns the length that the writing call produces, with line breaks and without |
| `Base64.BreaksRemoved` | sources/utility/base64.c:62-66 | Deleting the line breaks gives the encoding without line breaks |
| `Base64.BreakPositions` | sources/utility/base64.c:62-66 | A line break stands behind each 76 characters of full groups and nowhere else |
| `Base64.Encode` | sources/utility/base64.c:38-85 | The encoder writes exactly the encoding and nothing behind it, or returns the length |
| `Base64.EncodeGroups` | sources/utility/base64.c:52-67 | The loop over full groups, with its running indices and its count of line breaks |
| `Base64.Decode` | sources/utility/base64.c:87-131 | The decoder, on any text, writes exactly the bytes that the specification reads and nothing behind them, or returns the length; it reads outside the text exactly if its steps reach behind the end |
| `Base64.DecodesOutside` | sources/utility/base64.c:111-127 | The decoder reads outside a text exactly if its walk, four characters a step and one more for a line break in front of it, and the left-over characters it looks at reach behind the end |
| `Base64.BreakInFrontOverreads` | sources/utility/base64.c:113-117 | An input on which it does: a line break and three letters |
| `Base64.NoBreakNoOverread` | sources/utility/base64.c:111-127 | It never does in a text without line breaks |
| `Base64.EncodedOverreads` | sources/utility/base64.c:87-131 | Of the texts that the encoder writes it does exactly for certain lengths with line breaks, given by the lines and the bytes of the last one |
| `Base64.ThreeLinesOverread` | sources/utility/base64.c:96-97 | For example for every text of 171 bytes |
| `Base64.DecodeInto` | sources/utility/base64.c:111-127 | The decoding loop with its skipped line breaks, and the left-over characters |
| `Base64.PaddingStripped` | sources/utility/base64.c:91-94 | The decoder strips exactly the padding that the encoder wrote |
| `Base64.GroupsReadBack` | sources/utility/base64.c:112-118 | The loop reads every full group of an encoded text, whatever line breaks stand between them |
| `Base64.RoundTrip` | sources/utility/base64.c:87-131 | Decoding an encoded non-empty text gives the bytes back without line breaks always, and with them if and only if the number of line breaks and the last line leave the last group undisturbed |
| `Base64.FiftyEightBytesFail` | sources/utility/base64.c:96-97 | It fails for every text of 58 bytes with line breaks |
| `Base64.ShorterTextsReadBack` | sources/utility/base64.c:96-97 | For no shorter text it does |
| `Base64.DecodedLengthIsExact` | sources/utility/base64.c:99-109 | The length-only call of the decoder returns the number of bytes, with line breaks and without |
| `FileManagement.FileManager.constructor` | sources/model/file_management/file_management.c:67-120 | A fresh object, usable exactly if no argument but the URL callback is missing and no size is 0 |
| `FileManagement.FileManager.ResetState` | sources/model/file_management/file_management.c:620-634 | Clears all but the retry counter, the URL and what was written |
| `FileManagement.FileManager.IsFileValid` | sources/model/file_management/file_management.c:636-660 | The loop feeds the reads of all expected chunks to MD5 and compares |
| `FileManagement.FileManager.CountInvalidPacket` | sources/model/file_management/file_management.c:151-168 | The third invalid packet aborts, each one before repeats the request |
| `FileManagement.FileManager.AcceptPacket` | sources/model/file_management/file_management.c:182-219 | An accepted packet is chained, written, counted, and followed by a request or by the check of the file |
| `FileManagement.FileManager.FinishTransfer` | sources/model/file_management/file_management.c:204-218 | The file is handed over or refused, and the state cleared |
| `FileManagement.FileManager.HandlePacket` | sources/model/file_management/file_management.c:138-219 | The packet handler changes the object as the specification says, in whatever state, and keeps its bounds |
| `FileManagement.FileManager.StartTransfer` | sources/model/file_management/file_management.c:354-378 | An accepted announcement starts a transfer; the previous hash stays |
| `FileManagement.FileManager.HandleParameter` | sources/model/file_management/file_management.c:122-136 | The announcement of a file, with every refusal |
| `FileManagement.FileManager.HandleUrlDownload` | sources/model/file_management/file_management.c:394-432 | The URL command in each state |
| `FileManagement.FileManager.HandleAbort` | sources/model/file_management/file_management.c:496-536 | The abort command in each state |
| `FileManagement.FileManager.Process` | sources/model/file_management/file_management.c:434-494 | The progress of a URL download |
| `FileTransfer.StepKeepsBounds` | sources/model/file_management/file_management.c:138-536 | Every event keeps: the chunk index at most the number expected; in a transfer fewer than three retries, the number that the size asks for, and a chunk to come exactly if one is asked for, which is so of a file that is not empty |
| `FileTransfer.RunKeepsBounds` | sources/model/file_management/file_management.c:138-536 | The same over every interleaving of announcements, packets, aborts, URL commands and process calls |
| `FileTransfer.PacketProgresses` | sources/model/file_management/file_management.c:151-202 | In a transfer a packet that is invalid or accepted ends it or brings chunks-to-come plus retries-left down by exactly one; any other only repeats the request |
| `FileTransfer.TransferIsBounded` | sources/model/file_management/file_management.c:151-202 | In an uninterrupted run the measure falls by exactly the number of packets that count, and stays positive |
| `FileTransfer.TransferEndsInTime` | sources/model/file_management/file_management.c:321-378 | So a transfer sees fewer such packets than chunks plus three before it ends |
| `FileTransfer.TransferStands` | sources/model/file_management/file_management.c:170-202 | In any uninterrupted run the bytes written are the data of the accepted packets in order, the chunk index is their number, and they form a hash chain |
| `FileTransfer.ChainAt` | sources/model/file_management/file_management_packet.c:31-69 | The chain by positions: each packet is valid, and its first 32 bytes are the SHA-256 of the data before it, or the hash the transfer began with |
| `FileTransfer.OnlyTakenPacketsAreWritten` | sources/model/file_management/file_management.c:170-191 | write_chunk is called exactly for the data of a valid packet chained to the hash, whatever the state is |
| `FileTransfer.UnannouncedPacketIsWritten` | sources/model/file_management/file_management.c:138-219 | So a fresh machine writes a packet although nothing was announced, and then refuses the file and is cleared |
| `FileTransfer.OnlyCompletionFinalizes` | sources/model/file_management/file_management.c:195-218 | finalize is called exactly for an accepted last packet that is written and passes the check, in no other step of any kind |
| `FileTransfer.FinalizedChain` | sources/model/file_management/file_management.c:151-219 | A transfer of any announced size that is handed over has written a chain of as many packets as the size asks for, one for an empty file, and what was read back has the announced MD5 |
| `FileTransfer.FinalizedFileIsTheAnnouncedOne` | sources/model/file_management/file_management.c:151-219 | The bytes whose MD5 is the announced one are all that was written if and only if that is at most 1024 bytes for each chunk the size asks for, which of an empty file it never is |
| `FileTransfer.ShortPacketsAreVerified` | sources/model/file_management/file_management.c:151-219 | So a transfer whose packets carry at most 1024 bytes hands over a file that was compared whole if and only if the announced size is not 0 |
| `FileTransfer.AnythingForNothing` | sources/model/file_management/file_management.c:340-372 | An input on which it is not: size 0 and the MD5 of nothing are announced, and any one packet is handed over |
| `FileTransfer.CompletedFileIsRead` | sources/model/file_management/file_management.c:193-204 | The same condition in front of the last packet, from any state: bytes written and bytes in the packet against 1024 times the number of chunks |
| `FileTransfer.OversizedPacketIsHandedOver` | sources/model/file_management/file_management.c:182-218 | In every configuration it can fail: a packet longer than the one asked for is written whole and handed over, and only its first 1024 bytes were compared |
| `FileTransfer.TwoThousandForSixtyFour` | sources/model/file_management/file_management.c:182-218 | An input on which it does: 2000 bytes where 64 are announced |
| `FileTransfer.FedIsWholeFile` | sources/model/file_management/file_management.c:647-650 | With the documented read_chunk, n reads feed the whole file exactly if it has at most 1024 n bytes |
| `FileTransfer.FedIsPrefix` | sources/model/file_management/file_management.h:58-64 | With the documented read_chunk, n reads feed the first 1024 n bytes of the file |
| `FileTransfer.VerificationCoversEveryFile` | sources/model/file_management/file_management.c:636-651 | The reads feed every file that may be announced, if it has its announced size, whole if and only if the packets asked for carry at most 1024 bytes or no file may be longer; chunk sizes up to 1920 are accepted (sources/wolk_connector.c:159) |
| `FileSender.StaleExactly` | sources/model/file_management/file_management.c:138-536 | One event leaves a hash behind outside a transfer exactly if a URL command takes over a transfer that has one, or a packet is taken outside a transfer and asks for more; it removes one exactly if it resets the machine or starts a transfer |
| `FileSender.StaleExactlyWhenSoiled` | sources/model/file_management/file_management.c:138-536 | In every run a machine outside a transfer keeps a hash if and only if an event has left one behind and none since has removed it |
| `FileSender.NextFileIsBegun` | sources/model/file_management/file_management.c:170-172 | In every run that ends idle the first packet of the next file is accepted if and only if that is not so |
| `FileSender.RunWithoutUrlIsClean` | sources/model/file_management/file_management.c:620-634 | In every run without URL commands an idle machine has a cleared hash and no chunk index |
| `FileSender.FirstPacketTaken` | sources/model/file_management/file_management.c:170-172 | The first packet of a transfer is accepted if and only if the idle machine had a cleared hash |
| `FileSender.InterruptionLeavesHash` | sources/model/file_management/file_management.c:394-432 | From a fresh machine such a run exists: a file announced, its first packet accepted, two URL commands; the hash of that packet is left behind |
| `FileSender.UnchainedPacketsChangeNothing` | sources/model/file_management/file_management.c:170-180 | Any number of valid packets that are not chained to the hash only repeat the request |
| `FileSender.StaleMachineTakesNothing` | sources/model/file_management/file_management.c:170-180 | An idle machine with a hash accepts the next file, and then refuses the packet that is asked for however often it is sent |
| `FileSender.NextFileIsNeverReceived` | sources/model/file_management/file_management.c:170-180 | Behind that run the next file is accepted, but however often the packet that is asked for is sent, nothing of it is written |
| `FileSender.WholeFileIsHandedOver` | sources/model/file_management/file_management.c:138-219 | A file sent in order and announced with its own MD5 is handed over if and only if it has at most 1024 bytes a chunk, or its part that is read has the same MD5 |
| `FileSender.SentParts` | sources/model/file_management/file_management_packet.c:26-91 | The packets of an orderly sender are valid and their parts are found again |
| `FileSender.OrderlyTransfer` | sources/model/file_management/file_management.c:138-219 | A file sent in order to a machine with a cleared hash is written byte for byte, and handed over exactly if the part that the check reads has the announced MD5 |
| `FileSender.WaitsAfter` | sources/model/file_management/file_management.c:195-202 | After n packets the machine has written n pieces and waits for the next |
| `FileLog.AnnouncementAsksForTheFirst` | sources/model/file_management/file_management.c:354-378 | An accepted announcement is answered with the status and a request that names the file, index 0, and the chunk size plus 64 |
| `FileLog.EveryPacketIsAnswered` | sources/model/file_management/file_management.c:151-202 | In every uninterrupted run each packet is answered with one request: the announced file, the number of packets taken so far, and the chunk size plus 64; what is written comes in front of it |
| `FileLog.RequestsAreServed` | sources/model/file_management/file_management.c:138-219 | A platform that announces a file and answers each request with the packet of the index it reads there gets the file written byte for byte in as many answers as there are chunks; and everything that is said meanwhile |
| `FileLog.ServedInOrder` | sources/model/file_management/file_management.c:170-202 | On the way the n-th answer is followed by the request for packet n, and nothing else was said |
| `FileLog.SaysTheVerdict` | sources/model/file_management/file_management.c:204-218 | The last packet is followed by the file ready, its finalization and the list, or by the abort and the hash mismatch |
| `FileLog.ThirdInvalidPacketAborts` | sources/model/file_management/file_management.c:151-168 | Two invalid packets repeat the request, the third aborts and ends the transfer |
| `FileLog.FailedWriteEnds` | sources/model/file_management/file_management.c:182-187 | A packet that cannot be written ends the transfer with a file system error |
| `FileLog.PacketsDoNotLookAtTheState` | sources/model/file_management/file_management.c:138-219 | A packet is answered alike in every state; a machine that is not usable only says so |
| `FileLog.RefusedAnnouncements` | sources/model/file_management/file_management.c:321-350 | What each refused announcement is answered with; nothing else changes |
| `FileLog.AbortOfTheFile` | sources/model/file_management/file_management.c:496-536 | An abort whose payload contains the name of the file ends what is going on, and the device is told |
| `FileLog.AbortOfAnotherFile` | sources/model/file_management/file_management.c:496-536 | Any other abort clears the machine all the same, without telling the device |
| `FileLog.ContainsSomewhere` | sources/model/file_management/file_management.c:496-510 | strstr finds a name only where it stands |
| `FileLog.SomewhereContains` | sources/model/file_management/file_management.c:496-510 | And wherever it stands |
| `FileLog.DownloadSaysAll` | sources/model/file_management/file_management.c:394-494 | Everything that is said in a URL download that succeeds, from the command on |
| `FileLog.DownloadsThatFail` | sources/model/file_management/file_management.c:394-494 | And in those that do not: the URL, a missing callback, the start, and the end in two ways |
| `FileDownload.RunKeepsDownloads` | sources/model/file_management/file_management.c:394-494 | In every run a download under way has a URL that fits its buffer, and one whose result is awaited was started |
| `FileDownload.ReadyInStep` | sources/model/file_management/file_management.c:464-488 | The file of a URL is reported ready exactly in a process step that finds the download done and successful |
| `FileDownload.ReadyFileWasDownloaded` | sources/model/file_management/file_management.c:434-494 | In every run a file is reported ready only when its download was started and succeeded; the machine is then idle |
| `FirmwareUpdate.FirmwareUpdater.constructor` | sources/model/firmware_update.c:235-260 | A fresh object over any record, initialized exactly if no callback is missing |
| `FirmwareUpdate.FirmwareUpdater.HandleParameter` | sources/model/firmware_update.c:37-81 | The install command in each state |
| `FirmwareUpdate.FirmwareUpdater.HandleVerification` | sources/model/firmware_update.c:83-102 | The record is read and decides the state |
| `FirmwareUpdate.FirmwareUpdater.HandleAbort` | sources/model/firmware_update.c:104-132 | The abort command; the state stays |
| `FirmwareUpdate.FirmwareUpdater.Process` | sources/model/firmware_update.c:134-177 | The progress of an installation |
| `FirmwareUpdate.FirmwareUpdater.StoreRecord` | sources/model/firmware_update.c:50-53 | A store that fails leaves the record and becomes an error |
| `FirmwareUpdateSpec.StepKeepsConsistent` | sources/model/firmware_update.c:37-177 | Every event, and every loss of power before or behind a store, keeps an installation that is under way on record |
| `FirmwareUpdateSpec.RunKeepsConsistent` | sources/model/firmware_update.c:37-177 | The same over every run |
| `FirmwareUpdateSpec.RestartResumes` | sources/model/firmware_update.c:83-102 | A restart at any point of any run, then the verification, resumes the installation that was under way |
| `FirmwareUpdateSpec.StepCountsSuccess` | sources/model/firmware_update.c:157-166 | The record of an installation is cleared by nothing but a process step from the completed state that has reported success |
| `FirmwareUpdateSpec.EveryClearingWasReported` | sources/model/firmware_update.c:157-166 | Over every run the reports of success are the clearings of the record plus the repetitions: a store that failed, a loss of power before it, or a refused abort that repeats the last status |
| `FirmwareUpdateSpec.LostRecordWasCleared` | sources/model/firmware_update.c:157-166 | A run that begins with the record and ends without it has reported success at least once |
| `FirmwareUpdateSpec.AgreementIsKept` | sources/model/firmware_update.c:37-177 | A step keeps record and state in agreement if and only if it is none of: a start that fails behind its store, a failed installation, a failed store of the end, a restart with the record set |
| `FirmwareUpdateSpec.RestartAndVerifyAgree` | sources/model/firmware_update.c:83-102 | A restart and the verification restore the agreement from any state |
| `FirmwareUpdateSpec.FailedStartIsResumed` | sources/model/firmware_update.c:55-58 | An installation that could not be started is taken for a running one by the next verification |
| `FirmwareUpdateSpec.StartedInstallationOnRecord` | sources/model/firmware_update.c:44-62 | An installation is started only from the idle state, of the file that the command names, also when the record could not be stored |
| `FirmwareUpdateSpec.SuccessfulUpdate` | sources/model/firmware_update.c:37-177 | An update that succeeds, from the command to the report: every status told, the file started, the record in between and at the end |
| `FirmwareUpdateSpec.FailedUpdates` | sources/model/firmware_update.c:50-62 | Those that do not, each with its error: the record, the start, the installation, and the record of the end |
| `FirmwareUpdateSpec.FailureIsTold` | sources/model/firmware_update.c:73-77 | A failure is told once, by the next process step or the next command, and the machine is idle again |
| `FirmwareUpdateSpec.EarlyCommands` | sources/model/firmware_update.c:66-72 | A command during an installation only repeats the status; behind its completion it does nothing |
| `FirmwareUpdateSpec.AbortsAreTold` | sources/model/firmware_update.c:104-132 | An abort asks the device once, tells what came of it, and leaves state and record |

## Left out

- JsmnParser.Parser.Parse: positions are unbounded, so inputs of 2^31 characters and more, whose positions do not fit an int, are not covered.
- JsmnSpec.Run: the strict and parent-link builds are not modelled.
- JsmnGrammar.DocumentParses: says nothing of the texts outside RFC 8259 that the tokenizer also accepts, apart from unquoted words; `JsmnStructure.ParseIsLaminar` and `JsmnLexemes` do.
- JsonText.EveryTextParses: characters are code points here and bytes in the code; a character outside ASCII stands for its UTF-8 bytes, none of which the tokenizer looks at inside a string.
- ParameterJson.RoundTrip: covers names and values that are the inside of a JSON string; the printer escapes nothing, so a bare quote or backslash breaks its text.
- ParameterJson.DeserializeParameters: a token slot that the tokenizer did not write and the decoder reads is an outcome of its own; of a rejected message the parameters copied before are given, but not the part of a name or value that snprintf leaves in the struct that is refused.
- ParameterJson.SerializeParameters: a call that would write behind an array stops there, and the topic is not modelled.
- Sha256Stream.Context.CompressBuffer: the eight working variables are one value that a round replaces at once, and the table of round constants is a parameter.
- Sha256Stream.Context.Done: the digest is returned as a sequence; the state of the context behind the call is not described.
- CircularBuffer.Ring.Add: like the other operations, says nothing of a ring of capacity 0, whose storage has no place to write; byte offsets do not overflow.
- CircularBuffer.Ring.DropFromEnd: for n from the size on, only the resulting marks are described, not the contents.
- Publish.Connector.Publish: the network is a nondeterministic success or failure; MQTT, TLS and sockets are left out.
- Base64.Decode: a read outside the text, also in an empty one, is an outcome of its own; characters outside the alphabet are decoded as the code does.
- FileManagementSpec.Sane: a chunk size of 64 divides the file size by zero; what the number of chunks becomes is then any value, and the results that count chunks exclude it. For smaller chunk sizes the difference wraps around 64 bits; a 32-bit size_t is not modelled.
- FileManagementSpec.Chunks: the number of chunks is an exact quotient rounded up; the double arithmetic of WOLK_CEIL rounds for sizes from 2^53 on.
- FileManagement.FileManager.IsFileValid: MD5 is applied to all the bytes fed, and the comparison of its hexadecimal text is a comparison of values.
- FileManagement.FileManager.AcceptPacket: what a failed write_chunk leaves in the file is not modelled; the transfer ends.
- FileManagement.FileManager.HandleAbort: the payload is the text up to its first NUL.
- FirmwareUpdate.FirmwareUpdater.HandleParameter: the branch for a missing start callback cannot be reached through the public functions and is left out.
- FirmwareUpdate.FirmwareUpdater.StoreRecord: a store that fails is taken to leave the record as it was.
- Listeners that are not set, null pointers and the clearing of unused fields are not modelled.
- The file list, delete and purge commands call the device back for each file and report the list; they are not modelled.
- The other serializers and deserializers, parser.c, topic strings, getters, setters, keep-alive and the dispatch of incoming messages are not modelled.
- MD5 itself, real file systems and the examples are not part of this model.
