# A verified model of the CoD4X server's text, message, file and timer logic

The server keeps a handful of self-contained algorithms in plain C over buffers, arrays and linked lists. This project
models them in Dafny and proves what they are for. Each imperative piece is a method or a class with the source's own
fields and loops, proved equal to a specification function; the theorems are then about those functions.

| file | source | contents |
|---|---|---|
| `Huffman.dfy` | `src/huffman.c` | bit cursor, recursive encoder, tree-walking decoder, for any well-formed code tree |
| `Message.dfy` | `src/msg.c` | the message stream: whole bytes and single bits interleaved in one buffer |
| `HuffmanWire.dfy`, `MessageWire.dfy` | `src/huffman.c`, `src/msg.c` | what coder and stream put on the wire, and what a reader meets at the end |
| `Base64.dfy` | `src/msg.c` | the Base64 writer and reader against RFC 4648, section 4 |
| `Md5.dfy` | `dis/md5.c` | MD5 streaming over an arbitrary block function, against RFC 1321, sections 3.1 and 3.2 |
| `CommandBuffer.dfy` | `src/cmd.c` | the console command buffer and its line splitter |
| `Tokenizer.dfy` | `src/cmd.c` | the tokenizer and its stack of tokenised strings in one shared buffer |
| `Cvars.dfy` | `src/cvar.c` | the registry of boolean, integer and string variables, with its list and its hash index |
| `CvarLife.dfy` | `src/cvar.c` | what flags, limits and registration mean over a run of calls |
| `Config.dfy` | `src/cvar.c`, `src/cmd.c` | saving the registry and loading it through the command buffer and the tokenizer |
| `ConfigLimit.dfy` | `src/cvar.c`, `src/cmd.c` | the exact length up to which a variable survives that |
| `LostValues.dfy` | `src/cvar.c`, `src/cmd.c` | the same bound when only the values count |
| `OtherCommands.dfy` | `src/cmd.c`, `src/cvar.c` | loading a text in which other commands run as well |
| `BroughtBack.dfy` | `src/cvar.c`, `src/cmd.c` | registries of which values come back although their lines are cut |
| `Filter.dfy` | `src/common.c` | the wildcard matcher |
| `TimedEvents.dfy` | `src/common.c` | the timed events |
| `Paths.dfy`, `PackIndex.dfy` | `src/filesystem.c` | path comparison, and the hash index over the entries of a pack |
| `IwdSort.dfy` | `src/filesystem.c` | the order in which packs are loaded |
| `SearchPath.dfy` | `src/filesystem.c` | the linked search list and which entry a file resolves to |
| `SearchOrder.dfy` | `src/filesystem.c` | which file an open gives, told through contents and through the names of the packs |
| `Checksum.dfy`, `CrcPolynomial.dfy` | `src/filesystem.c` | the keyed CRC, as a loop, by table, and as the remainder of a division of polynomials |
| `PureIwds.dfy` | `src/filesystem.c` | the list of packs a pure server allows |
| `KnownAnswers.dfy` | | the values that the standards themselves give |
| `NumberText.dfy` | `src/qshared.c` | which texts count as integers |
| `Bits.dfy`, `CString.dfy`, `Common.dfy` | | bits of bytes; C string comparison and number parsing; small shared definitions |

Where other code of the server takes part, it is a parameter. The commands that `Cbuf_Execute` runs and the handlers
that `Com_TimedEventLoop` calls are finite scripts of what they add, step by step; the memory behind the last input byte
of a Huffman read is an arbitrary function; the clock is an argument.

Some facts of the code that the theorems bring out:

- An empty input to `MSG_WriteBase64` overwrites the last three bytes already in the message (`Base64.WriteAppendsEncoding`).
- Text inserted into the command buffer runs on into what follows if it leaves a star comment open
  (`CommandBuffer.OnlyClosedTextFirst`); text longer than a line may do so without harm (`CommandBuffer.OpenYetFirst`).
- A file whose name has a colon can be missed by the pack index although the comparison accepts it
  (`PackIndex.ColonMisses`); `PackIndex.AgreesIff` says exactly when.
- Repetitions among the requested packs can pass for a list that is not loaded (`PureIwds.ExitMeansSameIff`).
- A nested `Cmd_TokenizeString` ends in a fatal error if no outer string ever had a token
  (`Tokenizer.CmdTokenizer.TokenizeString`).
- `Com_Filter` decides about the whole name, for all names, exactly if the pattern ends with a star
  (`Filter.WholeNameIff`).
- A registry comes back as it was only if every saved line has at most 1024 characters (`ConfigLimit.SurvivesIff`).
  The value of one variable that was cut, though not its reset value, can come back through what is left of another
  long line (`BroughtBack.SomeCutComesBack`); those of all never do, as long as only `set`, `seta` and variable names
  run (`LostValues.ValuesReturnIff`), but can with `setfromcvar` and `vstr` (`BroughtBack.SomeBroughtBack`).
- As long as only those run, no text loads a variable of more than 1022 characters together
  with its name (`ConfigLimit.NoTextLoads`); `setfromcvar` does (`OtherCommands.SetFromLoadsLonger`).
- A change of a latched variable that waits cannot be taken back by setting the current value again
  (`CvarLife.LatchCannotBeUndone`).
- A sign counts as part of an integer anywhere among its digits (`NumberText.IntegerIff`).
- A saved value is lost when the program registers its variable as read-only, or as a cheat while cheating is off
  (`Config.RestartRegains`).
- The closing `memset` of `MD5Final` clears the size of a pointer, not the context; the model follows the code.
- The comment over `FS_PureServerSetLoadedIwds` speaks of which files are searched; the code only keeps the list.

## Model

| member | source | states |
|---|---|---|
| `Config.SaveThenLoad` | src/cvar.c:1774-1806 | From an empty registry, inserting and executing the saved text recreates exactly the archived variables: their names, their values as text, archived, in the order saved. Names without blanks, quotes or comment marks, values without quote or newline, lines of at most 1024 characters. |
| `Config.LoadedLookup` | src/cvar.c:1774-1806 | After saving and loading, a name is found exactly if it named an archived variable before, and then with that variable's own spelling and text. |
| `Config.RestartRegains` | src/cvar.c:555-752 | When the program registers a saved variable again with its type, it has its old value back: booleans and strings as they were, an integer if it lies in the limits, else zero. A registration as read-only, or as a cheat while cheating is off, gives the default instead. The new default becomes the reset value. |
| `Config.LineCarriesValueIff` | src/cmd.c:217-302 | The line handed out for a saved variable carries its whole value if and only if the saved line has at most 1024 characters: at 1024 only the closing quote is lost, beyond that the end of the value. |
| `ConfigLimit.SurvivesIff` | src/cvar.c:1774-1806 | For every registry, saving it and loading it into an empty one recreates exactly the archived variables (names, values, reset values, flags and order) if and only if each of their saved lines has at most 1024 characters. Names that are plain tokens and values without quote or newline, of any length. Other commands may run in between and do what they like, as long as they leave the variables there are their places, names and reset values and the first line that is cut reaches into its value; or none runs. |
| `ConfigLimit.NoTextLoads` | src/cmd.c:217-302 | From an empty registry no text whose lines begin with no command but `set`, `seta` and variable names loads a variable whose name and value have more than 1022 characters together, or whose name and reset value have more than 1018. |
| `ConfigLimit.TooLongHere` | src/cvar.c:1774-1806 | If no line handed out begins with another command, and no saved line has more than 1030 characters or leaves a comment mark behind when it is cut, a variable with more than 1024 has its value in no place, neither as current, latched nor reset value: no cut line and nothing that is left of one can give it. |
| `LostValues.ValuesReturnIff` | src/cvar.c:1774-1806 | If no line handed out begins with another command: saving any registry and loading it gives every archived variable its value back, whatever its reset value, if and only if each saved line has at most 1024 characters. |
| `LostValues.ValueLost` | src/cvar.c:1774-1806 | Under the same condition, with a longer line some archived variable has not got its value back: of any registry, whatever comments the cut lines leave open, and whatever variables the rest of them sets. |
| `LostValues.HitsWithin` | src/cmd.c:684-799 | Wherever a line of at most 1023 characters begins in the saved text, if it sets a long value of more than one word, 1018 of its characters lie in one saved line, which is that variable's own or another long one of more than one word. |
| `LostValues.HitsBefore` | src/cmd.c:684-799 | If a line that runs on behind the end of a saved line sets such a value, so does the part in front of the newline. |
| `LostValues.TokensOn` | src/cmd.c:684-799 | The tokens of a text that ends with a quote, alone and with a newline and more behind it: the same, or the last takes in the newline, or the next is plain and a character is wasted, or six are. |
| `LostValues.UntidyMisses` | src/cmd.c:217-302 | The first saved line that leaves a comment mark behind is handed out from its beginning, cut off, and sets no long value. |
| `LostValues.SomeMissed` | src/cmd.c:217-302 | If one leaves a comment mark behind, the lines that set long values are too few: no line sets some variable to its value. |
| `BroughtBack.ValueComesBack` | src/cvar.c:1602-1626 | A `set` line of at most 1023 characters, which what is left of a longer saved line can be, gives a variable that was cut its value back, but not its reset value. |
| `BroughtBack.CutComesBack` | src/cvar.c:1774-1806 | Of two saved variables the newer is cut and the older one's line, cut as well, goes on with a `set` command for the newer: after loading, the newer one has its whole value back. |
| `BroughtBack.SomeCutComesBack` | src/cvar.c:1774-1806 | There is such a registry, with a line of 1025 characters. |
| `BroughtBack.OthersBringBack` | src/cmd.c:440-452 | Three saved variables: the rest of a cut line calls `vstr` on one whose value is a `setfromcvar` that copies the second's value to the one that was cut. With what these two commands do, all three have their values back. |
| `BroughtBack.SomeBroughtBack` | src/cvar.c:1637-1662 | There is such a registry, with a line of 1032 characters: without its condition on other commands `ValueLost` would be false. |
| `OtherCommands.SetFromLoadsLonger` | src/cvar.c:1637-1662 | With `setfromcvar` a text of a saved line and one more line loads a variable that has the whole value under a name of almost any length, reset value included. |
| `OtherCommands.QuietLoad` | src/cmd.c:217-302 | A text in which no line begins with another command is loaded alike whatever other commands there are. |
| `OtherCommands.FitsStep` | src/cmd.c:217-302 | A saved line of at most 1024 characters gives its variable before any other command runs. |
| `OtherCommands.CutStep` | src/cmd.c:217-302 | A saved line that is cut inside its value leaves a wrong reset value, which no command mends that leaves reset values alone. |
| `ConfigLimit.TokensShort` | src/cmd.c:684-799 | The tokens of any text, with one character between them, are not longer than the text. |
| `Config.TakeCommand` | src/cmd.c:217-302 | A saved line that fits the line buffer is handed out whole by the command buffer, whatever follows it. |
| `Config.CommandTokens` | src/cmd.c:684-799 | The tokens of a saved line are the command, the name and the whole value. |
| `Config.ExecuteCommand` | src/cvar.c:1737-1751 | Executing a saved line whose name is new adds one archived string variable and changes nothing else. |
| `Config.LoadLines` | src/cmd.c:217-302 | The same for any registry that has none of the archived names: the loaded variables are appended to it. |
| `Huffman.RoundTrip` | src/huffman.c:378-412 | For every well-formed tree and every byte string, decoding the encoded bits padded to bytes gives the input cut off by the room, or the input followed by at most as many bytes as there are pad bits, hence at most 7; exactly the input (with room to spare) if and only if there are no pad bits. The memory behind the input is arbitrary. |
| `HuffmanWire.BalancedWord` | src/huffman.c:78-89 | In the balanced tree the code word of a byte is its eight bits, the highest first: right for a one. |
| `HuffmanWire.BufferBit` | src/huffman.c:35-49 | Bit i of a buffer is bit i modulo 8, counted from the lowest, of byte i divided by 8. |
| `HuffmanWire.MissingLinkFills` | src/huffman.c:53-73 | A walk that meets a missing link reads as zero and moves nowhere, so the reader fills its room with zeros. |
| `Huffman.DecodeEncode` | src/huffman.c:378-397 | The same for any bit position and any limit of the reader. |
| `Huffman.SurplusBound` | src/huffman.c:378-397 | The reader delivers at most one byte for each bit it has left, whatever the bits are. |
| `Huffman.WalkFollowsCode` | src/huffman.c:53-73 | Walking down from the root along the code word of a node, which the writer finds by climbing parents, arrives at that node. |
| `Huffman.ReceiveWord` | src/huffman.c:53-73 | Reading a code word delivers its byte and uses exactly the word. |
| `Huffman.Coder.AddBit` | src/huffman.c:35-41 | Appends one bit to the bits written and keeps the rest of the current byte clear. |
| `Huffman.Coder.GetBit` | src/huffman.c:44-49 | Delivers the bit at the cursor and moves on by one. |
| `Huffman.Coder.Send` | src/huffman.c:78-89 | The recursive climb appends the code word of the node, and the turn to the child it came from. |
| `Huffman.Coder.OffsetTransmit` | src/huffman.c:91-95 | Appends the code word of a byte at an offset. |
| `Huffman.Coder.OffsetReceive` | src/huffman.c:53-73 | Delivers the symbol that the walk from the root finds, and the offset behind it. |
| `Huffman.Coder.WriteBitsCompress` | src/huffman.c:399-412 | The output holds the code of the whole input, in as few bytes as hold it. |
| `Huffman.Coder.ReadBitsCompress` | src/huffman.c:378-397 | The output is what the specification decodes with the given room; the rest of the output buffer stays as it was. |
| `Message.RoundTrip` | src/msg.c:140-410 | Any mixed sequence of byte, short, long, data and bit writes (up to 32 bits each) is returned value for value, truncated to its width, by the same sequence of reads, and the reader ends where the writer did, in bytes and in bits. |
| `Message.ReadBackAll` | src/msg.c:372-551 | The same from any reachable state of the stream, with anything written behind. |
| `Message.ReadBack` | src/msg.c:372-551 | The same for one item: its bytes or bits are not disturbed by later writes, also when the bit byte lies behind later whole bytes. |
| `Message.GrownPutBits` | src/msg.c:291-321 | The bits of a value come back as the value modulo the power of two of their number. |
| `Message.UsedBitsIsTotalSize` | src/msg.c:502-506 | The used bit count grows by 8 for each byte and 1 for each bit written. |
| `Message.Msg.GetUsedBitCount` | src/msg.c:502-506 | The count computed from the fields is the number of bits in use, for a message without a split-off part. |
| `Message.WriteItems` | src/msg.c:140-321 | Any mix of writes that does not overflow leaves the specified message, and the used bit count has grown by 8 for each byte and 1 for each bit. |
| `Message.ReadItems` | src/msg.c:372-551 | Any mix of reads delivers the specified values and moves the counters as specified. |
| `Message.Exchange` | src/msg.c:116-551 | A message written from its start and read from its start: unless it overflowed, every value comes back cut to its width, the reader ends with the writer's counters, and the used bit count is the size of what was written. |
| `MessageWire.LowByteFirst` | src/msg.c:157-183 | Shorts and longs stand in the message with their low byte first. |
| `MessageWire.EightBitsAreAByte` | src/msg.c:291-321 | Eight bits from a byte boundary on are the byte that a byte write puts there. |
| `MessageWire.BitsAreALong` | src/msg.c:291-321 | Thirty-two bits from a byte boundary on are the bytes of a long write. |
| `MessageWire.WordsAre` | src/msg.c:385-410 | A short or long is the one value of its range that differs by a multiple of 2 to the 16 or 32. |
| `MessageWire.ByteOrEnd` | src/msg.c:372-383 | A byte read gives -1 exactly at the end, where it stays; else a number from 0 to 255, and moves on. |
| `MessageWire.WordOrEnd` | src/msg.c:385-410 | A short or a long of which a byte is missing gives -1 and the reader stays. |
| `MessageWire.RunBehindEnd` | src/msg.c:489-495 | Every byte of a run behind the end reads as 255. |
| `MessageWire.BitsAtEnd` | src/msg.c:512-551 | A reader at the end of what was written gets zeros for the bits left in the started byte, and -1 exactly if it asks for more. |
| `Message.Msg.WriteByte` | src/msg.c:140-154 | Writes the low byte, or, without room, nothing but the overflow mark. |
| `Message.Msg.WriteShort` | src/msg.c:157-171 | The same for a 16-bit word, low byte first. |
| `Message.Msg.WriteLong` | src/msg.c:173-183 | The same for a 32-bit word. |
| `Message.Msg.WriteData` | src/msg.c:197-202 | Writes bytes as long as there is room, and marks an overflow if some are left. |
| `Message.Msg.WriteBit0` | src/msg.c:257-271 | Appends a zero bit, opening a new byte when the current one is full; without room nothing but the mark. |
| `Message.Msg.WriteBit1` | src/msg.c:273-288 | The same for a one bit. |
| `Message.Msg.WriteBits` | src/msg.c:291-321 | Appends the low bits, lowest first, if four bytes are free, else nothing but the mark. |
| `Message.Msg.BeginReading` | src/msg.c:116-120 | Puts the reader at the start and leaves the bytes alone. |
| `Message.Msg.ReadByte` | src/msg.c:372-383 | Delivers the next byte, or -1 behind the end. |
| `Message.Msg.ReadShort` | src/msg.c:385-396 | Delivers the next word with its sign, or -1. |
| `Message.Msg.ReadLong` | src/msg.c:398-410 | Delivers the next long with its sign, or -1. |
| `Message.Msg.ReadData` | src/msg.c:489-495 | Delivers the next bytes one by one and leaves the rest of the buffer alone. |
| `Message.Msg.ReadBits` | src/msg.c:512-551 | Delivers the next bits, lowest first; past the end it marks an overflow and delivers -1. |
| `Base64.EncodingIsBlocks` | src/msg.c:325-362 | The encoding of RFC 4648, section 4, defined on the bit string in groups of six, is what encoding block by block gives, for every input. |
| `KnownAnswers.AlphabetIs` | src/msg.c:325-362 | The alphabet is A to Z, a to z, 0 to 9, +, /, and the pad is =. |
| `KnownAnswers.OnlyLetters` | src/msg.c:556-603 | The reader knows the 64 letters and nothing else. |
| `KnownAnswers.LongVector` | src/msg.c:325-362 | The encoding of foobar is Zm9vYmFy, as section 10 of RFC 4648 has it. |
| `Base64.WriteAppendsEncoding` | src/msg.c:325-362 | With room, the writer appends exactly the encoding of RFC 4648 if and only if the input is not empty or the message has nothing that the three padding bytes overwrite. |
| `Base64.WriteBase64` | src/msg.c:325-362 | The loop over blocks and the overwriting of the tail leave the message the specification says, also when the message is full. |
| `Base64.ReadBack` | src/msg.c:556-603 | Reading an encoding stores the input as a prefix if and only if it fits one block or the buffer is longer than three bytes for each block and one more. |
| `Base64.StaysInside` | src/msg.c:556-603 | With its terminating zero the reader writes inside `len` bytes if and only if `len` is at least 4, for any message. |
| `Base64.ReadBase64` | src/msg.c:556-603 | The loop stores what the specification reads, ends it with a zero, and touches nothing behind it. |
| `Base64.QuadBack` | src/msg.c:556-603 | The letters of a padded block read back as its packed bytes, and only a full block lets the reader go on. |
| `Md5.DigestOfChunks` | dis/md5.c:166-257 | However a message is cut into updates, the digest is the block function folded over the whole message padded as in RFC 1321, sections 3.1 and 3.2. |
| `Md5.Context.constructor` | dis/md5.c:51-60 | A new context has seen the empty message. |
| `Md5.Context.Update` | dis/md5.c:166-209 | The context has then seen the message so far followed by the data; the chaining value, the two-word bit counter and the buffer stay those of that message. |
| `Md5.Context.Final` | dis/md5.c:216-257 | Delivers the digest of all that was seen; afterwards only the first word of the state is cleared. |
| `Md5.CountStep` | dis/md5.c:166-180 | Adding a length with a carry between 32-bit words keeps the count of bits modulo 2 to the 64. |
| `Md5.LengthWords` | dis/md5.c:216-257 | The two counter words, stored low byte first, are the 64-bit length the standard appends. |
| `Md5.PaddingLength` | dis/md5.c:216-257 | The padded message is a whole number of blocks. |
| `KnownAnswers.Md5FirstState` | dis/md5.c:51-60 | The first state is the one that section 3.3 of RFC 1321 gives by its bytes. |
| `KnownAnswers.Md5PaddedAbc` | dis/md5.c:216-257 | The padding of abc, byte by byte. |
| `KnownAnswers.Md5Blocks` | dis/md5.c:216-257 | A message of up to 55 bytes is one block with its padding, one of up to 119 two, taken in order. |
| `CommandBuffer.Cbuf.Execute` | src/cmd.c:217-302 | The buffer hands out the lines, keeps the text and counts the waits that the specification says, for any finite script of what the commands add; it ends. |
| `CommandBuffer.QuietRun` | src/cmd.c:217-302 | If commands add nothing, exactly the lines of the splitter are handed out and the buffer is empty. |
| `CommandBuffer.SplitRebuilds` | src/cmd.c:217-302 | For every buffer, each line followed by the one byte removed behind it rebuilds the text; only the line that ends the buffer may lack one. |
| `CommandBuffer.ScanStopsAtSeparator` | src/cmd.c:217-302 | A scan that ends inside the text ends at a newline, a semicolon, or the slash of a closing comment mark. |
| `CommandBuffer.ScanEndsIff` | src/cmd.c:217-302 | For every text, with or without a comment open at its start: the line ends at a place, and leaves a star or slash comment open, if and only if it does so by the rules told without a scan. The rules: quotes in pairs; outside them and comments a semicolon or a newline; behind `//` the first newline; behind `/*` the slash of the first `*/` outside quotes. |
| `CommandBuffer.SlashCommentLine` | src/cmd.c:217-302 | Behind `//` everything up to the newline belongs to the line: semicolons, quotes, comment marks. |
| `CommandBuffer.SlashCommentGoesOn` | src/cmd.c:217-302 | A slash comment left open goes on to the first newline, and not beyond. |
| `CommandBuffer.SlashCommentStays` | src/cmd.c:217-302 | A buffer that ends in a slash comment leaves it open. |
| `CommandBuffer.WaitHolds` | src/cmd.c:217-302 | A wait of n holds all text back for n frames; in the frame after, all of it runs. |
| `CommandBuffer.ClosedTextFirst` | src/cmd.c:125-173 | Text that ends its line and leaves no star comment open is split on its own before all that follows. |
| `CommandBuffer.OnlyClosedTextFirst` | src/cmd.c:125-173 | For text shorter than a line, in front of other text, that happens if and only if no star comment is left open. |
| `CommandBuffer.OpenYetFirst` | src/cmd.c:217-302 | For longer text being closed is not necessary: a text is given that leaves a comment open where it is cut, and is still split on its own before all that follows. |
| `CommandBuffer.InsertedTextFirst` | src/cmd.c:125-173 | The lines of text that a command inserts, and of all that those lines insert in turn, to any depth, run directly behind it and before all text that waited, whatever else is added or waited for meanwhile, provided none of it leaves a star comment open. |
| `CommandBuffer.NestedTextFirst` | src/cmd.c:217-302 | For any script of commands: text in front that is closed to any depth runs to its end as if nothing stood behind it; then the rest of the buffer runs, followed by what was added. |
| `CommandBuffer.EditedAround` | src/cmd.c:80-173 | In whatever order a command adds, inserts and waits, insertions gather in front of the waiting text and additions behind it. |
| `CommandBuffer.QuietFront` | src/cmd.c:217-302 | If commands leave the buffer alone, being closed to any depth is being closed, and the lines are the splitter's. |
| `CommandBuffer.OpenCommentSwallows` | src/cmd.c:217-302 | An inserted text that opens a star comment takes the command behind it into its own line. |
| `CommandBuffer.Cbuf.AddText` | src/cmd.c:80-115 | Appends the text, growing the buffer when needed. |
| `CommandBuffer.Cbuf.InsertText` | src/cmd.c:125-173 | Puts the text and a newline in front, growing the buffer when needed. |
| `CommandBuffer.Cbuf.FindLineEnd` | src/cmd.c:217-302 | The scanning loop finds the end of line and the comment flags of the specification. |
| `CommandBuffer.Cbuf.TakeLine` | src/cmd.c:217-302 | Takes out the first line, cut off at 1023 characters, and the byte behind it. |
| `Tokenizer.TokensOfJoin` | src/cmd.c:633-646 | For text without quotes, tokenising the tokens joined by blanks gives the same tokens again, within any limits on their number and size. |
| `Tokenizer.JoinSurvives` | src/cmd.c:633-646 | Any list of arguments that fits survives being joined and tokenised if and only if each is a plain token. |
| `Tokenizer.JoinQuotedThenTokens` | src/cmd.c:684-799 | Any list of arguments without quote characters that fits is what tokenising it quoted and separated by blanks gives. |
| `Tokenizer.NestedGives` | src/cmd.c:807-843 | A string tokenised inside others gives the tokens it would give alone, as long as all of them together fit. |
| `Tokenizer.TokensFit` | src/cmd.c:684-799 | The tokens of any text stay within the slots and the buffer. |
| `Tokenizer.SlashCommentEnds` | src/cmd.c:684-799 | `//` ends a token and all tokens. |
| `Tokenizer.StarCommentIsNothing` | src/cmd.c:684-799 | A star comment up to its first closing mark is as if it were not there, and ends a token. |
| `Tokenizer.OpenStarComment` | src/cmd.c:684-799 | One that is never closed takes in the rest. |
| `Tokenizer.TokensArePlain` | src/cmd.c:684-799 | Tokens of text without quotes are not empty and hold no blank, quote or comment mark. |
| `Tokenizer.TokensHaveNoQuote` | src/cmd.c:684-799 | No token of any text holds a quote. |
| `Tokenizer.TokenizeInternal` | src/cmd.c:684-799 | The scanning loop appends exactly the tokens of the specification to the argument vector and the buffer, behind those of the outer strings, which stay as they are. |
| `Tokenizer.CmdTokenizer.TokenizeString` | src/cmd.c:807-843 | Pushes the tokens of the text on the stack of strings; it is a fatal error if and only if it is nested and no string had a token yet. Behind depth 32 only the depth is counted. |
| `Tokenizer.CmdTokenizer.EndTokenizedString` | src/cmd.c:657-670 | Takes the top string off; the outer ones' arguments and the free position are as before it. It is a fatal error if and only if there is none. |
| `Tokenizer.BalancedRunRestores` | src/cmd.c:657-843 | For the stack with its 32 kept strings: a balanced run of any depth that ends without a fatal error restores the strings in use and the depth, and it ends so if it is known where the free space starts, which holds once an outer string has a token. |
| `Tokenizer.CmdTokenizer.PerformBalanced` | src/cmd.c:657-843 | For the tokenizer itself: any balanced run of calls, nested to any depth in any strings, leaves the strings, the count of arguments, each entry of the argument vector, the text of the tokens and the free position as they were, or ends in the fatal error exactly if a string is nested before an outer one has a token; never if there is an argument. |
| `Tokenizer.BalancedFailsIff` | src/cmd.c:807-843 | A balanced run is fatal if and only if the free position is unknown and it nests a string below depth 32 before an outer one has a token. |
| `Tokenizer.CmdTokenizer.PerformAll` | src/cmd.c:657-843 | Any run of calls leaves the stack, and ends in a fatal error, as specified call by call; the count of arguments is always the sum over the strings kept. |
| `Tokenizer.CmdTokenizer.Argc` | src/cmd.c:550-556 | The number of tokens of the top string. |
| `Tokenizer.CmdTokenizer.Argv` | src/cmd.c:564-583 | A token of the top string, or the empty string. |
| `Tokenizer.CmdTokenizer.Argsv` | src/cmd.c:633-646 | The tokens from one on joined by blanks, cut to the buffer. |
| `Cvars.Registry.FindVar` | src/cvar.c:140-153 | The walk through one bucket finds the same variable as a scan of the whole list, for every name. |
| `Cvars.FindInBucket` | src/cvar.c:98-153 | Because names equal up to case share a bucket, skipping to the next variable of the bucket skips none that could be found. |
| `Cvars.FoldHash` | src/cvar.c:98-112 | Names equal up to case have one hash value. |
| `Cvars.RunKeepsSound` | src/cvar.c:555-1068 | Over any run of registrations, re-registrations, sets and flag changes names stay unique up to case and values stay of their variable's type. |
| `Cvars.CallKeepsSound` | src/cvar.c:555-1068 | Each single call keeps that. |
| `CvarLife.LatchedWaits` | src/cvar.c:761-937 | In any run of sets by the user a latched variable keeps its current value; its latched value becomes the last one asked for that is in the limits and is not the current one. |
| `CvarLife.LatchTakesEffect` | src/cvar.c:555-752 | When the program registers it again with its type, after any such run, that value becomes current, the default is the reset value, and no other variable changes. |
| `CvarLife.ProtectedStays` | src/cvar.c:761-937 | In any run of sets by the user a read-only or write-protected variable, and a cheat while cheats are off, does not change at all. |
| `CvarLife.FreeFollows` | src/cvar.c:761-937 | A variable without those flags has the last value asked for that is in its limits, current and latched; a string up to case. |
| `CvarLife.ForcedCounts` | src/cvar.c:761-937 | A forced set heeds no flag. |
| `CvarLife.LimitsKept` | src/cvar.c:761-937 | An integer in its limits stays there over any run of sets, forced or not. |
| `CvarLife.LatchCannotBeUndone` | src/cvar.c:761-937 | What waits cannot be taken back by asking for the current value. |
| `CvarLife.SetAt` | src/cvar.c:947-1065 | A set changes at most the variable it names. |
| `CvarLife.RegisterFatalIff` | src/cvar.c:555-752 | A registration is a fatal error exactly for a bad name, a value out of its limits, a full registry, or another type than the program gave the variable before; then nothing changes. |
| `CvarLife.RegisterAdds` | src/cvar.c:555-752 | A new variable has the value as current, latched and reset value, and all others stay. |
| `CvarLife.RegisterReplaces` | src/cvar.c:555-752 | A registration that overrides a user's variable forgets its value and flags. |
| `CvarLife.ReregisterTakes` | src/cvar.c:555-752 | Registering a variable again takes over limits, reset value and flags, and the latched value as current one if it is in the new limits. |
| `CvarLife.NothingMeant` | src/cvar.c:555-752 | A user's text that means nothing in the type the program registers counts as zero. |
| `CvarLife.BoolTexts` | src/cvar.c:947-1065 | A boolean takes the low byte of a number, or the words true and false in any case, and nothing else. |
| `CvarLife.WaitingIsSaved` | src/cvar.c:1774-1806 | What waits is saved, not the current value, unless it is empty. |
| `CvarLife.SavedFits` | src/cvar.c:1774-1806 | A line is saved exactly if it and its end fit a buffer of 8192 characters. |
| `CvarLife.NamedLineSets` | src/cvar.c:1537-1575 | A line that begins with the name of a variable sets it to the next word, whatever follows; alone it sets nothing. |
| `CvarLife.CombineJoins` | src/cvar.c:1602-1626 | The words of a set command are joined by blanks. |
| `Cvars.Registry.Register` | src/cvar.c:555-752 | Registers or re-registers as specified, with the list and the buckets kept linked; on a fatal error nothing has changed. |
| `Cvars.Registry.Reregister` | src/cvar.c:571-660 | Re-registration in place: reset value, limits, flags and type change, and the latched value is taken again. |
| `Cvars.Registry.SetVariant` | src/cvar.c:761-939 | Protected variables, equal values and integers out of range are left alone; a latched variable takes the value only as its latched one. |
| `Cvars.Registry.Set2` | src/cvar.c:947-1068 | Sets a variable from text by its type, creating a string variable for a new name and ignoring invalid names and texts. |
| `Cvars.Registry.SetF` | src/cvar.c:1602-1626 | Sets a variable to the remaining arguments joined by blanks. |
| `Cvars.Registry.SetAF` | src/cvar.c:1737-1751 | The same, and marks the variable as archived. |
| `Cvars.Registry.WriteVariables` | src/cvar.c:1774-1806 | Writes one command for each archived variable that fits the line, newest first. |
| `Cvars.Registry.HashValue` | src/cvar.c:98-112 | The loop computes the hash the index is built on. |
| `CString.DecRoundTrip` | src/qshared.c:1612-1644 | Every C int printed in decimal passes for an integer and is read back as itself. |
| `NumberText.IntegerIff` | src/qshared.c:1612-1644 | A text counts as an integer exactly if behind leading blanks there are only digits and at most one sign, anywhere among them, up to its end, a blank or the end of the line. |
| `NumberText.AtoiReads` | src/qshared.c:1612-1644 | White space, a sign, a number and anything that is no digit behind it are read as that number, or as the nearest int. |
| `Filter.ComFilter` | src/common.c:1201-1287 | On patterns of ordinary characters and stars (and brackets behind a star, which are ordinary there) the greedy matcher, which never goes back, is true exactly if some prefix of the name matches the pattern as declared. |
| `Filter.LiteralMatches` | src/common.c:1201-1287 | Without stars a pattern matches one text, or all that differ from it in case only, as asked for. |
| `Filter.FirstPlaceServes` | src/common.c:1170-1287 | Behind a star, a run of characters followed by nothing or another star may be taken where it first lies: nothing is lost against any later place. |
| `Filter.NoPlaceFails` | src/common.c:1201-1287 | If the run lies nowhere, nothing matches. |
| `Filter.StringContains` | src/common.c:1170-1191 | The first place where the text lies, or none. |
| `Filter.TrailingStar` | src/common.c:1201-1287 | With a star at its end a pattern matches a prefix of a name exactly if it matches the whole name. |
| `Filter.WholeNameIff` | src/common.c:1201-1287 | The matcher decides, for all names, whether the whole name matches if and only if the pattern ends with a star. |
| `Filter.OpenEnd` | src/common.c:1201-1287 | For any other pattern, a name it accepts although the whole name does not match: what it matches with its stars empty, and one more character. |
| `TimedEvents.FiredInOrder` | src/common.c:399-423 | From an ordered buffer, if handlers add only later events, exactly the events due are fired, in non-decreasing trigger time and of equal ones the last added first. |
| `TimedEvents.OneEventFires` | src/common.c:178-423 | An event fires once its delay has passed, and not before. |
| `TimedEvents.HistoryFiresInOrder` | src/common.c:178-423 | The same after any history of additions and loops that began with an empty buffer, whatever the handlers of the earlier loops added. |
| `TimedEvents.HistoryOrdered` | src/common.c:178-423 | Over any history of additions and loops the buffer stays ordered by descending trigger time, of equal ones the last added nearest the end. |
| `TimedEvents.RunKeepsOrdered` | src/common.c:399-423 | A loop keeps that order, also with what its handlers add. |
| `TimedEvents.Timer.Perform` | src/common.c:178-423 | The timer follows any such history and fires what it says. |
| `TimedEvents.RunFiresExactlyDue` | src/common.c:399-423 | The events fired are the due part of the buffer, from its end on, whatever the handlers add for later and even if the buffer is full. |
| `TimedEvents.RunConservesIff` | src/common.c:178-423 | In a loop each event is fired once or still waits, those that handlers add included, if and only if the buffer has room at each addition; whatever the handlers add. |
| `TimedEvents.HistoryConservesIff` | src/common.c:178-423 | Over any history of additions and loops, however long, the events fired and those that still wait are exactly the events added, those of handlers included, if and only if the buffer had room at each addition. |
| `TimedEvents.TicksFit` | src/common.c:178-423 | A history that adds and fires one event over and over has room however long it is. |
| `TimedEvents.RunFiresDue` | src/common.c:399-423 | Whatever the handlers add, only due events are fired and none is left, and the buffer is sorted. |
| `TimedEvents.AddedAllOrdered` | src/common.c:178-241 | Additions keep the buffer ordered by descending trigger time, of equal ones the last added nearest the end. |
| `TimedEvents.AddedAllAdds` | src/common.c:178-241 | Below capacity exactly the new events come in. |
| `TimedEvents.Timer.AddTimedEvent` | src/common.c:178-241 | The shifting loop inserts the event at its place and tells its index; a full buffer stays as it is. |
| `TimedEvents.Timer.GetTimedEvent` | src/common.c:298-312 | Takes the last event if it is due, else nothing. |
| `TimedEvents.Timer.TimedEventLoop` | src/common.c:399-423 | The loop fires and leaves what the specification says, for any finite script of handlers; it ends. |
| `PackIndex.FindFile` | src/filesystem.c:2359-2466 | Without colons, a file is found in a loaded pack exactly if some entry of the zip directory has an equal name, and it is the last such entry. |
| `PackIndex.AgreesIff` | src/filesystem.c:1231-1322 | For all names, the lookup agrees with a scan of all entries if and only if the entry the scan finds lies in the bucket of the name. |
| `PackIndex.AgreesIfColonsAgree` | src/filesystem.c:1231-1322 | So it does whenever the equal entries have their colons where the name has them, in front of the first dot. |
| `PackIndex.AgreesWithoutColons` | src/filesystem.c:1231-1322 | Without colons it always does. |
| `PackIndex.ColonMisses` | src/filesystem.c:912-939 | With a colon it may not: an equal name in another bucket. |
| `PackIndex.SameHash` | src/filesystem.c:1075-1099 | Names that compare equal share a bucket for every table size, if in the hashed part their colons stand at the same places. |
| `PackIndex.ExtensionIgnored` | src/filesystem.c:1075-1099 | What stands behind the first dot of a name does not count in its hash. |
| `PackIndex.Pack.constructor` | src/filesystem.c:2403-2447 | Loading links every entry that could be read, in lower case, into its bucket, newest first. |
| `PackIndex.Pack.Lookup` | src/filesystem.c:1231-1322 | The walk through the bucket finds the last equal entry in it. |
| `PackIndex.TableSize` | src/filesystem.c:2401-2407 | The smallest power of two above the number of entries, but at most 2048. |
| `PackIndex.HashFileName` | src/filesystem.c:1075-1099 | The loop computes the hash, which stops at the first dot. |
| `Paths.FilenameCompare` | src/filesystem.c:912-939 | Tells whether the names differ other than in case and separator characters. |
| `Paths.PathCmp` | src/filesystem.c:1038-1068 | The loop computes the comparison from position to position. |
| `Paths.SmallerIff` | src/filesystem.c:1038-1068 | The comparison is negative exactly if the first text has the smaller character, of signed ones, where the two first differ, or ends there in front of a positive one, or goes on with a negative one where the other ends. |
| `Paths.CompareTransitive` | src/filesystem.c:1038-1068 | The comparison is transitive, strictly so if one step is strict. |
| `Paths.CompareAntisymmetric` | src/filesystem.c:1038-1068 | Its two directions have opposite signs. |
| `Paths.CompareIsSame` | src/filesystem.c:1038-1068 | It is zero exactly for names that FS_FilenameCompare calls equal. |
| `IwdSort.SortTransitive` | src/filesystem.c:2964-2986 | The order with its special case for English is transitive on all strings, strictly so if one step is strict. |
| `IwdSort.SortAntisymmetric` | src/filesystem.c:2964-2986 | Its two directions have opposite signs. |
| `IwdSort.SameAgainstMarked` | src/filesystem.c:2964-2986 | A name without the ten blanks compares the same way with all names that have them, and never as equal. |
| `IwdSort.EnglishFirst` | src/filesystem.c:2964-2986 | Of two marked names the English one comes first. |
| `IwdSort.NamesDecide` | src/filesystem.c:2964-2986 | In all other cases the names decide. |
| `IwdSort.LanguageReads` | src/filesystem.c:2943-2962 | The language is the word behind the mark, cut after 54 letters. |
| `IwdSort.SortedAll` | src/filesystem.c:3031 | In a list sorted step by step no name is greater than any later one, and of the localized ones the English come first. |
| `IwdSort.IwdCompare` | src/filesystem.c:2964-2986 | The comparison function computes this order. |
| `IwdSort.LanguageOf` | src/filesystem.c:2943-2962 | Copies the letters behind the mark, up to position 63. |
| `SearchPath.ResolvesToLastAdded` | src/filesystem.c:1368-1412 | After any additions a file resolves to the last added entry that is not localized and serves it, and only if there is none to the last added localized one; localized entries stand behind all others. |
| `SearchPath.PackServes` | src/filesystem.c:1112-1322 | Without colons a pack serves a file exactly if its name has no two dots in a row and some entry of the pack is equal to it, one leading separator aside. |
| `SearchOrder.OpenFinds` | src/filesystem.c:1112-1410 | An open finds the first entry of the list that holds the file: a directory under its very name, a pack under one that is the same up to case and separators. For names without colons that do not climb up. |
| `SearchOrder.NewDirectoryFirst` | src/filesystem.c:1112-1410 | A file in a directory just added, not a localized one, is opened from there. |
| `SearchOrder.DirectoryWithout` | src/filesystem.c:1112-1410 | A directory without the file never changes what an open or a question finds. |
| `SearchOrder.ExistsIsOpen` | src/filesystem.c:1112-1410 | To ask whether a file is there is to open it from the list without the localized entries of other languages, or from the whole list if localization is ignored. |
| `SearchOrder.TwiceIs` | src/filesystem.c:1112-1322 | What bars a name is the character twice on end, anywhere in it. |
| `SearchOrder.PackTakesOver` | src/filesystem.c:3070-3107 | Adding a pack takes out the one of its base name, up to case, and nothing else. |
| `SearchOrder.DirectoryAddedIff` | src/filesystem.c:2880-2936 | A directory is added unless one of its path and game directory, up to case, is there, or it is a localized one without content; nothing is taken out. |
| `SearchOrder.BarredIsNotOpened` | src/filesystem.c:1112-1410 | A name with two dots or two colons on end is never found. |
| `SearchOrder.LeadingSeparator` | src/filesystem.c:1112-1410 | One leading separator makes no difference. |
| `SearchOrder.GreatestNameServes` | src/filesystem.c:2990-3107 | After the packs of a directory are sorted and added, whatever was there before: of those that are not localized, are not replaced by a later one of their base name and hold a file, it is opened from the one with the greatest name. |
| `SearchPath.ListIsOrder` | src/filesystem.c:2857-3110 | Every reachable list is what is present, not localized first, each kind with the last added first; at most one pack has a base name. |
| `SearchPath.CallKeepsUnique` | src/filesystem.c:3077-3086 | Every call keeps the packs unique by base name. |
| `SearchPath.InsertIsArrival` | src/filesystem.c:2924-2935 | Inserting at the head, or before the first localized entry, is arriving last in the history. |
| `SearchPath.RemoveFirstIsWithout` | src/filesystem.c:3077-3086 | With at most one pack of a name, removing the first found leaves none. |
| `SearchPath.SearchPaths.Insert` | src/filesystem.c:2924-2935 | The linked list gets a new node at its place and nothing else changes. |
| `SearchPath.SearchPaths.Shutdown` | src/filesystem.c:2652-2680 | Exactly the given node is unlinked. |
| `SearchPath.SearchPaths.AddIwd` | src/filesystem.c:3070-3107 | A pack of the same base name goes, the new pack comes in. |
| `SearchPath.SearchPaths.AddGameDirectory` | src/filesystem.c:2857-2940 | A directory known already, or localized without content, is not added; any other is. |
| `SearchPath.SearchPaths.FOpenFileRead` | src/filesystem.c:1368-1412 | The walk along the list stops at the first entry that serves the file. |
| `Checksum.BurstIsSeen` | src/filesystem.c:3113-3132 | Buffers of equal length that differ only inside four consecutive bytes have equal checksums exactly if they are equal, for every key. |
| `Checksum.IsCrc32` | src/filesystem.c:3113-3132 | For key zero the checksum is the table-driven CRC of section 8 of RFC 1952. |
| `CrcPolynomial.ChecksumIsRemainder` | src/filesystem.c:3113-3132 | The checksum is the complement of the remainder that the message, its first 32 bits complemented for a zero key and 32 zeros put behind it, leaves in the long division by the polynomial with the powers 32, 26, 23, 22, 16, 12, 11, 10, 8, 7, 5, 4, 2, 1, 0. |
| `KnownAnswers.CrcCheckValue` | src/filesystem.c:3113-3132 | The digits 1 to 9 with key zero give CBF43926. |
| `Checksum.Chains` | src/filesystem.c:3113-3132 | The checksum of two blocks is that of the second keyed by that of the first. |
| `Checksum.KeyIsSeen` | src/filesystem.c:3113-3132 | Different keys give different checksums. |
| `Checksum.BlockChecksumKey32` | src/filesystem.c:3113-3132 | The two loops compute this checksum. |
| `PureIwds.FileSystem.SetLoadedIwds` | src/filesystem.c:3975-4081 | The list stays exactly if as many packs are loaded as requested, each request is among them and none that must be pure was left out; else the request replaces it. It is fatal exactly if the counts differ. |
| `PureIwds.FileSystem.SetLoadedIwdsFrom` | src/filesystem.c:3975-4081 | The call on its two texts: they are tokenised inside whatever strings are in use, which it leaves as they were, and the request is made of the checksums and names found; it is fatal as well if the tokenizer is. |
| `PureIwds.FileSystem.AllLoaded` | src/filesystem.c:4041-4068 | The loop that starts over behind every match ends, and its exit is taken exactly if there are requests and each is loaded. |
| `PureIwds.FileSystem.AnyMissed` | src/filesystem.c:4020-4039 | Tells whether a pack that must be pure is not requested. |
| `PureIwds.ExitMeansSameIff` | src/filesystem.c:4041-4068 | The exit means, whatever is loaded, that everything loaded was requested, if and only if no two requests match. |
| `PureIwds.AnswerIff` | src/filesystem.c:4012-4039 | The call answers 1 exactly if something is requested, but not some pack that must be pure, by checksum and name up to case; else 0. |
| `PureIwds.StaysIff` | src/filesystem.c:4041-4081 | Another list than the request stays exactly if it has as many packs, the answer is 0 and it has every pack requested; else the request takes its place. |
| `PureIwds.Allowed` | src/filesystem.c:4041-4081 | After the call every requested pack is allowed and, without repetitions, no other one. |
| `PureIwds.Idempotent` | src/filesystem.c:4041-4081 | A second call with the same packs changes nothing. |

## Left out

- ConfigLimit.SurvivesIff: other commands that remove variables, or change their places, names or reset values; with other commands at all, a first long line whose name alone fills a line, or that is too long to be saved. Which commands do so is not looked into.
- LostValues.ValuesReturnIff: texts in which the rest of a line begins with another command; the bound does not hold for all of them (`BroughtBack.SomeBroughtBack`).
- ConfigLimit.NoTextLoads: texts in which other commands run; the bound does not hold for all of them (`OtherCommands.SetFromLoadsLonger`).
- Huffman.RoundTrip: the shipped table of 513 nodes is not checked to be a well-formed tree; every well-formed tree is covered, and there are some (`Huffman.HeapTreeIsCodeTree`).
- Huffman.Coder.WriteBitsCompress: the caller has to provide an output buffer for the whole code, as the source does.
- Md5.DigestOfChunks: the block function itself (the 64 steps of `MD5Transform`) is a parameter; the theorem holds for any.
- Message.Msg.ReadBits: messages split over two buffers are not modelled, nor are strings, floats and vectors in a message.
- Base64.ReadBase64: the output buffer has to have at least four bytes, which the source does not look at.
- CommandBuffer.Cbuf.Execute: a command's effect on the buffer is a finite script of additions and waits; a command that executes the buffer itself, running out of memory and locking are not modelled.
- CommandBuffer.Cbuf.AddText: when the buffer grows out of its static array the source copies as many bytes as the new one has, and so reads behind the array; the model copies the text that is there.
- Tokenizer.CmdTokenizer.TokenizeString: the argument vector has one spare slot, since the source stores the free position behind the last of 1024 arguments; strings contain no zero character.
- Cvars.Registry.Register: only boolean, integer and string variables; descriptions, modified flags and the remembered need to save are left out. A call with the user-created flag registers a string, as all callers do.
- Cvars.Registry.SetF: the local buffer of `Cvar_Set_f` is an unbounded string; the length that its loop counts is modelled as the source counts it, an empty argument as of length zero.
- Cvars.Registry.SetAF: the remembered need to save is left out.
- Filter.ComFilter: patterns with `?`, or with `[` in front of the first star, are not covered, and a run of characters behind a star has fewer than 1024, the size of the buffer it is copied to.
- TimedEvents.Timer.AddTimedEvent: one capacity of 1024 is used, the bound the code compares with, although the array is declared with 256 entries; the function and its arguments are one number, and more than eight arguments, a fatal error, do not occur.
- TimedEvents.Timer.TimedEventLoop: events are taken by value, because a handler may reuse the slot; handlers are a finite script of additions.
- PackIndex.Pack.constructor: a zip directory is the sequence of entries that could be read; offsets are numbers and nothing is read from a zip file.
- PackIndex.Hash: the mask of a power of two is a remainder.
- SearchPath.SearchPaths.FOpenFileRead: running out of file handles, read errors, and the marks for referenced packs are left out; a directory is a set of file names.
- SearchPath.SearchPaths.AddIwd: one pack at a time; listing the directory, the language names and the rule for names in the main directory are left out.
- IwdSort.SortedAll: `qsort` itself belongs to the C library.
- PureIwds.FileSystem.SetLoadedIwdsFrom: freeing of names is left out, and so is a call nested 32 strings deep, where the count of arguments is read from outside its list.
- Dispatch of commands other than `set`, `seta` and variable names: such commands have effects of their own, on variables and on the buffer, which only the scripts of `CommandBuffer` and `OtherCommands` stand for. The reordering of the command list is left out too.
- `Q_stricmp` compares at most 99999 characters and `isInteger` looks at 65536 at most; the model has no such bound.
- `Cvar_Restart_f`, float, vector, colour and enum variables: their text form loses information.
- Addresses patched into the game binary, sockets, HTTP and FTP, entity deltas, HUD and plugins.
