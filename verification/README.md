# Verified model of the miner's JSON library and of its board code

The miner reads Stratum messages with a copy of json-c (`tools/JSON`). This project models that library in Dafny and
proves what it promises: the tokener, the printer, the object layer with its reference counts, the hash table, and the
two growable buffers. Four pieces of board code are modelled as well: flash sector ranges, EEPROM transfers, the
PowerPC debugger's branch arithmetic, and the line rasteriser of the LCD demo.

`dafny verify dfyconfig.toml` checks everything.

## How it is built

**The tokener.** `Tokener` states one pass through the switch of `json_tokener_parse_ex` as a function on a typed
pushdown machine: the state names what it holds, and the stack is a datatype. `TokenerRun` runs it over a chunk.
About that machine it is proved that it terminates, how often the switch is entered, that the stack index stays below
`max_depth`, and exactly when two calls agree with one (`TokenerChunks`). `Reader` is a recursive-descent reader that
knows nothing of states, of a stack, or of `goto redo_char`; `TokenerRefines` proves that on every text the machine
reports the error, the value and the length that the reader reports. `Leniencies` says exactly where that is not what a
grammar would have, `Malformed` which texts are let pass that are not JSON and which error each of the others gets, and
`Keywords` how null, NaN, Infinity and the booleans may be spelled. `Grammar` is the grammar of RFC 8259 as syntax trees with their text and their
meaning; `StringReads`, `NumberForms`, `GrammarReads` and `Utf8` prove that the reader reads each tree for its meaning.
`Parsing` puts these together. `TokenerRecords`, `TokenerCases` and `TokenerLoop` hold the tokener as it is
programmed: a class whose methods update `stack[depth]`, `depth`, `st_pos`, `ucs_char`, `pb` and `char_offset` in
place, with the tight inner loops over strings, comments, numbers and digits. Its `ParseEx` is proved to do what the
machine does, and so inherits everything above.

**The printer.** `Printer` says what each serialiser prints for each combination of the flags; `PrinterLoop` holds
`json_escape_str`, `indent` and the serialisers as methods that append to a `Printbuf`; `Layout` spells the same text out
as a join of its parts, for each of the flags; `RoundTrip` proves that parsing undoes printing.

**The containers.** `HashSlots` and `LinkHash` are the linked hash table: open addressing, tombstones, a doubly linked
list threaded through the slots, doubling. `HashLittle` is its hash function with its three ways to read a key, and `HashValues` says what it does to single bits
and what it makes of some keys.
`Foreach` is the loop over an object whose body changes the object. `PrintBuf` and `ArrayList` are the buffers.
`OrderedMap` is the insertion-ordered map that the table, the parser and the printer are all compared with.

**Ownership.** `Ownership` is a heap of reference-counted nodes, with `json_object_get`, `json_object_put` and the
calls that store a reference in a container or take one out of it. `TokenerHeap` follows the references of the tokener
through a parse, on a heap that others use as well.

**Integers.** `ParseInt` is `json_parse_int64`, with an `sscanf` that may return anything.

**Board code.** `FlashSectors`, `Eeprom`, `Bedbug`, `LcdLine`, and `Arith` for the arithmetic they share. `BranchWords`
states the debugger's step on instruction words put together from their fields.

## Where the code does not do what its comments or names say

The model keeps the code as it is. Each of these is a theorem, with the exact condition.

- A surrogate pair whose low 16 bits look like a surrogate again is taken for one. A string is decoded to what it means
  exactly when it has no such pair (`StringReads.StringIsReadExactly`).
- Feeding a text in two chunks is not always feeding it at once: a surrogate pair cut in two is lost, and so is
  `-Infinity` cut behind some character of a number. There is no other case (`TokenerChunks.ChunksComposeExactly`).
- `-Infinity` starts matching at whatever position the previous word or `\u` escape left in `st_pos`, which a reset does
  not clear. It is read if and only if that is 0 (`Leniencies.MinusInfinityParses`); `[null,-Infinity]` never is
  (`Leniencies.MinusInfinityBehindNull`).
- A block comment closes at the first `/` behind an odd run of `*`, and stays open if there is none
  (`Leniencies.BlockCloses`, `Leniencies.BlockStaysOpen`); so `/***/` does not close (`Leniencies.TwoStarsDoNotClose`).
- A comment that is open when the terminator comes is accepted behind a finished value
  (`Leniencies.OpenCommentIsAccepted`).
- Strict mode refuses strings in single quotes, but not keys (`Malformed.OneMemberParses`), and takes six characters for
  white space where the standard has four (`Malformed.BlanksParse`). In any mode a key is cut at its first NUL
  (`Malformed.KeyIsCut`).
- `json_parse_int64`, when it distrusts `sscanf`, forgets the sign if `sscanf` returned 0: a negative text that does not
  write 0 becomes INT64_MAX then (the last clause of `ParseInt.ParseInt64`).
- The foreach loop may delete keys, its documentation says. It goes on into a freed slot if and only if some turn of the
  body deletes the key that comes next (`Foreach.ForEach`); with two members, if and only if the first turn deletes the
  second (`Foreach.TwoMembers`).
- `lh_table_resize` may resize again while it copies, and then takes over the larger array but not its size. It does so
  exactly when the new size is below the load bound (`LinkHash.NestedResize`, `LinkHash.LhTable.Resize`); doubling
  never is (`LinkHash.DoublingIsSafe`). Asked for fewer slots than there are entries, it leaves a key behind that
  lookups miss (`LinkHash.ResizedTooSmall`).
- EEPROM pages of more than 256 bytes are crossed, because the page offset is taken from the low octet of the offset
  (`Eeprom.PagesAreRespected`).
- The debugger takes a conditional branch as not taken when a bit of its BO field that should be zero is set, and it
  keeps the low bits of a register target (`Bedbug.FollowsTheProcessor`).
- A line that falls while x rises is drawn rising, since the sign is taken from an unsigned delta (`LcdLine.DrawnTrue`).

## Model

| member | source | states |
|---|---|---|
| TokenerRun.Passes | tools/JSON/json_tokener.c:257-276 | In a call the switch is entered at most seven times for each character, the passes after `goto redo_char` included. |
| TokenerRun.StepProgresses | tools/JSON/json_tokener.c:259-261 | Every pass either lowers the rank of state and character, or moves on by at least one character and not past the end of the chunk. |
| TokenerRun.RunKeepsDepth | tools/JSON/json_tokener.c:714-741 | From any tokener whose depth is below `max_depth`, every call on every text ends with its depth below `max_depth`, however it ends. |
| TokenerChunks.ChunksCompose | tools/JSON/json_tokener.c:209-225 | If a chunk ends in `continue`, and is not cut inside a surrogate pair or inside a `-Infinity`, then feeding more gives the value, error, tokener and total length of feeding both at once. |
| TokenerChunks.ChunksComposeExactly | tools/JSON/json_tokener.c:848-880 | The same for all continuations if and only if the chunk ends neither inside a surrogate pair nor in a number with a minus sign of which this call has read a part. |
| TokenerChunks.CaseLenIsLocal | tools/JSON/json_tokener.c:665-688 | How many characters of a number the call has seen, a local variable, matters only for a text like `-Infinity`. |
| TokenerChunks.StepIsLocal | tools/JSON/json_tokener.c:562-590 | A pass looks beyond its character only behind the last digit of a high surrogate. |
| TokenerChunks.RunKeepsSane | tools/JSON/json_tokener.c:231-881 | No call leads from a tokener that calls can lead to, to one that they cannot: at most four digits of a `\u` escape have been read, a number's text has only number characters, and a quote is one of the two. |
| TokenerRefines.RunIsRead | tools/JSON/json_tokener.c:231-881 | On every text, a call on a tokener that is ready reports the error, value and length of the recursive-descent reader, which is told only whether the match position is 0. |
| Leniencies.MinusInfinityParses | tools/JSON/json_tokener.c:681-688 | On a ready tokener `-Infinity` is read as minus infinity, whole, if and only if the match position is 0; otherwise the call fails behind the minus sign with the error for an unexpected character. |
| Leniencies.MinusInfinityBehindNull | tools/JSON/json_tokener.c:681-688 | `[null,-Infinity]` fails at the seventh character on every ready tokener. |
| Leniencies.BlockCloses | tools/JSON/json_tokener.c:435-474 | A block comment is over with the first slash behind an odd number of stars, and what stands behind it is read on. |
| Leniencies.BlockStaysOpen | tools/JSON/json_tokener.c:435-474 | A block comment without such a slash goes on to the terminator or to the end of the chunk. |
| Leniencies.TwoStarsDoNotClose | tools/JSON/json_tokener.c:466-474 | `/***/` is still open at its end, while `/**/` and `/****/` are closed. |
| Leniencies.OpenCommentIsAccepted | tools/JSON/json_tokener.c:857-861 | A value behind which a comment is open when the terminator comes is returned with success, whatever the comment says. |
| Malformed.BlanksParse | tools/JSON/json_tokener.c:262-267 | Each of the six characters with the codes 9 to 13 and 32 may stand in front of any text, without changing what is read or how much of it. |
| Malformed.CommentsParse | tools/JSON/json_tokener.c:423-474 | Outside strict mode the same holds of a comment of either kind, closed by `*/` or by the end of its line. |
| Malformed.SlashAlone | tools/JSON/json_tokener.c:423-433 | Outside strict mode a slash with neither a star nor a slash behind it is the comment error. |
| Malformed.NoValue | tools/JSON/json_tokener.c:278-343 | A character that begins no value, a single quote or a slash in strict mode among them, is an unexpected character and is not used; the terminator is an unexpected end. |
| Malformed.QuotedParses | tools/JSON/json_tokener.c:302-314 | Any characters but the quote, the backslash and the terminator may stand in a string as they are; single quotes are as good as double ones outside strict mode, and an unexpected character in it. |
| Malformed.EscapeParses | tools/JSON/json_tokener.c:501-530 | The eight escapes of one character, each with the character it stands for; any other but `u` is the string error. |
| Malformed.LastDigitParses | tools/JSON/json_tokener.c:532-542 | The last character of a `\u` escape is one of 22 digits, each with its value, or the string error. |
| Malformed.TrailingParses | tools/JSON/json_tokener.c:848-856 | A character behind a complete text, with white space around the text, is an unexpected character in strict mode, and otherwise left to the caller. |
| Malformed.NoCommentBehind | tools/JSON/json_tokener.c:268-272 | Outside strict mode a slash behind a complete text, with neither a star nor a slash behind it, is the comment error, in front of the terminator too. |
| Malformed.CommaNeeded | tools/JSON/json_tokener.c:743-754 | Behind an element, whatever value it is, anything but a comma, the closing bracket, white space and a comment is the array error. |
| Malformed.LastCommaParses | tools/JSON/json_tokener.c:714-724 | A comma in front of the closing bracket is an unexpected character in strict mode, and otherwise makes no difference. |
| Malformed.KeyNeeded | tools/JSON/json_tokener.c:756-776 | Behind an opening brace anything but a quote, the closing brace, white space and a comment is the key name error. |
| Malformed.ColonNeeded | tools/JSON/json_tokener.c:802-810 | Behind a key anything but a colon, white space and a comment is the key separator error. |
| Malformed.OneMemberParses | tools/JSON/json_tokener.c:756-841 | A member is read with its key in quotes of either kind, in strict mode too. |
| Malformed.KeyIsCut | tools/JSON/json_tokener.c:777-788 | A key with a NUL in it is cut in front of the first one. |
| Malformed.MemberCommaNeeded | tools/JSON/json_tokener.c:830-841 | Behind a member, whatever value it has, anything but a comma, the closing brace, white space and a comment is the value separator error. |
| Malformed.LastMemberCommaParses | tools/JSON/json_tokener.c:756-767 | A comma in front of the closing brace is an unexpected character in strict mode, and otherwise makes no difference. |
| Keywords.TrueParses | tools/JSON/json_tokener.c:632-663 | Four characters that begin with a t are true if and only if they are its letters, in strict mode in lower case and otherwise in any case; otherwise they are the boolean error. |
| Keywords.FalseParses | tools/JSON/json_tokener.c:632-663 | The same for false. |
| Keywords.NullParses | tools/JSON/json_tokener.c:385-421 | The same for null, with the null error, except that the three letters of NaN with a letter behind them are NaN, or in strict mode an unexpected character. |
| Keywords.NaNParses | tools/JSON/json_tokener.c:385-421 | The same for NaN; the first three letters of null are cut short by the terminator, and anything else is the null error. |
| Keywords.InfinityParses | tools/JSON/json_tokener.c:353-383 | The same for Infinity, with the error for an unexpected character. |
| StringReads.ItemsTaken | tools/JSON/json_tokener.c:476-630 | Every sequence of plain characters, escapes and `\u` escapes is read to its closing quote, into one defined text. |
| StringReads.TakenMatches | tools/JSON/json_tokener.c:532-630 | That text is what the string means, with lone surrogates replaced by U+FFFD, if no pair is misread; otherwise it is a shorter one. |
| StringReads.StringIsReadExactly | tools/JSON/json_tokener.c:101-104 | A string is read as what it means if and only if no surrogate pair in it has low 16 bits in D800-DFFF. |
| StringReads.PairIsDecoded | tools/JSON/json_tokener.c:103 | The macro that joins two surrogates gives the scalar value of section 7 of RFC 8259, between 0x10000 and 0x10FFFF, and says when it looks like a surrogate. |
| StringReads.DigitsRead | tools/JSON/json_tokener.c:536-542 | Four hexadecimal digits, in either case, add up to the code unit they write. |
| StringReads.HexDigitIsValue | tools/JSON/bits.h:23 | The macro gives each hexadecimal digit its value. |
| Utf8Form.EncodedFirst | tools/JSON/json_tokener.c:544-626 | The bytes written for a scalar value are the one well-formed UTF-8 sequence of section 3 of RFC 3629 for it, whatever follows. |
| Utf8Form.TakenIsWellFormed | tools/JSON/json_tokener.c:532-630 | Every string whose plain characters are well-formed UTF-8 comes out as well-formed UTF-8, whatever its escapes, misread pairs and lone surrogates included. |
| Utf8Form.DecodedPoints | tools/JSON/json_tokener.c:557-626 | The meaning of such a string is well-formed UTF-8 for exactly its code points: plain characters as they are, pairs joined, lone surrogates U+FFFD. |
| NumberForms.RfcNumberReads | tools/JSON/json_tokener.c:665-712 | Every number of section 6 of RFC 8259 is accepted: an integer for its value saturated at 64 bits, any other for its text. |
| NumberForms.IntegerOk | tools/JSON/json_tokener.c:690-700 | An optional minus and digits, without a leading zero, are an integer whose value is saturated. |
| GrammarReads.NumberReads | tools/JSON/json_tokener.c:665-712 | A number is read to its last character when white space, a comma or a closing bracket follows, and what follows is left. |
| GrammarReads.JsonReads | tools/JSON/json_tokener.c:278-344 | The text of every syntax tree is read for its meaning, and what stands behind it is left, if and only if it fits the levels left; otherwise the error is the depth error. |
| GrammarReads.ElementsRead | tools/JSON/json_tokener.c:714-754 | The elements of an array, with any white space, are read in order up to the closing bracket. |
| GrammarReads.MembsRead | tools/JSON/json_tokener.c:756-841 | The members of an object are read in order; a repeated key keeps its first place and takes its last value. |
| GrammarReads.DocumentReads | tools/JSON/json_tokener.c:231-881 | A whole document with white space around it is read for its meaning if it fits the depth limit, and fails with the depth error if not. |
| Parsing.TextParses | tools/JSON/json_tokener.c:231-881 | Every JSON text within the depth limit parses, in strict mode or not, to what it means, all of it consumed; every deeper one fails with the depth error and no value. |
| Parsing.RfcTextParses | tools/JSON/json_tokener.c:231-881 | The same for every tree whose numbers are those of section 6 of RFC 8259, if `sscanf` reads the fractions and exponents of that section. |
| Parsing.IntegerParses | tools/JSON/json_tokener.c:665-712 | Every text of an optional minus and digits is read for the number they write if that is from -9223372036854775808 to 9223372036854775807, and for the nearer of these if it is not; signs, and digits behind signs, are passed over. In strict mode a leading zero must be the number. |
| Parsing.NoIntegerParses | tools/JSON/json_tokener.c:690-711 | A minus without digits, and in strict mode a leading zero of a number that is not zero, are the number error. |
| Parsing.ReparseIsIdentity | tools/JSON/json_tokener.c:231-881 | Whatever a call has accepted, printing its value with any flags and parsing that gives the value back, if it has no infinity and no NaN. |
| Parsing.ValueKept | tools/JSON/json_tokener.c:714-733 | Every value the reader returns can be printed and read again: distinct keys without NUL, integers of 64 bits, doubles with a text that scans, and no deeper than the stack allows. |
| TokenerLoop.JsonTokener.constructor | tools/JSON/json_tokener.c:106-121 | A new tokener is the machine in its first state. |
| TokenerLoop.JsonTokener.Reset | tools/JSON/json_tokener.c:136-156 | After a reset the tokener is ready for a text, whatever it was left with. |
| TokenerLoop.JsonTokener.CaseEatWs | tools/JSON/json_tokener.c:262-276 | The loop over white space, and the way to a comment or to the saved state, do what the machine does. |
| TokenerLoop.JsonTokener.CaseStart | tools/JSON/json_tokener.c:278-344 | The first character of a value chooses what the machine chooses. |
| TokenerLoop.JsonTokener.CaseFinish | tools/JSON/json_tokener.c:346-351 | A finished value leaves the call at the bottom level, and otherwise goes to the level below. |
| TokenerLoop.JsonTokener.CaseKeyword | tools/JSON/json_tokener.c:353-421 | null, NaN, Infinity and the booleans are matched against the buffer as the machine does, with or without case. |
| TokenerLoop.JsonTokener.CaseComment | tools/JSON/json_tokener.c:435-464 | The loops that pass over a comment append it to the buffer whole, also when the chunk ends inside. |
| TokenerLoop.JsonTokener.CaseText | tools/JSON/json_tokener.c:476-499 | The loop over a string collects its characters up to the quote, a backslash, or the end of the chunk. |
| TokenerLoop.JsonTokener.CaseUnicode | tools/JSON/json_tokener.c:532-630 | The loop over hexadecimal digits, with its look ahead for a second escape, does what the machine does. |
| TokenerLoop.JsonTokener.CaseNumber | tools/JSON/json_tokener.c:665-712 | The loop over a number's characters, and what is made of them behind the last one, do what the machine does. |
| TokenerLoop.JsonTokener.CaseArray | tools/JSON/json_tokener.c:714-735 | An array level closes, opens a level for an element, or fails at the depth limit. |
| TokenerLoop.JsonTokener.CaseObjectValue | tools/JSON/json_tokener.c:812-820 | An object level opens a level for a value, or fails at the depth limit. |
| TokenerLoop.JsonTokener.CaseObjectValueAdd | tools/JSON/json_tokener.c:822-828 | The value goes to the object under its key, and the key is forgotten. |
| TokenerLoop.JsonTokener.Passes | tools/JSON/json_tokener.c:259-261 | The chain of `goto redo_char` for one character ends, and ends where the machine's does. |
| TokenerLoop.JsonTokener.Finish | tools/JSON/json_tokener.c:848-880 | The label `out`: the error, the value taken from the current level, and the levels reset on success. |
| TokenerLoop.JsonTokener.ParseEx | tools/JSON/json_tokener.c:231-881 | A call returns the value, error, length and next state of the machine's run; a length over the limit is refused and changes nothing else. |
| TokenerLoop.ParseVerbose | tools/JSON/json_tokener.c:166-184 | Every terminated text of at most 2147483647 characters is parsed as the reader reads it with depth 32, the default flags and the match position 0; a longer one is the size error; there is no value on an error. |
| PrinterLoop.EscapeStr | tools/JSON/json_object.c:96-137 | The buffer gains the escaped string, for every string of characters, NUL included. |
| PrinterLoop.PrintIndent | tools/JSON/json_object.c:289-295 | Two blanks for each level in the pretty form, and nothing otherwise. |
| Layout.CharacterIsWritten | tools/JSON/json_object.c:101-133 | The eight characters that get an escape of one letter, the control characters with their code in lower case digits, and any other as it is. |
| Layout.CharactersAreWritten | tools/JSON/json_object.c:96-137 | A string is written character by character. |
| Layout.PrintIsLaidOut | tools/JSON/json_object.c:299-343 | The text of every value, spelled out: its parts joined by commas in brackets; with the spaced flag one blank in front of each part and of the closing bracket and behind each colon; with the pretty flag a line for each part and for the closing bracket, indented by two blanks for each level; with neither flag no white space at all. |
| PrinterLoop.PrintTo | tools/JSON/json_object.c:438-482 | The buffer gains the text of the value, by its kind; `Layout.PrintIsLaidOut` spells that text out. |
| PrinterLoop.PrintArray | tools/JSON/json_object.c:755-795 | The buffer gains the text of the array, which `Layout.PrintIsLaidOut` spells out for each of the flags. |
| PrinterLoop.PrintObject | tools/JSON/json_object.c:299-343 | The buffer gains the text of the object, its members in order, which `Layout.PrintIsLaidOut` spells out for each of the flags. |
| PrinterLoop.ToJsonString | tools/JSON/json_object.c:266-280 | A buffer that was used before holds the text of the value, in the layout spelled out by `Layout.LaidOut`, and nothing else, terminated. |
| RoundTrip.EscapeDecodes | tools/JSON/json_object.c:96-137 | Decoding what the escaper wrote gives the string back, for every string. |
| RoundTrip.DecimalIsNat | tools/JSON/json_object.c:476-482 | The decimal digits of a number read as that number, without a leading zero. |
| RoundTrip.IntegerReads | tools/JSON/json_object.c:476-482 | Every 64-bit integer is printed as a number that reads as it. |
| RoundTrip.PrintIsWritten | tools/JSON/json_object.c:299-343 | What is printed, with any flags, is the text of a syntax tree of RFC 8259. |
| RoundTrip.TreeIsRight | tools/JSON/json_object.c:755-795 | That tree is well formed, means the value, and nests as deep as the value does. |
| RoundTrip.PrintThenParse | tools/JSON/json_object.c:266-280 | Printing with any flags and parsing in any ready tokener gives the value back, all consumed, if the value fits the stack; otherwise the parse fails with the depth error. |
| PrintBuf.Printbuf.constructor | tools/JSON/printbuf.c:34-56 | A new buffer of 32 characters holds the empty text. |
| PrintBuf.Printbuf.Extend | tools/JSON/printbuf.c:58-77 | The buffer becomes as large as asked, by doubling at least, and keeps its contents. |
| PrintBuf.Printbuf.MemAppend | tools/JSON/printbuf.c:79-89 | The contents gain the text and end in a terminator; the size is what the growth rule says. |
| PrintBuf.Printbuf.MemAppendFast | tools/JSON/printbuf.h:42-49 | The macro gives the same contents, terminator and size as the function. |
| PrintBuf.Printbuf.MemSet | tools/JSON/printbuf.c:91-109 | The characters at an offset, or behind the contents, are set, the others kept, and the contents reach as far as the furthest write. |
| PrintBuf.Printbuf.Reset | tools/JSON/printbuf.c:176-180 | The contents are empty again; the size stays. |
| PrintBuf.Replay | tools/JSON/printbuf.c:58-109 | Over every run of appends of both kinds, fills and resets, the buffer holds what was written since the last reset; its size is 32 at first, becomes twice as much when that is too small, or eight more than is needed if that is more, and is never over the larger of 32 and twice the longest text. |
| HashSlots.RoomAhead | tools/JSON/linkhash.c:502-506 | A table that is not full has a slot for a new key within `size` steps of any start, so that the probe loop ends. |
| HashSlots.MissedAltogether | tools/JSON/linkhash.c:527-542 | A probe that meets an empty slot, or has gone all the way round, has proved that the key is not there; tombstones do not hide keys. |
| HashSlots.LinksAreInverse | tools/JSON/linkhash.c:511-520 | Next and prev undo each other at every live slot, and only the tail has no next, only the head no prev. |
| HashSlots.AddedIsThreaded | tools/JSON/linkhash.c:508-520 | Filling a free slot and linking it behind the tail appends one entry to the list, and the links stay right. |
| HashSlots.ShorterIsThreaded | tools/JSON/linkhash.c:574-586 | A tombstone and the relinking around it take out one entry and keep the order of the others, at the head, the tail, in between, and alone. |
| HashSlots.ShorterIsFound | tools/JSON/linkhash.c:571-572 | After a deletion every other key is still found from its hash. |
| LinkHash.LhTable.constructor | tools/JSON/linkhash.c:426-446 | A new table holds nothing. |
| LinkHash.LhTable.LookupEntry | tools/JSON/linkhash.c:527-542 | The position of a live slot with the key among the first `size` slots, or NIL; on a table that is in order NIL exactly when it has no such key, for every hash function. |
| LinkHash.LhTable.LookupEx | tools/JSON/linkhash.c:552-561 | The value that the ordered map has for the key, or none. |
| LinkHash.LhTable.Probe | tools/JSON/linkhash.c:499-506 | A free slot that can be reached from the key's hash over live slots and tombstones. |
| LinkHash.LhTable.Insert | tools/JSON/linkhash.c:493-524 | The entry comes last; the table doubles first when it has reached its load; nothing is freed. |
| LinkHash.LhTable.Resize | tools/JSON/linkhash.c:460-478 | For every new size contents, order and count survive the move to a new array, and the table is in order if the entries are within the load of that size; otherwise its `size` is smaller than its array. |
| LinkHash.LhTable.DeleteEntry | tools/JSON/linkhash.c:563-589 | -2 for a position before the table, -1 for a slot that is not live, and otherwise the entry is freed once and gone. |
| LinkHash.LhTable.Delete | tools/JSON/linkhash.c:592-597 | An entry with the key is freed and taken out, and its slot alone becomes a tombstone, or -1 and no change if there is none; with distinct keys the key is removed as from the ordered map. |
| LinkHash.LhTable.Free | tools/JSON/linkhash.c:480-490 | Every live entry is freed once, in order. |
| LinkHash.LhTable.ToList | tools/JSON/linkhash.h:159-160 | The loop from head to tail meets the entries in their order, each once. |
| LinkHash.LhTable.ObjectAdd | tools/JSON/json_object.c:380-397 | A key that is there keeps its place and its slot and gets the new value; a new one comes last, in twice as many slots if 66 in a hundred were taken. |
| LinkHash.DoublingIsSafe | tools/JSON/linkhash.c:498 | A table within its load, once doubled, takes its entries and one more without another resize. |
| LinkHash.NestedResize | tools/JSON/linkhash.c:466-471 | Copying into a table resizes that table in its turn if and only if its size is below the load bound for the entries. |
| LinkHash.ResizedTooSmall | tools/JSON/linkhash.c:460-478 | After a resize to fewer slots than there are entries, there is a key in the list that a lookup does not find. |
| LinkHash.Replay | tools/JSON/linkhash.c:493-597 | Over every run of adds, replacements, lookups and deletions, the lookups answer and the list shows what an insertion-ordered map would; the slots are 16 at first, and twice as many whenever a new key finds 66 in a hundred of them taken. |
| Foreach.ForEach | tools/JSON/json_object.h:326-365 | A loop whose body, in each turn, deletes keys and stores values for keys that are there: it strays into a freed slot if and only if some turn deletes the key that comes next; otherwise it visits what `Sweep` says and leaves what that leaves. |
| Foreach.CourseIs | tools/JSON/json_object.h:326-365 | Whatever the body does, each value visited is the one that the acts of the turns so far have left for its key, and what is left at the end is what the acts of all turns leave. |
| Foreach.AfterIs | tools/JSON/json_object.h:326-365 | Acts leave the keys that none of them deletes, in the old order, each with the last value stored for it. |
| Foreach.EachInTurn | tools/JSON/json_object.h:326-365 | If each turn deletes at most its own key, and stores values for any keys that are there, the loop does not stray and visits every key of the start, in order, with its latest value. |
| Foreach.TwoMembers | tools/JSON/json_object.h:326-332 | With two members the loop is safe if and only if its first turn does not delete the second. |
| Foreach.Perform | tools/JSON/json_object.h:326-332 | What a turn does to the table: the slots of the keys it deletes become tombstones, and every other slot keeps its key. |
| HashLittle.MixIsReversible | tools/JSON/linkhash.c:116-166 | The mixing step has an inverse on both sides: it is a bijection on triples of 32-bit words. |
| HashLittle.FinishIsReversible | tools/JSON/linkhash.c:193-202 | So has the final mixing, of which the hash is the last word. |
| HashValues.RotAtBit | tools/JSON/linkhash.c:112 | A rotation by k moves bit i - k, taken modulo 32, to bit i, for the nine k there are. |
| HashValues.XorAtBit | tools/JSON/linkhash.c:157-165 | A bit of an exclusive or is one if and only if just one of the two bits is. |
| HashValues.EmptyKey | tools/JSON/linkhash.c:238 | The empty key with the seed 0 hashes to 0xdeadbeef. |
| HashValues.KeyOfOne | tools/JSON/linkhash.c:365-396 | The key "a" with the seed 0 hashes to 0x58d68708. |
| HashValues.FourScore0 | tools/JSON/linkhash.c:355-396 | "Four score and seven years ago" with the seed 0, two blocks and six bytes, hashes to 0x17770551. |
| HashValues.FourScore1 | tools/JSON/linkhash.c:355-396 | The same key with the seed 1 hashes to 0xcd628161. |
| HashLittle.Hash32 | tools/JSON/linkhash.c:240-304 | Reading whole words, the last one masked, gives the hash of the bytes. |
| HashLittle.Hash16 | tools/JSON/linkhash.c:306-352 | Reading half words gives the same hash. |
| HashLittle.Hash8 | tools/JSON/linkhash.c:353-397 | Reading byte by byte gives the same hash. |
| HashLittle.HashAt | tools/JSON/linkhash.c:232-398 | The hash of a key and a seed does not depend on the address of the key. |
| ArrayList.List.constructor | tools/JSON/arraylist.c:26-42 | A new list is empty, with room for 32. |
| ArrayList.List.GetIdx | tools/JSON/arraylist.c:53-58 | The element, or NULL at and beyond the length. |
| ArrayList.List.Expand | tools/JSON/arraylist.c:60-72 | The array grows to twice its size or to what is asked; the elements stay, and the slots beyond them are NULL. |
| ArrayList.List.PutIdx | tools/JSON/arraylist.c:74-82 | The element is stored, a gap in front of it is NULL, and what it replaces is freed. |
| ArrayList.List.Add | tools/JSON/arraylist.c:84-88 | The element comes last, and nothing is freed. |
| ArrayList.List.Free | tools/JSON/arraylist.c:44-51 | Every pointer in the list is freed, in order. |
| ArrayList.Replay | tools/JSON/arraylist.c:74-88 | Over every run of adds and stores, and the free at the end, each pointer is freed exactly as often as it was handed over. |
| ArrayList.Conserved | tools/JSON/arraylist.c:74-82 | One store: what the list holds and what it has freed grow together by just the pointer handed over. |
| Ownership.PutRef | tools/JSON/json_object.c:150-164 | Giving up a reference keeps every count equal to the container slots and handles there are, frees the nodes whose count becomes zero, and no other. |
| Ownership.PutAll | tools/JSON/json_object.c:797-806 | The same for the slots of a container that is deleted, one after the other. |
| Ownership.AddToObject | tools/JSON/json_object.c:380-397 | An object takes over the caller's reference, and gives up the value it had for the key; the counts stay right. The object need not be held by the caller when there are no cycles on the heap. |
| Ownership.DeleteKey | tools/JSON/json_object.c:430-433 | An object gives up a member and the reference to its value, or does nothing if it has no such key; the counts stay right. |
| Ownership.PutIdx | tools/JSON/json_object.c:844-848 | An array takes over the caller's reference at an index, with NULL in the gap in front of it, and gives up the element that was there; the counts stay right. |
| Ownership.SlotsAgree | tools/JSON/json_object.c:380-433 | In all this the members of an object change as the ordered map does, and the elements of an array as the array list does. |
| Ownership.PutStays | tools/JSON/json_object.c:150-164 | Giving up a reference into a part of the heap that no link leads out of leaves every node outside that part alone. |
| Ownership.ArrayAddIsBalanced | tools/JSON/json_object.c:839-842 | An array takes over the caller's reference; the counts stay right. |
| Ownership.GetIsBalanced | tools/JSON/json_object.c:142-148 | A new reference is one more count and one more handle. |
| Ownership.NewIsBalanced | tools/JSON/json_object.c:180-197 | A new node has the count 1 for the one reference that its maker holds. |
| Ownership.ReachableIsBalanced | tools/JSON/json_object.c:142-164 | In every state that a program can reach which gives up or hands over only references it holds, each count is the number of container slots and handles, and the nodes without a count are those that have been freed. If it never stores a container below itself, there are no cycles either. |
| Ownership.CallIsAcyclic | tools/JSON/json_object.c:380-397 | A call makes a cycle only if it stores a container in something that is reached from it. |
| Ownership.BorrowedIsLegal | tools/JSON/json_object.c:380-433 | In every state of a program that closes no cycle, any live container may be changed, whether the caller holds it or has only got it out of another. |
| Ownership.NothingIsLost | tools/JSON/json_object.c:150-177 | Once such a program has given up all it holds, every node it has made is freed. |
| Ownership.NothingLeft | tools/JSON/json_object.c:150-177 | On any heap without cycles of which nobody holds anything, no node is left. |
| Ownership.Objects.New | tools/JSON/json_object.c:180-197 | A new node at the end of the heap, with the count 1. |
| Ownership.Objects.Get | tools/JSON/json_object.c:142-148 | The count goes up by one; NULL is passed through. |
| Ownership.Objects.Put | tools/JSON/json_object.c:150-164 | The recursive delete, in place, does what PutRef says, and returns whether the node was deleted. |
| Ownership.Objects.PutKids | tools/JSON/json_object.c:346-356 | The loop over a container's slots gives up each of them. |
| Ownership.Objects.ArrayAdd | tools/JSON/json_object.c:839-842 | The slot is appended in place. |
| Ownership.Objects.ObjectAdd | tools/JSON/json_object.c:380-397 | The value that is replaced is given up, and the new one is stored in its slot. |
| Ownership.Objects.ObjectDel | tools/JSON/json_object.c:430-433 | The value is given up and the member is taken out. |
| Ownership.Objects.ArrayPutIdx | tools/JSON/json_object.c:844-848 | The element that is replaced is given up, and the new one is stored in its slot. |
| TokenerHeap.StoreKeeps | tools/JSON/json_tokener.c:278-344 | A new value becomes the current object of its level, and the tokener's references still stand for what the machine holds. |
| TokenerHeap.PopKeeps | tools/JSON/json_tokener.c:346-351 | Leaving a level passes its reference down. |
| TokenerHeap.AddElementKeeps | tools/JSON/json_tokener.c:737-741 | The element's reference goes to the array below. |
| TokenerHeap.AddMemberKeeps | tools/JSON/json_tokener.c:822-828 | The value's reference goes to the object below, and the value of a repeated key is given up. |
| TokenerHeap.GetThenPut | tools/JSON/json_tokener.c:346-351 | The reference taken when a level is left and the one that resetting the level gives up cancel out. |
| TokenerHeap.TrackKeeps | tools/JSON/json_tokener.c:257-846 | In every pass the tokener's slots, the value on its way down and the heap stand for what the machine has in hand, each new live node is held exactly once, and the nodes that were there before the parse are as they were. |
| TokenerHeap.ReturnIsSole | tools/JSON/json_tokener.c:848-880 | After a success the caller holds the tree of the value, each of its nodes with the count 1; no other new node is live, and the nodes of others are as they were. |
| TokenerHeap.ParseIsAccounted | tools/JSON/json_tokener.c:231-881 | On any heap, whoever holds what of it, every call, in whatever way it ends and over however many chunks, ends with the caller as sole owner of the returned tree and nothing held by the tokener, or with no value and the tokener holding all that is new; nothing else on the heap changes. |
| TokenerHeap.FailureFreesAll | tools/JSON/json_tokener.c:136-156 | A parse that fails or is unfinished, followed by a reset, leaves every node freed that it has allocated, and every other node as it was. |
| TokenerHeap.NewHolds | tools/JSON/json_tokener.c:106-121 | A new tokener holds nothing; these runs start on every heap whose counts are right, in particular in every state of `Ownership.ReachableIsBalanced`. |
| TokenerHeap.NextHolds | tools/JSON/json_tokener.c:873-880 | After a success the next parse may start while the value is still held. |
| ParseInt.ParseInt64 | tools/JSON/json_util.c:180-264 | Where sscanf is known to be faulty: for `-?[0-9]+` and any number that it returns, the number is kept if and only if it is the one written; otherwise it becomes the bound of its sign, except that the sign is forgotten when sscanf returned 0. ERANGE saturates, and other texts are left to sscanf. |
| ParseInt.Rechecked | tools/JSON/json_util.c:213-251 | Comparing the digits with the number printed again finds out exactly whether it is the number that was written, leading zeros and -0 included. |
| ParseInt.DigitsAgree | tools/JSON/json_util.c:235-251 | Two runs of digits agree, the next character included, if and only if they write the same number. |
| ParseInt.ConformingIsSaturated | tools/JSON/json_util.c:253-264 | With a conforming sscanf the result is the number written, saturated at 64 bits, which is what the tokener's model uses. |
| ParseInt.ParseWritten | tools/JSON/json_util.c:180-264 | With such an sscanf, trusted or not, digits with or without a minus give the number they write if it is from -9223372036854775808 to 9223372036854775807, and the nearer of these if it is not, leading zeros or not. |
| ParseInt.PlusIsNothing | tools/JSON/json_util.c:208-213 | A plus in front of the digits makes no difference. |
| FlashSectors.ScanBank | demos/DEMO_BAREMETAL_PRELOADER/common/cmd_flash.c:239-254 | The sector that starts at the first address, and the one that ends at the last, or -1 exactly when there is none. |
| FlashSectors.OneBank | demos/DEMO_BAREMETAL_PRELOADER/common/cmd_flash.c:228-284 | Exactly which ranges a bank accepts, the sectors it then selects, and where the following banks go on. |
| FlashSectors.FillSectRanges | demos/DEMO_BAREMETAL_PRELOADER/common/cmd_flash.c:208-289 | The range is accepted exactly when each bank in turn accepts what is left of it; the selected ranges then follow each other inside it, each known bank where what is left starts with a sector is selected from there up to the end of the range or of the bank, and the count is the number of their sectors. |
| FlashSectors.OverTwoBanks | demos/DEMO_BAREMETAL_PRELOADER/common/cmd_flash.c:257-260 | A range from the start of a sector to the end of one in the next bank, told from start addresses and sizes alone, is accepted, and is all sectors in between. |
| FlashSectors.SelectedIsRun | demos/DEMO_BAREMETAL_PRELOADER/common/cmd_flash.c:208-289 | The selected sectors are exactly one contiguous run of addresses that begins at the first address and stays in the range. |
| FlashSectors.SectErase | demos/DEMO_BAREMETAL_PRELOADER/common/cmd_flash.c:418-454 | Exactly the selected ranges are erased, bank by bank up to the first failure, whose code is returned; nothing is erased, and the result is 1, when the range is refused or selects nothing. |
| FlashSectors.SectRoundB | demos/DEMO_BAREMETAL_PRELOADER/common/cmd_flash.c:112-148 | The end of the sector that holds the address, in the first bank that has one; 1 and no change exactly when none has. |
| FlashSectors.PlusLength | demos/DEMO_BAREMETAL_PRELOADER/common/cmd_flash.c:184-203 | The "+length" form ends with the sector that holds the last address asked for, and fails exactly when that is not in flash. |
| FlashSectors.RoundedRange | demos/DEMO_BAREMETAL_PRELOADER/common/cmd_flash.c:190-203 | A "+length" range from the start of a sector is accepted by its bank, and covers the sectors from there to the one that holds the last address. |
| Eeprom.ChunksFollow | demos/DEMO_BAREMETAL_PRELOADER/common/cmd_eeprom.c:222-274 | The transfers follow each other from the offset to the end, none empty, none over 128 bytes, none across a page, and each goes on to the end, to the end of a page, or to 128 bytes. |
| Eeprom.ChunksCover | demos/DEMO_BAREMETAL_PRELOADER/common/cmd_eeprom.c:236-256 | Each byte of the range is in exactly one transfer, no other byte is in any, and it is addressed on the device and at the offset where it belongs. |
| Eeprom.ChunksAddressed | demos/DEMO_BAREMETAL_PRELOADER/common/cmd_eeprom.c:139-156 | Each binary digit of the first address octet of a transfer is one if and only if that of the device address is, or that of the offset divided by 256, or by 65536 with two further octets. |
| Eeprom.CellHasOctets | demos/DEMO_BAREMETAL_PRELOADER/common/cmd_eeprom.c:139-156 | A byte belongs to the device that its offset addresses in this way, at the low octet of the offset, or at the two low ones. |
| Eeprom.WrapsToNothing | demos/DEMO_BAREMETAL_PRELOADER/common/cmd_eeprom.c:202-222 | An end that does not fit 32 bits wraps to one in front of the offset, and nothing is transferred. |
| Eeprom.PagesAreRespected | demos/DEMO_BAREMETAL_PRELOADER/common/cmd_eeprom.c:257-271 | Every transfer stays in its page if and only if pages have at most 256 bytes. |
| Eeprom.WrapStays | demos/DEMO_BAREMETAL_PRELOADER/common/cmd_eeprom.c:218-221 | The address counter of the device goes round in its page. |
| Eeprom.WriteAll | demos/DEMO_BAREMETAL_PRELOADER/common/cmd_eeprom.c:200-374 | The transfers made are those, whether or not some fail, and the result tells whether one failed; if none did, the bytes stand at their offsets and no other cell has changed. Nothing is written when offset + count does not fit a word. |
| Eeprom.ReadAll | demos/DEMO_BAREMETAL_PRELOADER/common/cmd_eeprom.c:126-189 | The buffer gets the bytes at the offsets if no transfer failed, and the rest of it is not touched. |
| Eeprom.WriteThenRead | demos/DEMO_BAREMETAL_PRELOADER/common/cmd_eeprom.c:126-374 | On a device whose counter wraps in its page, a write and a read that both succeed give the buffer back. |
| Bedbug.FieldHolds | demos/DEMO_BAREMETAL_PRELOADER/common/bedbug.c:824 | A value or-ed into a free field of the word is what that field then holds, for every width and shift. |
| Bedbug.OtherFields | demos/DEMO_BAREMETAL_PRELOADER/common/bedbug.c:824 | No other field changes. |
| Bedbug.AssembledIsShown | demos/DEMO_BAREMETAL_PRELOADER/common/bedbug.c:863-879 | An address that is assembled is shown again, absolute or relative, if and only if its distance is a multiple of four that the field has room for with its sign. |
| Bedbug.AssembledIsFollowed | demos/DEMO_BAREMETAL_PRELOADER/common/bedbug.c:1094-1126 | A branch assembled at the program counter keeps its form and its conditions, and is stepped to the address if and only if that is in range. |
| Bedbug.TestCondition | demos/DEMO_BAREMETAL_PRELOADER/common/bedbug.c:1160-1214 | The switch on the BO field takes a branch exactly when the architecture does and the bits that should be zero are. |
| Bedbug.FindNextAddress | demos/DEMO_BAREMETAL_PRELOADER/common/bedbug.c:1053-1233 | The address of the next instruction, stepping into a branch or over a call, for each form of the branch; false for an unknown opcode. |
| Bedbug.FollowsTheProcessor | demos/DEMO_BAREMETAL_PRELOADER/common/bedbug.c:1160-1228 | Exactly when that is where the processor goes. |
| BranchWords.StepsThroughRegister | demos/DEMO_BAREMETAL_PRELOADER/common/bedbug.c:1128-1152 | The word 19 * 2^26 + bo * 2^21 + bi * 2^16 + 16 * 2 + lk is stepped to the link register when it is taken, and with 528 in place of 16 to the count register; when it is taken is told from bo, bi, the condition register and the count. |
| BranchWords.StepsConditionally | demos/DEMO_BAREMETAL_PRELOADER/common/bedbug.c:1094-1109 | The word 16 * 2^26 + bo * 2^21 + bi * 2^16 + bd * 4 + aa * 2 + lk is stepped to the signed 14-bit bd times four, from the program counter or from zero, when it is taken. |
| BranchWords.StepsUnconditionally | demos/DEMO_BAREMETAL_PRELOADER/common/bedbug.c:1111-1126 | The word 18 * 2^26 + li * 4 + aa * 2 + lk is stepped to the signed 24-bit li times four, from the program counter or from zero. |
| BranchWords.StepsOn | demos/DEMO_BAREMETAL_PRELOADER/common/bedbug.c:1222-1228 | Any other word is stepped to the one behind it. |
| Bedbug.SwappedTwice | demos/DEMO_BAREMETAL_PRELOADER/common/bedbug.c:577-587 | Exchanging the halves of a ten-bit register number twice gives it back. |
| Bedbug.RegisterIsShown | demos/DEMO_BAREMETAL_PRELOADER/common/bedbug.c:611-641 | A time base register assembled into an instruction is recognized in it. |
| BranchWords.TimeBaseWord | demos/DEMO_BAREMETAL_PRELOADER/common/bedbug.c:577-587 | The word that reads a time base register into a register, put together from its fields. |
| LcdLine.Canvas.Pixel | demos/DEMO_LCD/LCD_Graphic.c:1166-1178 | The one bit of the point is set or cleared, and no other bit of the frame. |
| LcdLine.LitIsDigit | demos/DEMO_LCD/LCD_Graphic.c:1171-1173 | A point is lit if and only if the binary digit of weight 2^(y % 8) is one in the byte at width * (y / 8) + x, as a number. |
| LcdLine.Canvas.Line | demos/DEMO_LCD/LCD_Graphic.c:1180-1266 | Exactly the points given by one rounded division per step are set, in all four branches, and no other bit changes. |
| LcdLine.Accumulated | demos/DEMO_LCD/LCD_Graphic.c:1229-1233 | Adding to the accumulator, comparing and subtracting is the same as dividing and rounding. |
| LcdLine.OnePerColumn | demos/DEMO_LCD/LCD_Graphic.c:1227-1234 | A shallow line has exactly one point in each column from its first up to but not including its last. |
| LcdLine.DrawnIs | demos/DEMO_LCD/LCD_Graphic.c:1180-1266 | Which points are drawn, in numbers: from the end with the lower coordinate in the direction of the larger extent, one in each step, closest to the line that rises by the smaller extent, of two the one that has risen further, and the other end left out. |
| LcdLine.FollowsTheLine | demos/DEMO_LCD/LCD_Graphic.c:1207-1234 | Every point is within half a pixel of the true line if and only if the line does not fall, or has a single column. |
| LcdLine.DrawnTrue | demos/DEMO_LCD/LCD_Graphic.c:1180-1266 | The same for any two end points, shallow or steep, in either order. |
| LcdLine.StaysInside | demos/DEMO_LCD/LCD_Graphic.c:1207-1234 | A rising line between two points of the frame stays inside it. |
| LcdLine.PaintedIsLit | demos/DEMO_LCD/LCD_Graphic.c:1166-1178 | Two points of the frame never share a bit, so that exactly the points of the line are lit or cleared. |

## Left out

- `sscanf("%lf")` is a parameter (`Env.scansAsDouble`); `sscanf("%lld")` is the conforming one in the tokener and any
  one at all in `ParseInt`. Doubles are kept as the text they were read from, which is what `json_object_new_double_s`
  prints; printing of other doubles with `%.17g` is not modelled.
- Allocation failures, locale switching, statistics counters, the seed from the random device, user serialisers,
  `qsort`, and the overflow of 32-bit `int` sizes; buffers and counts are unbounded.
- StringReads.ItemsTaken: a fourth hexadecimal digit that is the terminator, followed by a further digit, shifts by a
  negative count in C; the machine stops there with the error `Undefined`.
- TokenerHeap.ParseIsAccounted: starts from a tokener that has no level which an earlier success reset while levels
  below it stayed open. Such a level comes from a terminator inside a comment.
- TokenerLoop.JsonTokener.ParseEx: with a length of -1 the call may look at the terminator but not behind it, and the
  model has no characters there.
- TokenerLoop.JsonTokener.CaseObjectValueAdd: the class holds values where C holds pointers; `TokenerHeap` follows the
  pointers through the steps of the same machine.
- PrinterLoop.PrintTo: `sprintbuf` appends the text that its format stands for; the formatting itself is the C
  library's.
- LinkHash.LhTable.Insert: asks for a table in order, which one is not that was resized below its load; of such a table
  `LinkHash.LhTable.Resize` says what it is and `LinkHash.ResizedTooSmall` what it misses. The load factor 0.66 is the
  fraction 66/100.
- Foreach.ForEach: ends where the loop would take a freed slot for an entry, since what the body does with the marker in
  the place of a key is not defined.
- HashLittle.HashAt: little-endian machines; the variant for a memory checker, which reads the tail byte by byte, is
  not modelled. Reading to the end of the last word is asked for as the code does it.
- Ownership.Objects.ObjectAdd: the slot of the replaced value counts as empty while that value is given up; in C it
  still holds the pointer for that time. The same goes for `ObjectDel` and `ArrayPutIdx`. On a heap with cycles a
  container must be held by somebody to be changed, since giving up its own slot may then delete it.
- LcdLine.Canvas.Line: the points must lie inside the frame, which the code does not check, and coordinates must be
  below 2^31, where `abs` is defined.
- FlashSectors.FillSectRanges: addresses do not wrap; known banks have ascending sectors and at least one.
- Bedbug.AssembledIsShown: 32-bit words and fields of at most 30 bits. The parsing of operand texts, the search in the
  opcode table, register names other than the time base, and the byte order conversion of little-endian hosts are left
  out.
- Bedbug.FindNextAddress: the entry of the opcode table is told from the instruction's own opcode bits.
- Eeprom.WriteAll: the build without FRAM and without the X40430 control register; delays are left out, and a failed
  transfer may leave anything behind.
- Freeing a tokener, the file helpers, iterators other than the foreach loop, sorting, and the accessors that convert
  between kinds of values would add easy members only.
- The network code of the miner, the drivers, and the other boot loader commands are thin wrappers around hardware or
  libraries that are not in the repository.
