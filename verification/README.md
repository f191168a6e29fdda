# A verified model of the redis client and its connection pool

The repository wraps the C client library hiredis in a connection pool. This project
models the parts of both in which state, arithmetic and protocols meet, and proves what
they promise:

* **Replies.** A resumable parser with a byte buffer, a cursor and nine slots builds
  reply objects while bytes trickle in. It is proved to do what a plain recursive parser
  does on the whole stream, however the stream is cut (`Resp`, `Reader`, `Session`), and to
  undo a printer of replies exactly as far as its slots reach (`RespPrint`). What the bytes of
  each kind of reply are, and when a stream is in error, is said on the bytes alone (`Wire`).
* **Commands.** Formatters compute an exact size first and then write that many bytes. The
  reader reads their output back as the arguments, and the second parser of the same bytes,
  which finds the channel names of a subscription, does too (`Command`, `CommandSds`,
  `CommandFormat`, `Arguments`), and what a format makes of its values is said word by word
  (`FormatLaws`). Below them are decimal text (`Decimal`, `NumberText`) and
  strings behind headers of varying width (`Sds`), with a quoting printer and the splitter
  that undoes it (`Quoting`); ranges, formatted appends, quoting and splitting are also said on
  positions and pieces (`SdsLaws`, `QuotingLaws`).
* **Callbacks.** The asynchronous context queues callbacks, hands replies to them, keeps
  subscriptions, and is torn down once. Callbacks re-enter it: the model runs a script of
  commands, disconnects and frees at every call. `Machine` is the context as a state machine
  on values, exact but for the order in which tables are listed at the teardown; `Events` are
  the events from outside and what holds of runs of them; `History` is what the user has seen;
  `Subscriptions` says
  from the log of commands and messages alone who is subscribed to what, and `Ledger` that the
  tables, the mode and the output are just that; `Async` is the class with its linked lists and flags, which does what the machine does
  (`CallbackList`, `PubSub`). `Conversation` joins it with the reader: bytes cut anyhow come
  in, and callbacks run with the replies that they spell.
* **Tables.** A chained hash table refines a map, also while it grows, and its iterator
  survives the deletion of what it has just handed out (`Dict`, `DictIterator`).
* **The pool.** Sockets on a linked list are searched in a circle, connected with fail-over,
  used, and released. `Pool` is the pool as one thread sees it; `PoolProtocol` is the same
  protocol with any number of users whose steps interleave; `Failover` is the arithmetic of
  going round.

What comes from outside is a parameter: bytes and how they are cut, the results of reads,
writes and connects, the clock, random numbers, answers to commands, hash functions, and the
actions of user callbacks. Values and their operations are datatypes and functions; objects
that the code updates in place are classes whose methods are proved against such functions.

All files: `dafny verify dfyconfig.toml`.

## Where the code is looser than its documentation

* Nesting: a limit of 7 is documented (`experimental/redisclient/hiredis/README.md:367-368`);
  the code accepts arrays in slots 0 to 7, that is eight levels with the root, and rejects
  one in slot 8, and only there. `RespPrint.ParseOfPrint` states the exact limit.
* Every negative bulk length is a nil, the two bytes after a bulk are not looked at, a
  malformed number is -1, and a number ends at the first CR. The reference parser `Resp.Parse`
  does all of this as the code does.
* An array count below -1 makes an array object that announces the count and has no elements.
  It is a reply of its own, `Hollow`.
* `redisFormatSdsCommandArgv` prints lengths with a directive that sees 32 bits, so it agrees
  with the other formatter if and only if all arguments are shorter than 2^32
  (`CommandSds.SameBytesIff`). The assertion on the size holds a little longer: exactly if no
  length loses digits by the cut (`CommandSds.SameSizeIff`). An argument of 2^32 bytes fails
  both (`CommandSds.FirstFailure`).
* `nextArgument` casts a length to `int`, so it finds an argument if and only if that is
  shorter than 2^31 (`Arguments.FindsArgument`).
* While a connection is in progress the check of the socket already leaves an error in the
  context, so the first read or write that finds it established frees the context, however
  that read or write goes (`Events.FailsAfterProgress`). An event that goes well frees the
  context with an error if and only if one was left behind (`Events.EndsWell`).
* A message for a name that is not registered runs the callback that the previous reply
  left behind. The model keeps this, with the callback and the reply (`Events.StaleRuns`);
  such runs are marked `Stale`, and the guarantees about ordinary callbacks do not speak
  about them.

## Model

| member | source | states |
|---|---|---|
| `Bytes.NewlineAt` | experimental/redisclient/hiredis/read.c:120-143 | position of the first CR LF: none means there is none anywhere, some means one is there and none before |
| `Reader.SeekNewline` | experimental/redisclient/hiredis/read.c:120-143 | the nested scans, which look for CR and then for LF behind it, find the first CR LF or report none |
| `Decimal.ReadOfDec` | experimental/redisclient/hiredis/read.c:148-173 | the canonical decimal text of any integer, followed by CR and anything, is read as that integer |
| `Decimal.ReadLongLongExtends` | experimental/redisclient/hiredis/read.c:148-173 | the number read from a text with a CR does not depend on what is appended |
| `Decimal.DecInjective` | experimental/redisclient/hiredis/sds.c:461-487 | different integers, negative ones included, have different texts |
| `Wire.DecimalDigits` | experimental/redisclient/hiredis/sds.c:461-487 | numbers are written in base ten, the last digit last |
| `Wire.GarbageNumber` | experimental/redisclient/hiredis/read.c:148-173 | any byte in a number that is no digit and no sign in front makes it -1 |
| `Wire.PlusSign` | experimental/redisclient/hiredis/read.c:148-173 | a plus sign changes nothing |
| `Reader.ScanLongLong` | experimental/redisclient/hiredis/read.c:148-173 | the digit loop reads sign, digits up to the first CR, and -1 for anything malformed |
| `Resp.Parse` | experimental/redisclient/hiredis/read.c:367-414 | the reference parser always consumes at least one byte of a finished item |
| `Resp.ParseExtends` | experimental/redisclient/hiredis/read.c:367-414 | more input never changes a finished or malformed outcome; only the rest grows |
| `Resp.ResumeNext` | experimental/redisclient/hiredis/read.c:190-213 | handing a non-last element to the innermost open array continues with its next element |
| `Resp.ResumeLast` | experimental/redisclient/hiredis/read.c:190-213 | handing over the last element finishes the array and goes on outwards |
| `Resp.ResumeOpen` | experimental/redisclient/hiredis/read.c:336-352 | starting an array of n > 0 elements is the same as opening a frame |
| `Resp.FutureShrinks` | experimental/redisclient/hiredis/read.c:477-525 | a suspended parse that finishes leaves no more than it had, and less if it had not read the type |
| `Resp.FutureExtends` | experimental/redisclient/hiredis/read.c:445-525 | a suspended parse that is done or failed stays so when more is fed |
| `Reader.RepresentsMonotone` | experimental/redisclient/hiredis/hiredis.c:102-189 | a reply object tree spells its value also when more vectors count as finished |
| `Reader.Reader.constructor` | experimental/redisclient/hiredis/read.c:416-435 | a new reader is between replies, without error and with nothing unread |
| `Reader.Reader.SetError` | experimental/redisclient/hiredis/read.c:46-70 | an error empties buffer and stack and stays |
| `Reader.Reader.Attach` | experimental/redisclient/hiredis/hiredis.c:121-130 | a new object is written into the slot of its parent and nowhere else |
| `Reader.Reader.CreateArray` | experimental/redisclient/hiredis/hiredis.c:134-157 | an array object with a vector of n empty slots is attached to its parent |
| `Reader.Reader.MoveToNextTask` | experimental/redisclient/hiredis/read.c:190-213 | whatever is fed later, the stack left behind continues exactly as the reference parser does after the finished item; the parent checks never fail |
| `Reader.Reader.ReadLine` | experimental/redisclient/hiredis/read.c:175-188 | a line is returned and consumed exactly when its CR LF is there |
| `Reader.Reader.ProcessLineItem` | experimental/redisclient/hiredis/read.c:215-247 | the step keeps the future of the parse; if it cannot go on nothing is consumed and the parse is incomplete |
| `Reader.Reader.CreateBulk` | experimental/redisclient/hiredis/read.c:249-300 | the object and byte count of a bulk item, nil for a negative length, nothing while bytes are missing |
| `Reader.Reader.ProcessBulkItem` | experimental/redisclient/hiredis/read.c:249-300 | as for a line item: the future is kept, or more input is needed |
| `Reader.Reader.OpenArray` | experimental/redisclient/hiredis/read.c:336-352 | the slot becomes an open array and the next slot is its first element |
| `Reader.Reader.ProcessMultiBulkItem` | experimental/redisclient/hiredis/read.c:302-365 | the future is kept, more input is needed, or the array is too deep and that is the error |
| `Reader.Reader.ProcessItem` | experimental/redisclient/hiredis/read.c:367-414 | one step keeps the future of the parse, needs input, or sets the protocol error exactly when the reference parser fails |
| `Reader.Reader.Compact` | experimental/redisclient/hiredis/read.c:508-513 | dropping 1024 or more consumed bytes changes nothing unread and leaves the stack in order |
| `Reader.Reader.Feed` | experimental/redisclient/hiredis/read.c:445-475 | appends to the unread bytes unless the reader is in error |
| `Reader.Reader.GetReply` | experimental/redisclient/hiredis/read.c:477-525 | refinement: the reply tree, the rest, "incomplete" or the sticky error are those of the reference parser; an incomplete parse can be resumed after any feed |
| `Wire.ErrorIsFinal` | experimental/redisclient/hiredis/read.c:367-525 | a stream is in error if and only if no continuation brings another reply |
| `Wire.StreamCompletes` | experimental/redisclient/hiredis/read.c:367-525 | a stream that is not in error has a continuation that completes exactly one more reply |
| `Wire.UnknownByte` | experimental/redisclient/hiredis/read.c:371-396 | after complete replies any byte but + - : $ * is an error at once, whatever follows |
| `Wire.Refuse` | experimental/redisclient/hiredis/read.c:371-396 | fed such a stream in any pieces, the reader hands out the replies and stops with the protocol error |
| `Wire.SpellsText` | experimental/redisclient/hiredis/read.c:215-247 | `+` and `-` begin a line of text, byte for byte |
| `Wire.SpellsInteger` | experimental/redisclient/hiredis/read.c:215-247 | `:` begins a number |
| `Wire.SpellsBulk` | experimental/redisclient/hiredis/read.c:249-300 | `$` begins a length with so many bytes behind its line, and a negative one is nil |
| `Wire.BulkEnd` | experimental/redisclient/hiredis/read.c:249-300 | the two bytes behind a bulk do not matter |
| `Wire.SpellsArray` | experimental/redisclient/hiredis/read.c:302-365 | `*` begins a count with so many replies behind its line; nine in each other are one too many |
| `Wire.SpellsNoArray` | experimental/redisclient/hiredis/read.c:302-365 | a count of -1 is nil, and one below is a hollow array |
| `Wire.RepresentsOne` | experimental/redisclient/hiredis/hiredis.c:102-189 | a reply object spells one value only |
| `Sds.SliceTail` | experimental/redisclient/hiredis/read.c:508-513 | the range that compaction asks for is what stands behind the cursor |
| `Session.TranscriptExtends` | experimental/redisclient/hiredis/read.c:477-525 | the replies of a stream are a prefix of those of every longer stream |
| `Session.Drain` | experimental/redisclient/hiredis/read.c:477-525 | asking for replies until there is none hands out exactly those that the fed bytes complete |
| `Session.FeedAndDrain` | experimental/redisclient/hiredis/read.c:445-525 | feeding one more piece keeps reader and replies in step with the stream so far |
| `Session.Replay` | experimental/redisclient/hiredis/read.c:445-525 | for every way of cutting a stream, replies and final error state are those of the whole stream |
| `RespPrint.ParseOfPrint` | experimental/redisclient/hiredis/read.c:302-414 | a printed reply is read back, whatever follows, if and only if its nesting fits the slots; otherwise it is an error |
| `RespPrint.TranscriptOfPrint` | experimental/redisclient/hiredis/read.c:477-525 | a stream of printed replies within the limit gives exactly these replies |
| `NumberText.ReversedSnoc` | experimental/redisclient/hiredis/sds.c:446-455 | writing a digit behind puts it in front after the reversal |
| `NumberText.ReverseInPlace` | experimental/redisclient/hiredis/sds.c:446-455 | the swap loop reverses the first n bytes and touches no others |
| `NumberText.SizeOfDec` | experimental/redisclient/hiredis/sds.c:425-428 | every 64-bit number with its sign and NUL fits 21 bytes |
| `NumberText.PutDigits` | experimental/redisclient/hiredis/sds.c:429-487 | digits backwards, sign, reversal and NUL: the canonical text of the number |
| `NumberText.CountDigits` | experimental/redisclient/hiredis/hiredis.c:193-203 | the digit count is the length of the canonical text |
| `Sds.ReqType` | experimental/redisclient/hiredis/sds.c:57-74 | the header type chosen for a size can hold it |
| `SdsLaws.SmallestHeader` | experimental/redisclient/hiredis/sds.c:57-74 | the type chosen is the smallest: one before it would not hold even one more byte |
| `Sds.Sds.constructor` | experimental/redisclient/hiredis/sds.c:81-135 | the new string holds the bytes, exactly filled; an empty one is not of type 5 |
| `Sds.Sds.Zeroed` | experimental/redisclient/hiredis/sds.c:81-135 | without initial bytes the new string is that many zero bytes |
| `Sds.Sds.SetLen` | experimental/redisclient/hiredis/sds.h:129-151 | the stored length is the given one if and only if it fits the header field; otherwise multiples of the width of the field are lost |
| `Sds.Sds.SetAlloc` | experimental/redisclient/hiredis/sds.h:196-215 | the same for the capacity; with a type 5 header nothing is stored and the capacity stays the length |
| `Sds.Sds.MakeRoomFor` | experimental/redisclient/hiredis/sds.c:194-239 | room for so many bytes, the same content, the doubling policy below one megabyte and a wide enough header |
| `Sds.Sds.RemoveFreeSpace` | experimental/redisclient/hiredis/sds.c:245-269 | the same content without spare room, behind the smallest header |
| `Sds.Sds.CatLen` | experimental/redisclient/hiredis/sds.c:376-385 | appends bytes, NULs included |
| `Sds.Sds.CpyLen` | experimental/redisclient/hiredis/sds.c:405-414 | replaces the content |
| `Sds.Sds.GrowZero` | experimental/redisclient/hiredis/sds.c:358-370 | appends zero bytes up to a length and never shortens |
| `Sds.RangeBounds` | experimental/redisclient/hiredis/sds.c:712-738 | clipping two indexes, negative ones counting from the end, gives the stretch that is meant |
| `SdsLaws.SliceMeans` | experimental/redisclient/hiredis/sds.c:712-738 | both ends of a range are kept, negative positions count from the last byte, and nothing lies beyond the ends |
| `Sds.Sds.Range` | experimental/redisclient/hiredis/sds.c:712-738 | keeps exactly the stretch between two indexes, negative or out of range |
| `Sds.Sds.IncrLen` | experimental/redisclient/hiredis/sds.c:312-352 | moves the end within the capacity and keeps the bytes before it |
| `Sds.Sds.CatFmt` | experimental/redisclient/hiredis/sds.c:579-665 | appends the text that a format and its arguments stand for, growing on the way |
| `SdsLaws.FormatMeans` | experimental/redisclient/hiredis/sds.c:579-665 | every piece of a format contributes its text, in order: C strings, strings with a length, signed and unsigned numbers, escaped bytes |
| `Quoting.CatRepr` | experimental/redisclient/hiredis/sds.c:856-879 | the loop appends the quoted form of the bytes |
| `Quoting.EscapesRead` | experimental/redisclient/hiredis/sds.c:856-1039 | the scan within quotes reads escaped bytes back, whatever they are |
| `Quoting.ReprRead` | experimental/redisclient/hiredis/sds.c:856-1039 | a quoted string at the front of a line is one token, and the rest is what follows |
| `Quoting.SplitOfJoin` | experimental/redisclient/hiredis/sds.c:856-1039 | splitting quoted strings joined by spaces gives back exactly the strings, empty ones, NULs and quotes included |
| `QuotingLaws.SplitOfLine` | experimental/redisclient/hiredis/sds.c:931-1039 | bare words, text between apostrophes and text between quotes, with a space between them, split into exactly these texts |
| `QuotingLaws.Misplaced` | experimental/redisclient/hiredis/sds.c:931-1039 | a quote that is not closed, or is closed in the middle of a word, is an error |
| `QuotingLaws.EscapeMeans` | experimental/redisclient/hiredis/sds.c:856-879 | how each byte is quoted: backslash, letter, as it stands, or in hexadecimal |
| `QuotingLaws.ReprOfText` | experimental/redisclient/hiredis/sds.c:856-879 | printable text without quotes and backslashes is quoted by quotes around it |
| `Quoting.QuotedStep` | experimental/redisclient/hiredis/sds.c:948-982 | one step of the loop within double quotes, hexadecimal and letter escapes and the closing rule, as the scanner specifies |
| `Quoting.SingleStep` | experimental/redisclient/hiredis/sds.c:983-997 | the same within single quotes |
| `Quoting.PlainStep` | experimental/redisclient/hiredis/sds.c:998-1017 | the same outside quotes |
| `Quoting.GetToken` | experimental/redisclient/hiredis/sds.c:941-1019 | the token loop finds the token and its end, or the unbalanced quote |
| `Quoting.SplitArgs` | experimental/redisclient/hiredis/sds.c:931-1039 | the outer loop returns the tokens of the line, or nothing if quotes are unbalanced |
| `Command.FormatCommandArgv` | experimental/redisclient/hiredis/hiredis.c:530-566 | writes exactly the precomputed number of bytes, and they are the command |
| `Command.Assemble` | experimental/redisclient/hiredis/hiredis.c:541-561 | the write loop ends at the precomputed size |
| `Command.BulkLen` | experimental/redisclient/hiredis/hiredis.c:206-208 | the precomputed size of an argument is what it takes on the wire |
| `Command.ParseOfEncode` | experimental/redisclient/hiredis/hiredis.c:530-566 | the reader takes a command, whatever follows, for the array of its arguments and consumes exactly the command |
| `Command.EncodeInjective` | experimental/redisclient/hiredis/hiredis.c:530-566 | different argument lists have different bytes |
| `Wire.SpellsCommand` | experimental/redisclient/hiredis/hiredis.c:530-566 | a command is an array of bulk strings, byte for byte |
| `Command.TranscriptOfCommands` | experimental/redisclient/hiredis/hiredis.c:961-989 | a pipeline of commands, whatever follows, is read as exactly those commands and then as what follows |
| `Command.Receive` | experimental/redisclient/hiredis/read.c:445-525 | a pipeline of formatted commands, fed to the reader in any pieces, comes out as the arrays of their arguments without an error, all bytes are consumed, and no array is left open |
| `RespPrint.AtRest` | experimental/redisclient/hiredis/read.c:477-525 | a parse that adds nothing to the replies of any later input has no open array, no type byte read and no byte left |
| `CommandSds.FormatSdsCommandArgv` | experimental/redisclient/hiredis/hiredis.c:477-519 | the string built by formatted appends; the assertion on its size holds exactly if every length is below 2^32, or has ten digits and so have its lower 32 bits |
| `CommandSds.SameSizeIff` | experimental/redisclient/hiredis/hiredis.c:477-519 | the announced size is the size of the result if and only if every length keeps its number of digits |
| `CommandSds.KeepsDigitsIff` | experimental/redisclient/hiredis/hiredis.c:502-506 | which lengths keep their number of digits when cut to 32 bits |
| `CommandSds.FirstFailure` | experimental/redisclient/hiredis/hiredis.c:502-516 | an argument of 2^32 bytes: other bytes than those of the other formatter, and not of the announced size |
| `CommandSds.SameBytesIff` | experimental/redisclient/hiredis/hiredis.c:477-566 | both formatters give the same bytes if and only if every argument is shorter than 2^32 |
| `CommandFormat.WordsTakeAll` | experimental/redisclient/hiredis/hiredis.c:227-378 | the words of a format take exactly the values that the format takes |
| `CommandFormat.WordsAreWords` | experimental/redisclient/hiredis/hiredis.c:227-240 | the words, and so the number of arguments, come from the format alone and are never empty, whatever values are filled in |
| `CommandFormat.CollectWords` | experimental/redisclient/hiredis/hiredis.c:227-390 | the scan collects the space-separated words with the values filled in, empty values included, and counts their bytes |
| `CommandFormat.FormatCommand` | experimental/redisclient/hiredis/hiredis.c:210-417 | the same command as the argument formatter makes of these words, with the precomputed size |
| `FormatLaws.FormatMeans` | experimental/redisclient/hiredis/hiredis.c:227-390 | in every word plain text and `%%` stand as they are, a `%b` for its whole value and a `%s` for its value up to the first NUL, side by side as in the format |
| `FormatLaws.FormatWords` | experimental/redisclient/hiredis/hiredis.c:210-417 | the formatter makes exactly the command of these words |
| `FormatLaws.FormatEach` | experimental/redisclient/hiredis/hiredis.c:210-417 | `%b %b ... %b` makes the command of any values, and `%s ... %s` of any without NUL |
| `FormatLaws.Surrounded` | experimental/redisclient/hiredis/hiredis.c:227-268 | text around a directive stays where it is |
| `FormatLaws.CutAtNul` | experimental/redisclient/hiredis/hiredis.c:256-261 | a `%s` is cut at the first NUL |
| `Arguments.FindsArgument` | experimental/redisclient/hiredis/async.c:566-578 | the call after argument j - 1 finds argument j, and after the last there is nothing, if and only if the cast to `int` keeps the length: the argument is shorter than 2^31 |
| `Arguments.FoundIsArgument` | experimental/redisclient/hiredis/async.c:566-578 | the place and length that are found are those of the bytes of the argument |
| `Arguments.FindsFirst` | experimental/redisclient/hiredis/async.c:566-578 | the first call skips the header of the command and finds the first argument, again exactly if that is shorter than 2^31 |
| `Arguments.CollectArguments` | experimental/redisclient/hiredis/async.c:566-612 | repeated calls on a formatted command of arguments shorter than 2^31 give exactly its arguments, arbitrary bytes, in order |
| `CallbackList.LinkedSnoc` | experimental/redisclient/hiredis/async.c:240-246 | a chain ends in a node exactly if the rest ends there and the node points on |
| `CallbackList.CallbackList.Push` | experimental/redisclient/hiredis/async.c:227-247 | linking a node behind the tail adds to the end of the queue |
| `CallbackList.CallbackList.Shift` | experimental/redisclient/hiredis/async.c:249-263 | takes the front of the queue, or reports that it is empty |
| `PubSub.ReadCommand` | experimental/redisclient/hiredis/async.c:600-620 | comparing the raw bytes of the formatted command recognises (p)subscribe and (p)unsubscribe by whole name, and the names listed are the other arguments |
| `Subscriptions.ClassifyMeans` | experimental/redisclient/hiredis/async.c:600-630 | (p)subscribe with a name and (p)unsubscribe, in letters of either size and up to the first line end, are the special commands, and no others |
| `Subscriptions.MessageMeans` | experimental/redisclient/hiredis/async.c:371-396 | a first item that begins with p makes a message one of a pattern, and (p)unsubscribe takes its name off |
| `PubSub.WithinName` | experimental/redisclient/hiredis/async.c:604-621 | the comparison with its line end cannot match beyond the name |
| `PubSub.NameText` | experimental/redisclient/hiredis/async.c:601-603 | where the name stands in the block, and that a `$` behind it means another argument |
| `History.SoundServing` | experimental/redisclient/hiredis/async.c:439-469 | serving the front of the queue keeps: served then waiting is accepted, runs are what was served, and the replies are those given, in order, interleaved with the strays |
| `History.SoundAside` | experimental/redisclient/hiredis/async.c:364-409 | the same for the callbacks of commands sent while subscribed |
| `History.RunsAsExpected` | experimental/redisclient/hiredis/async.c:437-471 | runs of what was served, with the replies by place, are the runs that the accepted commands call for |
| `History.SoundInOrder` | experimental/redisclient/hiredis/async.c:437-471 | what always holds makes the runs of ordinary callbacks the expected ones, with the replies that are no strays; without strays these are all replies |
| `History.UnansweredSnoc` | experimental/redisclient/hiredis/async.c:281-300 | one more callback without a reply is run at the end |
| `History.Concluded` | experimental/redisclient/hiredis/async.c:302-317 | closing adds the disconnect callback and the one free at the end of the history, and no ordinary run |
| `Async.Register` | experimental/redisclient/hiredis/async.c:611-620 | the loop over names leaves the new callback at exactly the names listed |
| `Async.AsyncContext.AsyncCommand` | experimental/redisclient/hiredis/async.c:583-648 | refused exactly while closing or when it unsubscribes from nothing, and then nothing changes; an ordinary command joins queue and accepted ones, or those put aside while subscribed, tables stay, and its bytes join the output |
| `Ledger.OrdinaryCommand` | experimental/redisclient/hiredis/async.c:583-648 | the whole state after a command that is not special, subscribed or not |
| `Ledger.SubscribeCommand` | experimental/redisclient/hiredis/async.c:608-620 | the whole state after SUBSCRIBE and PSUBSCRIBE: every name listed is the callback's, other names and the other table stay |
| `Ledger.UnsubscribeCommand` | experimental/redisclient/hiredis/async.c:621-630 | the whole state after (P)UNSUBSCRIBE: only the output grows |
| `Ledger.RefusedCommand` | experimental/redisclient/hiredis/async.c:590-626 | when exactly a command is refused, and that nothing changes then |
| `Machine.CommandedNotes` | experimental/redisclient/hiredis/async.c:583-648 | a command adds at most its callback, at the end of a list and of its log alike, and nothing while the context is about to go |
| `Machine.AllNotedNotes` | experimental/redisclient/hiredis/async.c:265-272 | whatever a callback asks for, callbacks only join the lists at their ends, and disconnecting and freeing are noted exactly if asked for |
| `Machine.AllNotedWithin` | experimental/redisclient/hiredis/async.c:265-272 | the flag that says that a callback runs makes no difference to what the callback asks for |
| `Async.AsyncContext.Perform` | experimental/redisclient/hiredis/async.c:265-272 | from within a callback a command takes effect as outside, and disconnect and free are noted, and nothing else |
| `Async.AsyncContext.RunCallback` | experimental/redisclient/hiredis/async.c:265-272 | a callback runs once, and exactly all that it asks for takes effect |
| `Ledger.CallbackCommands` | experimental/redisclient/hiredis/async.c:439-471 | a callback that sends an ordinary command: it waits behind those that waited, and its bytes join the output |
| `Ledger.CallbackEnds` | experimental/redisclient/hiredis/async.c:471-480 | a callback that frees is the end after its reply; one that disconnects is noted |
| `Async.AsyncContext.Serve` | experimental/redisclient/hiredis/async.c:439-471 | the shifted callback is served with its reply or with none, and runs |
| `Async.AsyncContext.DrainReplies` | experimental/redisclient/hiredis/async.c:281-283 | terminates with every waiting callback served and run once, in order, without a reply |
| `Async.AsyncContext.DrainInvalid` | experimental/redisclient/hiredis/async.c:285-287 | the same for the commands sent while subscribed |
| `Async.AsyncContext.NotifyAll` | experimental/redisclient/hiredis/async.c:289-300 | the callback of every channel or pattern is run once without a reply |
| `Async.AsyncContext.FreeNow` | experimental/redisclient/hiredis/async.c:275-317 | what runs is the waiting callbacks in order, those sent while subscribed, channels, patterns, then the disconnect callback with its status if it is due, then the free; what the callbacks ask for on the way is noted, no command is accepted, and afterwards nothing is pending |
| `Async.AsyncContext.DisconnectNow` | experimental/redisclient/hiredis/async.c:331-349 | the assertion that an error-free disconnect has nothing pending never fails; then the whole teardown |
| `Async.AsyncContext.AsyncFree` | experimental/redisclient/hiredis/async.c:323-328 | within a callback it is only noted; otherwise the whole teardown follows at once |
| `Async.AsyncContext.AsyncDisconnect` | experimental/redisclient/hiredis/async.c:357-362 | within a callback it is only noted; otherwise the whole teardown follows at once exactly if nothing waits, and else further commands are refused |
| `Events.AsksToEnd` | experimental/redisclient/hiredis/async.c:323-362 | outside callbacks a free ends the context at once, and a disconnect exactly if nothing waits |
| `Events.TeardownTold` | experimental/redisclient/hiredis/async.c:275-317 | the whole trace of a teardown: those who wait, those put aside, channels, patterns, each once, then the disconnect callback with its status, then the free |
| `Async.AsyncContext.FindCallback` | experimental/redisclient/hiredis/async.c:375-402 | a message for a registered name goes to the callback registered last; an unsubscription removes the name and perhaps the mode; another name leaves what was at hand |
| `Async.AsyncContext.GetSubscribeCallback` | experimental/redisclient/hiredis/async.c:364-409 | messages by name, other replies to the oldest command sent while subscribed, and when an assertion fails |
| `Async.AsyncContext.TakeStray` | experimental/redisclient/hiredis/async.c:439-466 | the whole step of a reply for nobody: an error reply closes the connection, an unsubscribed context aborts, a message goes to the callback of its name, and anything else to the oldest callback sent while subscribed |
| `Async.AsyncContext.TakeReply` | experimental/redisclient/hiredis/async.c:437-471 | the whole step of a reply: the oldest waiting callback runs with it if there is one, all that it asks for takes effect, and the context is freed if that was asked for |
| `Events.EachTaken` | experimental/redisclient/hiredis/async.c:411-489 | in a read each reply is taken in the state that those before it leave, as long as the context lives |
| `Events.OldestAnswered` | experimental/redisclient/hiredis/async.c:437-471 | while a command waits, a reply runs the oldest callback and no other |
| `Events.MessageRouted` | experimental/redisclient/hiredis/async.c:375-402 | whenever no command waits, a well-formed message for a registered name runs the callback registered last and no other, and an unsubscription takes the name off |
| `Ledger.MessageToLatest` | experimental/redisclient/hiredis/async.c:364-402 | a message runs the callback of the latest subscription to its name that has not been taken off since, by the texts of all commands and messages so far |
| `Ledger.SubscribedThenTold` | experimental/redisclient/hiredis/async.c:364-402 | the first message for a name of a subscription runs the callback that came with it, channels and patterns apart |
| `Ledger.TakenOffTells` | experimental/redisclient/hiredis/async.c:386-400 | a message that takes a name off runs the same callback once more, and has to count |
| `Ledger.RoutedInRead` | experimental/redisclient/hiredis/async.c:364-489 | the same for any reply of a read, in the state that those before it leave |
| `Ledger.BookedTakenAll` | experimental/redisclient/hiredis/async.c:364-489 | between the replies of a read tables, mode and output are what the log says |
| `Events.AsideAnswered` | experimental/redisclient/hiredis/async.c:403-409 | whenever no command waits, a reply that is no array runs the oldest callback of a command sent while subscribed |
| `Events.StaleRuns` | experimental/redisclient/hiredis/async.c:375-402 | a message for another name runs the callback that the previous reply left at hand |
| `Machine.TakenFit` | experimental/redisclient/hiredis/async.c:411-489 | after a reply the state is in order, or ready to be torn down; the teardown assertion holds |
| `Async.AsyncContext.ProcessCallbacks` | experimental/redisclient/hiredis/async.c:411-489 | exactly the replies one after the other until the context ends, then freed with an error if the reader failed, or freed if disconnecting was asked for and nothing is left to send or wait for, and else alive |
| `Async.AsyncContext.Settle` | experimental/redisclient/hiredis/async.c:418-435 | freed exactly if the reader failed or a disconnect was asked for and nothing is left to send or wait for |
| `Async.AsyncContext.HandleConnect` | experimental/redisclient/hiredis/async.c:494-511 | the whole step: connected and the user told so; or still in progress, with nothing changed but an error left behind; or the user told and the context freed |
| `Events.ConnectTold` | experimental/redisclient/hiredis/async.c:494-511 | the connect callback is called first, with the outcome; a refused connect ends the context |
| `Async.AsyncContext.Receive` | experimental/redisclient/hiredis/async.c:528-534 | the whole step: an error left behind, of the read or at its end frees the context with that error; otherwise the replies are processed |
| `Async.AsyncContext.HandleRead` | experimental/redisclient/hiredis/async.c:516-535 | the whole step from the state before to the state after: what a connection not yet up, an error left behind, each result of the read, and the replies do |
| `Async.AsyncContext.Send` | experimental/redisclient/hiredis/hiredis.c:831-858 | drops exactly what was written from the output and changes nothing if there is none; an error left behind or of the write frees the context with that error |
| `Events.SentByEvent` | experimental/redisclient/hiredis/hiredis.c:831-858 | a write hands over the first n bytes that wait, or all of them, and what waits is the rest; nothing else sends |
| `Events.BookedKept` | experimental/redisclient/hiredis/async.c:494-648 | after every event the bytes sent and those that wait are the commands accepted, in order, and the tables and the mode are those of the log |
| `Events.SocketErrors` | experimental/redisclient/hiredis/async.c:516-562 | errors of reads and writes, the end of the stream and a broken stream end the context, with their codes |
| `Events.StreamErrors` | experimental/redisclient/hiredis/async.c:439-489 | a reader error, an error reply to nobody, and any other reply to nobody while not subscribed |
| `Async.AsyncContext.HandleWrite` | experimental/redisclient/hiredis/async.c:537-562 | the whole step, for an established connection or not yet, with the bytes dropped and the outcome of errors |
| `Async.AsyncContext.Run` | experimental/redisclient/hiredis/async.c:411-648 | for every sequence of events: each is exactly a step of the machine; every state in between is in order; the replies taken are a prefix of those that the events bring, and all of them unless the context ends; ordinary callbacks ran once, in order; if no reply arrives before its command was accepted none goes astray and no assertion fails; and if besides there is no error and nobody asks to disconnect or to free, the context lives and has taken all replies |
| `Events.LeftBehind` | experimental/redisclient/hiredis/async.c:494-562 | an error left behind frees the context, with that error, at any event that finds the connection up, however it goes |
| `Events.FailsAfterProgress` | experimental/redisclient/hiredis/async.c:494-562 | in a whole run, after an attempt found in progress, whatever else happens, the first event that finds the connection established frees the context with the error of the attempt |
| `Events.TidyKept` | experimental/redisclient/hiredis/async.c:411-562 | if no reply arrives before its command was accepted, no event makes one go astray or an assertion fail |
| `Events.CalmSoFarStep` | experimental/redisclient/hiredis/async.c:411-648 | without an error and with nobody asking to end it the context stays alive |
| `Events.SteppedOnward` | experimental/redisclient/hiredis/async.c:411-648 | whatever happens, histories only grow, the connection comes up once, and replies arrive when they are read |
| `Events.EndsWell` | experimental/redisclient/hiredis/async.c:494-562 | an event that goes well frees the context with an error if and only if one was left behind, and with that one; otherwise a write leaves it alive, and a read frees it if and only if a callback asked for that or disconnecting was asked for and nothing is left to send or wait for |
| `Events.SteppedReads` | experimental/redisclient/hiredis/async.c:516-535 | one event takes the replies that it brings, in order, and all of them unless the context ends |
| `Events.ReadSoFarStep` | experimental/redisclient/hiredis/async.c:516-535 | the same for a run and one more event; nothing is read before the connection is up |
| `History.OrderlyArrival` | experimental/redisclient/hiredis/async.c:411-489 | if no reply arrives before its command was accepted, those that arrive together are no more than the commands that wait |
| `Async.AsyncContext.FifoOnce` | experimental/redisclient/hiredis/async.c:227-489 | in every state between events the ordinary callbacks that ran are those of the first accepted commands, once each, in order, the i-th with the i-th reply that is no stray and those left at teardown with none; those of commands sent while subscribed ran once each, in order; after the free these are all of them and nothing follows |
| `Conversation.WholeStream` | experimental/redisclient/hiredis/async.c:516-535 | however a stream of bytes is cut, and whatever the user asks for in between, the replies that the events bring are those of the whole stream |
| `Conversation.Listen` | experimental/redisclient/hiredis/async.c:516-535 | from bytes to callbacks: ordinary callbacks run once each, in order, with the replies that the whole stream spells; a well-formed stream in good order, with nobody ending the context, is answered in full |
| `Conversation.Exchange` | experimental/redisclient/hiredis/async.c:411-648 | ordinary commands on a connected context and then at most so many replies: every callback has run on exactly the reply of its place, nothing is astray, and the context lives |
| `Dict.MaskIsMod` | experimental/redisclient/hiredis/dict.c:96-113 | masking with size - 1 is the remainder for every power of two |
| `Dict.NextPower` | experimental/redisclient/hiredis/dict.c:306-316 | the smallest power of two that is at least 4 and at least the size |
| `Dict.Dict.Find` | experimental/redisclient/hiredis/dict.c:243-256 | null exactly if the key is not in the map, else the entry with its value |
| `Dict.Dict.UsedIsSize` | experimental/redisclient/hiredis/dict.c:88-133 | the count of entries is the size of the map |
| `Dict.Dict.MoveAll` | experimental/redisclient/hiredis/dict.c:103-127 | every entry is relinked once, into its bucket of the new table, and the count of those left ends at zero |
| `Dict.Dict.Expand` | experimental/redisclient/hiredis/dict.c:88-133 | growing leaves the map as it is; it fails exactly if the wanted size is too small |
| `Dict.Dict.Add` | experimental/redisclient/hiredis/dict.c:135-154 | adds a key exactly if it was not there |
| `Dict.Dict.Replace` | experimental/redisclient/hiredis/dict.c:160-179 | sets the value of a key and tells whether the key is new |
| `Dict.Dict.Delete` | experimental/redisclient/hiredis/dict.c:182-210 | removes a key exactly if it was there, and one entry from one chain |
| `DictIterator.Iterator.Next` | experimental/redisclient/hiredis/dict.c:268-286 | hands out one of the entries still to come, or null when there are none |
| `DictIterator.DeleteCurrent` | experimental/redisclient/hiredis/dict.c:275-281 | deleting the entry just handed out leaves the iterator in order and what is to come as it was |
| `DictIterator.SplitUnique` | experimental/redisclient/hiredis/dict.c:182-210 | the place of an entry on its chain is unique |
| `DictIterator.Traverse` | experimental/redisclient/hiredis/dict.c:258-286 | a full iteration visits every entry once, even while its caller deletes any of them on the way |
| `Failover.RoundOnce` | hiredispool.c:207-254 | no endpoint is tried twice in one attempt to connect, which follows `Round` |
| `Failover.RoundAll` | hiredispool.c:207-254 | a whole round tries every endpoint |
| `Failover.NextBackup` | hiredispool.c:220-225 | the next backup is in range and is not the endpoint just connected to, for every random number |
| `Failover.EveryBackup` | hiredispool.c:220-225 | every other endpoint can become the backup |
| `Pool.Pool.ConnectSocket` | hiredispool.c:190-274 | tries the endpoints of a round from the backup on and connects to the first that can be reached; failure has tried all, leaves the backup where it was, sets the grace period and leaks no context |
| `Pool.Pool.FreeContext` | hiredispool.c:245-266 | a context is freed only while it is live |
| `Pool.Pool.TryTake` | hiredispool.c:326-382 | taken exactly if free and connected or, after the grace period, connectable; otherwise the socket is as it was, and the attempts, the clock and the grace period have moved on as the failed attempt makes them |
| `Pool.Pool.Search` | hiredispool.c:319-430 | visits the sockets in the order of the circle: those before the result could not be had when they were looked at and are as they were, the result is taken, and those after it are untouched |
| `Pool.Pool.FirstEligibleIsFirst` | hiredispool.c:319-430 | the specified place is the first socket of the circle that can be had at the time it is looked at, given what the failed attempts before it have cost |
| `Pool.Pool.ConnectedIsFound` | hiredispool.c:319-430 | a free connected socket is never missed, whatever the clock and the endpoints do |
| `Pool.Pool.GraceFinds` | hiredispool.c:350-372 | while the grace period lasts only a free connected socket can be had, the first of them |
| `Pool.Pool.DueFinds` | hiredispool.c:350-372 | after it a free unconnected socket can be had if and only if an attempt of its round succeeds, and else the search goes on with a new grace period |
| `Pool.Pool.GetSocket` | hiredispool.c:303-438 | takes the first socket in the circle, from where the last search ended, that is free and connected or can be connected, and returns null exactly if there is none; the next search starts behind it |
| `Pool.Pool.ReleaseSocket` | hiredispool.c:440-465 | the socket is free again and keeps its connection |
| `Pool.Pool.TakeTurns` | hiredispool.c:303-465 | as many takes and releases as there are sockets give each of them its turn once |
| `Pool.Pool.Command` | hiredispool.c:477-518 | at most two sends, the second exactly if the first fails and an endpoint can be reached; the failed context is freed and its socket ends up connected exactly in that case |
| `Pool.Pool.Fill` | hiredispool.c:117-166 | the sockets are on the list last first, with their numbers and first backups, each connected exactly if time and endpoints allowed when it was made, after what the earlier ones had cost |
| `Pool.Pool.AddSocket` | hiredispool.c:126-157 | one more socket at the head, connected exactly if the grace period is over and some endpoint can be reached |
| `Pool.Pool.FreePool` | hiredispool.c:168-180 | every live context is freed once, and none is left |
| `Pool.Create` | hiredispool.c:20-89 | a pool exactly for an acceptable configuration, with its sockets connected as that says |
| `Pool.Conservation` | hiredispool.c:117-301 | the live contexts are exactly those of the connected sockets, and no two share one |
| `Pool.RotatedNext` | hiredispool.c:411-422 | the next pointer, or the head at the end, leads to the next socket of the circle |
| `PoolProtocol.StepKept` | hiredispool.c:303-518 | every step of every user keeps the invariant |
| `PoolProtocol.Safety` | hiredispool.c:303-518 | in every interleaving: no socket with two users, sockets in use are locked, the last socket used is null or on the list, contexts are conserved |
| `PoolProtocol.OnlyHolderChanges` | hiredispool.c:326-465 | only the holder of its mutex changes a socket |
| `PoolProtocol.TryLockFindsFree` | hiredispool.c:326-348 | who gets a mutex finds the socket not in use |
| `PoolProtocol.CommandsUseLive` | hiredispool.c:477-518 | commands go over contexts that are live, and none is freed twice |
| `PoolProtocol.NobodyWaits` | hiredispool.c:303-465 | everyone always has a next step, whatever the others do |
| `PoolProtocol.SearchEnds` | hiredispool.c:313-430 | however the others run, a search takes at most six steps for each socket and tries the mutexes in the order of the circle, none twice |
| `PoolProtocol.EmptyHanded` | hiredispool.c:313-430 | however the others run, a search that ends without a socket has found every socket of the pool unfit, in the order of the circle: its mutex held, or not connected |
| `PoolProtocol.SoloTakes` | hiredispool.c:303-438 | six steps of one user take a free connected socket, the next search starts behind it, and nothing else changes |
| `PoolProtocol.SoloConnects` | hiredispool.c:303-438 | the same for an unconnected one after the grace period, with a new context and backup |
| `PoolProtocol.SoloPasses` | hiredispool.c:350-430 | a socket that cannot be connected is given back as it was, with a new grace period if it was tried |
| `PoolProtocol.SoloReleases` | hiredispool.c:440-465 | releasing gives the socket back as it was |
| `PoolProtocol.SoloReplaces` | hiredispool.c:477-518 | a failed command frees the context, and the socket is connected anew or left unconnected with a grace period |
| `PoolProtocol.HeldIsPassed` | hiredispool.c:326-332 | a mutex that is held is not waited for |

## Left out

* Numbers are unbounded where the code uses `int`, `long` or `long long` for counts and lengths: a reply whose number does not fit 63 bits, a count that does not fit `int`, and sizes beyond `int` return values are not modelled.
* Reply functions set to NULL or to custom ones, `freeReplyObject`, and the release of a large empty buffer (`maxbuf`).
* Allocation failures and error texts; of an error only its kind is kept.
* The printf directives of `redisvFormatCommand` and `sdscatvprintf`: they depend on the C library.
- CommandFormat.FormatCommand: only for formats of plain characters without NUL, %s, %b, %% and a lone % at the end, for the same reason.
- CommandFormat.CollectWords: the same formats.
- Async.AsyncContext.AsyncCommand: only for commands shorter than 2^31 bytes on the wire, since their size is an `int`, and without MONITOR.
- Sds.Sds.CatFmt: a format with a lone % at its end is excluded, because the code then reads beyond the format.
- Arguments.FindsArgument: the length is read as digits only, without the leading blanks and signs that `strtol` also takes; formatted commands have neither.
* The sds functions that are plain loops over the bytes of one string (`sdstrim`, `sdscmp`, `sdssplitlen`, `sdsjoin`, `sdsmapchars`).
- Sds.Sds.Range: only for strings shorter than 2^31, because its indexes are `int`; the reader's compaction is modelled for any length.
- NumberText.PutDigits: without -2^63, whose negation overflows in the code.
* Duplicating and freeing keys and values of the table, its clearing and release.
- Dict.NextPower: without the branch for sizes from `LONG_MAX` on, which no memory can hold.
- Async.AsyncContext.Run: MONITOR is excluded; the connect callback and the disconnect callback are recorded but do not call back into the context; the reader below is represented by the replies it hands over, the subscription tables by maps (`Dict` shows that the table is one).
- Async.AsyncContext.FifoOnce: says nothing about the callbacks of messages, whose runs `Events.MessageRouted` and `Events.StaleRuns` state reply by reply.
* Event library hooks, timeouts of the synchronous client, `redisGetReply` and the blocking calls, `net.c`.
- PoolProtocol.Safety: one attempt to connect is one step, since all that it changes belongs to the holder of the mutex, except the grace period, which any user may overwrite. Reads of the last socket used and of the grace period are atomic. Creating and destroying a pool while it is used is not part of this model.
- Pool.Pool.Command: called on a connected socket; the code passes a null context on when a socket is used again after a failed reconnect.
* `experimental/redisclient/hiredispool.c`, a near copy of the root file; the PHP and C++ wrappers, logging, adapters and examples.
