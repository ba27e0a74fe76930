# Verified model of the parsers, protocols and data structures behind CloudDisk

CloudDisk talks to Redis through hiredis, exchanges JSON through cJSON and matches with PCRE's DFA matcher.
This project models the logic at the heart of these three libraries in Dafny and proves what their
documentation promises of it: for every input, every run and every reachable state. `dafny verify
dfyconfig.toml` checks it all.

Bytes are Dafny characters, which is a superset; where a value has to be a byte the contracts say so. Integers
are unbounded, and the widths that matter (64-bit reply integers, `int` lengths, `size_t` indices, INT_MAX
buffers) are written out. Memory allocation never fails.

| files | what they model |
|---|---|
| Decimal | `string2ll`, `sdsll2str`, `sdsull2str`, `countDigits` |
| Resp, RespMachine, Reader | the reply protocol as a recursive parser, the reader's task stack as a machine, and the reader object with its buffer, tasks and reply objects |
| Command, Format | the three command formatters and `nextArgument` |
| DfaPaths, Dfa, DfaLanguage | path semantics of compiled patterns, the simultaneous simulation with its workspace and offset vector, and the words a pattern stands for |
| Json, JsonRoundTrip, JsonParse, JsonPrint | JSON values, their text and its grammar; the round trip; the parse buffer; the print buffer |
| Async | the asynchronous context: callback queue, teardown, callbacks that call back in |
| PubSub, Push | subscriptions over a pipelined connection with a server that answers in order, by arrays or by pushes |
| Dict | the chained hash table, its entries linked in memory, and its iterator |
| Quote | `sdscatrepr` and `sdssplitargs` |
| SortList, CompareJson | merge sort on linked lists, and the two comparisons of JSON values |
| Pointer, MergePatch, ChildList | JSON pointers, merge patches, and the linked lists of children |

Where the code does something its documentation does not say, the model follows the code:

- A number that prints as another, close number in fifteen digits does not come back exactly
  (`JsonRoundTrip.NumberKept`, `SumIsLost`).
- `redisFormatSdsCommandArgv` prints lengths modulo 2^32 (`Command.SdsEncodeAgrees`), and `nextArgument` casts
  them to int (`Format.WalkCommand`).
- A SUBSCRIBE of several channels carries one counter along (`PubSub.CarryExact`). An unsubscribe called when
  every topic's latest request is an unsubscribe is accepted, and its answer can come when the flag is clear
  (`PubSub.Breaking`). A subscription message without an entry goes to the callback of the message before it in
  the same batch (`PubSub.Link.GetSubscribeCallback`).
- An unsubscribe answered by a push has no effect: its answer goes to the push handler, and entry and flag stay
  (`Push.NeverLeft`).
- A free asked for by a callback during a timeout is not carried out when the context was told not to free
  itself: `Async.Context.HandleTimeout` promises only that the context is freed or still has that option.
- `compare_json` also compares the integer values of numbers (`CompareJson.AgreeExactly`).
- Control characters that stand unescaped in a string are copied (`JsonParse.StandardExactly`, `RawTab`).
- A `\u` without four hexadecimal digits is read as U+0000; it can swallow a backslash, and then the string can end
  on a lone one, which is read together with the closing quote (`JsonParse.StandardExactly`, `LoneBackslash`).
- Array indices in pointers are checked against '9' in their first character only, wrap at 64 bits, and may be
  empty; of members with the same name the first is taken (`Pointer.DecodeExact`, `Pointer.ResolveExactly`,
  `Pointer.TwiceNamed`).
- An item added behind others keeps its `next` (`ChildList.Parent.Add`).
- A printf conversion of more than thirteen characters is dropped and its rest taken as text (`Format.Convert`).

## Model

| member | source | states |
|---|---|---|
| Decimal.ReadIffSigned | lib/hiredis/read.c:163-224 | the strings accepted are exactly the texts of 64-bit signed integers as `sdsll2str` writes them, and each reads as its own number: both directions, over all strings and numbers |
| Decimal.String2ll | lib/hiredis/read.c:163-224 | the digit loop with its overflow guards decides that language and computes that number; the guards keep every intermediate value within 64 bits, which the loop asserts |
| Decimal.Ull2str | lib/hiredis/sds.c:463-489 | the reversed digits, turned round in place, are the decimal text of any 64-bit unsigned value and end in NUL within 21 bytes |
| Decimal.Ll2str | lib/hiredis/sds.c:431-460 | the same for signed values, with the magnitude of LLONG_MIN taken as 2^63 |
| Decimal.CountDigits | lib/hiredis/hiredis.c:287-297 | the four-at-a-time division loop gives the length of the decimal text, for every number |
| RespMachine.MachineIsParser | lib/hiredis/read.c:449-603 | the task-stack machine and a recursive descent parser give the same tree, the same error or the same demand for more bytes, at any nesting depth, on every input |
| RespMachine.RunIsParse | lib/hiredis/read.c:528-603 | the same from the middle of any stack of open aggregates: the machine finishes what a recursive parser would, then resumes the enclosing levels |
| RespMachine.RunIsParseMany | lib/hiredis/read.c:241-267 | a level that still owes elements gets exactly the elements a parser reads next, in order |
| RespMachine.StepStable | lib/hiredis/read.c:351-421 | a step that did not block does the same when more bytes follow, so a cut in the input is never taken for an end |
| RespMachine.RunStable | lib/hiredis/read.c:688-739 | a finished reply or a protocol error never changes when bytes are appended |
| RespMachine.StreamExtends | lib/hiredis/read.c:688-739 | feeding more extends the sequence of replies; after an error nothing more comes |
| Resp.StreamWellTyped | lib/hiredis/hiredis.c:121-283 | every reply delivered is built with the kinds its constructors allow |
| Reader.SeekNewline | lib/hiredis/read.c:125-149 | the search by `memchr` steps finds the first CR LF, or none |
| Reader.Range | lib/hiredis/sds.c:726-754 | what of the string lies between two positions, both included: negative ones count from the end, and ends beyond either side of the string are cut off |
| Reader.RedisReader.constructor | lib/hiredis/read.c:605-635 | a new reader is at rest, has been fed nothing and has given nothing |
| Reader.RedisReader.SetError | lib/hiredis/read.c:53-75 | an error drops the buffer and every task and leaves the reader broken for good |
| Reader.RedisReader.Attach | lib/hiredis/hiredis.c:121-195 | a new object goes into the next free slot of its parent and disturbs no finished element |
| Reader.RedisReader.MoveToNextTask | lib/hiredis/read.c:241-267 | finishing a value closes exactly the aggregates it completes, each slot filled once and in order; the source's assertions on index and kind hold in every reachable state |
| Reader.RedisReader.ProcessLineItem | lib/hiredis/read.c:269-349 | a line item either blocks without a trace, fails with its protocol error, or advances the machine by one step |
| Reader.RedisReader.ProcessBulkItem | lib/hiredis/read.c:351-421 | the same for bulk items, including partial payloads and the nil bulk |
| Reader.RedisReader.ProcessAggregateItem | lib/hiredis/read.c:449-526 | the same for aggregates, including nil, empty and map counts and the element limit |
| Reader.RedisReader.Grow | lib/hiredis/read.c:423-446 | nesting past the task array gets more tasks and keeps the ones in use |
| Reader.RedisReader.ProcessItem | lib/hiredis/read.c:528-603 | reading a type byte and then its item is one machine step |
| Reader.RedisReader.Feed | lib/hiredis/read.c:657-686 | what is unread is what was unread followed by the chunk; a broken reader refuses |
| Reader.RedisReader.GetReply | lib/hiredis/read.c:688-739 | gives the next reply of the whole stream fed so far, or none, or the sticky error; dropping consumed bytes at 1024 never changes the outcome |
| Reader.Extract | lib/hiredis/hiredis.c:169-195 | the objects reachable from a returned address are the reply tree |
| Reader.ReadChunks | lib/hiredis/read.c:657-739 | chunking invariance: for every way of cutting a byte stream, draining after each piece gives the replies and the error of the whole stream fed at once |
| Command.EncodeParses | lib/hiredis/hiredis.c:624-660 | the reader returns exactly the arguments that were formatted, whatever bytes they hold, and stops right behind the command |
| Command.PipelineParses | lib/hiredis/hiredis.c:624-660 | the same for any pipeline of commands: one array reply each, in order |
| Command.BulkLen | lib/hiredis/hiredis.c:300-302 | the precomputed length of a bulk is the length of its text |
| Command.TotalLen | lib/hiredis/hiredis.c:567-660 | the precomputed total is the number of bytes written, with and without given lengths |
| Command.FormatCommandArgv | lib/hiredis/hiredis.c:624-660 | fills a buffer of the precomputed size exactly and ends it in NUL |
| Command.FormatSdsCommandArgv | lib/hiredis/hiredis.c:567-613 | appends the same text piece by piece, except that it prints lengths as 32-bit numbers |
| Command.SdsEncodeAgrees | lib/hiredis/hiredis.c:567-613 | the two formatters agree if and only if every argument is shorter than 4 GiB |
| Format.Collect | lib/hiredis/hiredis.c:304-470 | the format is cut at its own spaces only, one argument per word, substituted values never split, and it is an error exactly if a conversion is invalid |
| Format.FormatCommand | lib/hiredis/hiredis.c:304-532 | `redisFormatCommand` writes the command the other formatters write for those words, whatever conversions made them |
| Format.FindConversion | lib/hiredis/hiredis.c:370-448 | flags, width, precision, size and type of a printf conversion are told apart from an invalid one |
| Format.Convert | lib/hiredis/hiredis.c:353-464 | each conversion adds its argument's text up to the NUL, as it is or as printf makes it, and one too long for its buffer adds nothing but still uses its argument |
| Format.SubstituteKeeps | lib/hiredis/hiredis.c:325-400 | `%b` once per argument hands every byte string through unchanged, spaces and NULs included |
| Format.NextOnBulk | lib/hiredis/async.c:725-737 | one call on a bulk: where the text is, the length after `strtol` and the cast to int, and where the next bulk starts |
| Format.WalkCommand | lib/hiredis/async.c:725-737 | walking a formatted command visits its arguments and then ends, if and only if every length fits an int |
| DfaPaths.ClosureHoldsAll | lib/pcre-8.44/pcre_dfa_exec.c:615-690 | a state list closed under the free moves, with every state entered at this position, holds every state some single path reaches here |
| DfaPaths.ScanComplete | lib/pcre-8.44/pcre_dfa_exec.c:631-690 | once a position is scanned, its list is exactly the set of states paths reach, and the next list holds exactly what is entered from it |
| DfaPaths.ReachesInside | lib/pcre-8.44/pcre_dfa_exec.c:397-853 | a state on a path is inside the code and its repeat count is at most the characters taken |
| DfaPaths.NothingLater | lib/pcre-8.44/pcre_dfa_exec.c:3096-3146 | when nothing is entered at a position no path goes on, so stopping early loses no match |
| DfaPaths.FewStates | lib/pcre-8.44/pcre_dfa_exec.c:438-440 | distinct states at a position are bounded by code length times subject length, which bounds the workspace that is enough |
| Dfa.Add | lib/pcre-8.44/pcre_dfa_exec.c:352-393 | a state is added behind the others or, with no room, refused |
| Dfa.AddAlternatives | lib/pcre-8.44/pcre_dfa_exec.c:824-845 | entering a bracket adds the start of each of its alternatives, following the links |
| Dfa.AddFree | lib/pcre-8.44/pcre_dfa_exec.c:771-860 | the moves that take no character add exactly the states reachable in one such move |
| Dfa.AddTaking | lib/pcre-8.44/pcre_dfa_exec.c:2117-2529 | the moves that take the character add exactly the states it leads to |
| Dfa.IsDuplicate | lib/pcre-8.44/pcre_dfa_exec.c:675-687 | the duplicate test finds exactly the states already in the list |
| Dfa.RecordMatch | lib/pcre-8.44/pcre_dfa_exec.c:778-805 | a new match is put first, older ones move up, and the count becomes 0 when the vector is too small |
| Dfa.ScanPosition | lib/pcre-8.44/pcre_dfa_exec.c:575-853 | one pass over a position computes the whole closure, the next list and the matches ending here |
| Dfa.InternalDfaExec | lib/pcre-8.44/pcre_dfa_exec.c:397-853 | the set simulation reports exactly the ends at which some single path accepts, each once and longest first, keeps the longest when the vector is too small, writes nothing past it, and gives the workspace error only below a bound that is enough |
| DfaLanguage.PathInLanguage | lib/pcre-8.44/pcre_dfa_exec.c:615-860 | a path is at every point inside the item it should be in, with everything before it matched by what comes before that item in the pattern |
| DfaLanguage.LanguageReached | lib/pcre-8.44/pcre_dfa_exec.c:615-860 | some path reaches the end of the pattern on every word of its language |
| DfaLanguage.PathsAreLanguage | lib/pcre-8.44/pcre_dfa_exec.c:615-860 | for code laid out as a pattern of leaves, sequences, alternatives, repeated, optional and skipped groups: a path reaches the end at a position if and only if the text up to there is a word of the pattern's language |
| DfaLanguage.NothingUnsupported | lib/pcre-8.44/pcre_dfa_exec.c:3086-3089 | no path through such code meets an item the matcher refuses |
| DfaLanguage.HoldsFor | lib/pcre-8.44/pcre_dfa_exec.c:615-860 | the layout is met by the code of a pattern such as a(b)* |
| DfaLanguage.EndsAreWords | lib/pcre-8.44/pcre_dfa_exec.c:778-805 | the accepting ends in order are the ends of the words in order, under the not-empty options |
| DfaLanguage.MatchPattern | lib/pcre-8.44/pcre_dfa_exec.c:397-853 | the matcher stores exactly the ends of the pattern's words, longest first, the shortest alone when asked, and fails only when the workspace is below the stated bound |
| JsonRoundTrip.QuoteParses | lib/cJSON/cJSON.c:896-1015 | every string reads back from its quoted form, and reading stops right behind the closing quote |
| JsonRoundTrip.PrintParses | lib/cJSON/cJSON.c:1361-1819 | every value, printed in either format and followed by anything that does not continue a number, parses to itself up to what libc makes of its numbers, and fails exactly when nested past 1000 |
| JsonRoundTrip.RoundTrip | lib/cJSON/cJSON.c:1073-1166 | for whole documents: the parser ends on the terminating NUL, and the same value comes back if and only if its nesting is at most 1000 and libc reads back each number |
| JsonRoundTrip.IntegerRoundTrip | lib/cJSON/cJSON.c:543-606 | values whose numbers are integers below 10^15 come back whenever nested at most 1000 deep |
| JsonRoundTrip.NumberKept | lib/cJSON/cJSON.c:535-606 | a number comes back close to itself always, and exactly unless its fifteen digits read as another close number |
| JsonRoundTrip.SumIsLost | lib/cJSON/cJSON.c:535-606 | 0.1 + 0.2 is printed as 0.3 and comes back as a different double |
| JsonParse.UnescapeFits | lib/cJSON/cJSON.c:781-868 | the unescaped string is never longer than the allocation computed beforehand, even where a malformed escape makes the two passes lose step and the second one ends on the closing quote |
| JsonParse.StandardExactly | lib/cJSON/cJSON.c:813-868 | section 7 of RFC 8259 reads a string body as the code does if it has no unescaped control character or quote, a character behind every backslash and four hexadecimal digits behind every \u, and reads no other body; so the two agree exactly on these bodies and on those the code refuses |
| JsonParse.RawTab | lib/cJSON/cJSON.c:816-820 | a literal holding a tab by itself is accepted and the tab copied, where the standard reads no string |
| JsonParse.LoneBackslash | lib/cJSON/cJSON.c:822-868 | a \u with three digits before two backslashes: the last backslash is read with the closing quote, and the literal is accepted; its value is a NUL and the quote, of which a C caller sees the empty string |
| JsonParse.ParseHex4 | lib/cJSON/cJSON.c:609-642 | four hexadecimal digits read as a number, 0 if one is no digit |
| JsonParse.EncodeUtf8 | lib/cJSON/cJSON.c:693-757 | the backwards loop writes the UTF-8 bytes of the code point |
| JsonParse.Utf8Decodes | lib/cJSON/cJSON.c:693-757 | those bytes decode to the code point, for every code point |
| JsonParse.ReadUtf16 | lib/cJSON/cJSON.c:646-764 | surrogate pairs are combined, lone ones refused, and six or twelve characters used |
| JsonParse.FindBodyEnd | lib/cJSON/cJSON.c:781-805 | the first pass finds the end of a string literal and counts its escapes |
| JsonParse.UnescapeBody | lib/cJSON/cJSON.c:816-880 | the second pass writes what the literal stands for and stays inside the allocation |
| JsonParse.ParseBuffer.SkipWhitespace | lib/cJSON/cJSON.c:1032-1055 | skips what the grammar skips, never past the last byte |
| JsonParse.ParseBuffer.SkipUtf8Bom | lib/cJSON/cJSON.c:1058-1071 | a byte order mark is skipped when at least two bytes follow it |
| JsonParse.ParseBuffer.ReadString | lib/cJSON/cJSON.c:767-893 | fails exactly on what is no string literal, else returns its value and stops behind it |
| JsonParse.ParseBuffer.ReadNumber | lib/cJSON/cJSON.c:301-375 | hands at most 63 characters to strtod and moves by what it used |
| JsonParse.ParseBuffer.ReadValue | lib/cJSON/cJSON.c:1306-1358 | one value as the grammar has it, the depth restored |
| JsonParse.ParseBuffer.ReadArray | lib/cJSON/cJSON.c:1435-1530 | one array as the grammar has it, refused past the nesting limit |
| JsonParse.ParseBuffer.ReadObject | lib/cJSON/cJSON.c:1595-1705 | one object as the grammar has it, refused past the nesting limit |
| JsonParse.ParseWithOpts | lib/cJSON/cJSON.c:1073-1166 | succeeds exactly on the texts of the grammar, with the value and the position where parsing stopped |
| JsonPrint.EscapedLength | lib/cJSON/cJSON.c:921-946 | the first pass counts the length of the escaped string |
| JsonPrint.PrintBuffer.Ensure | lib/cJSON/cJSON.c:435-520 | room is there or made, the text so far kept; refused exactly past the caller's buffer or INT_MAX |
| JsonPrint.PrintBuffer.UpdateOffset | lib/cJSON/cJSON.c:523-533 | the offset moves to the end of the text just written |
| JsonPrint.PrintBuffer.PrintString | lib/cJSON/cJSON.c:896-1015 | writes the quoted string, by the copying and by the escaping branch, exactly when it fits with two bytes to spare |
| JsonPrint.PrintBuffer.PrintNumber | lib/cJSON/cJSON.c:543-606 | writes the chosen text of the number, refused past 25 characters |
| JsonPrint.PrintBuffer.PrintValue | lib/cJSON/cJSON.c:1361-1432 | writes the text of any value behind what is there, exactly when it fits with two bytes to spare |
| JsonPrint.PrintBuffer.PrintArray | lib/cJSON/cJSON.c:1533-1592 | the same for arrays, whatever their elements |
| JsonPrint.PrintBuffer.PrintObject | lib/cJSON/cJSON.c:1708-1819 | the same for objects, with indentation by depth |
| JsonPrint.PrintPreallocated | lib/cJSON/cJSON.c:1286-1303 | printing into a fixed buffer succeeds if and only if it has at least two bytes more than the text, and then holds the text and its NUL |
| JsonPrint.PrintBuffered | lib/cJSON/cJSON.c:1256-1284 | a growing buffer of any first size ends with the same text |
| Async.Context.AsyncCommand | lib/hiredis/async.c:742-826 | a command is accepted exactly while no teardown has begun, and then queued last |
| Async.Context.Shift | lib/hiredis/async.c:250-286 | the oldest command's callback is due next, with this reply or null |
| Async.Context.RunCallback | lib/hiredis/async.c:288-295 | user code called back may issue commands, disconnect or free; nothing is torn down and no other callback starts meanwhile |
| Async.Context.AsyncFree | lib/hiredis/async.c:368-373 | frees at once, or only marks the context when called from a callback |
| Async.Context.AsyncDisconnect | lib/hiredis/async.c:409-417 | stops new commands and frees at once only if nothing is owed |
| Async.Context.DisconnectNow | lib/hiredis/async.c:376-401 | without an error nothing is owed, as the source asserts; frees unless told not to |
| Async.Context.FreeNow | lib/hiredis/async.c:306-362 | every callback still owed runs with the null reply, in order, and none is added meanwhile |
| Async.Context.Deliver | lib/hiredis/async.c:538-590 | a reply goes to the oldest command; without one an error reply ends the connection and any other reply fails the source's assertion |
| Async.Context.ProcessCallbacks | lib/hiredis/async.c:509-597 | consumes the replies in order and stops early only because the context went away or failed |
| Async.Context.HandleConnect | lib/hiredis/async.c:607-630 | goes on exactly when connected |
| Async.Context.HandleRead | lib/hiredis/async.c:632-660 | what a read event delivers is what it received, in order; a failed read ends the connection |
| Async.Context.HandleWrite | lib/hiredis/async.c:662-693 | a write event runs no callback unless it fails |
| Async.Context.HandleTimeout | lib/hiredis/async.c:695-721 | an idle timeout does nothing; any other drains the queue with null replies, commands issued meanwhile included, and disconnects |
| Async.Drive | lib/hiredis/async.c:250-721 | over every run of events and every behaviour of the callbacks, ended by a free: the commands accepted are exactly those user code issued before teardown began, the replies received are those of the events in order, all of them unless the connection is lost or freed, a connection is lost only for a reason the event at hand gives, and each accepted command's callback runs exactly once, in command order, with the reply of its rank, or null from the first command on that got none |
| Async.Grows | lib/hiredis/async.c:754-757 | nothing accepted, received or run is taken back, and nothing is accepted once teardown has begun |
| Async.ReceivedArrived | lib/hiredis/async.c:509-597 | the replies received are a prefix of those that arrived since the connection came up, and all of them while nothing is lost and no free was asked for |
| Async.SeenAll | lib/hiredis/async.c:288-295 | when every command has a callback, call number i is command number i's |
| PubSub.StepKeeps | lib/hiredis/async.c:419-483 | every step of client, wire and server keeps the invariant that ties counters, entries, flag and messages under way together |
| PubSub.Safe | lib/hiredis/async.c:419-483 | in every pipelined run: a topic the server holds has the callback of its latest subscribe, each counter is the number of unconfirmed subscribes, a message on its way finds its callback, and the flag is set exactly while there are entries |
| PubSub.AskedIs | lib/hiredis/async.c:771-803 | the topics whose latest request is a subscribe can be told from the calls alone, whatever the wire and the server did |
| PubSub.NeverWrong | lib/hiredis/async.c:532-577 | if each unsubscribe is called while some topic's latest request is a subscribe, no run fails the source's assertion or hands a message to the wrong kind of callback, and replies meet their own commands |
| PubSub.Breaking | lib/hiredis/async.c:560-577 | the other direction: any run can go wrong after an unsubscribe called while no topic's latest request is a subscribe, although the source accepts it |
| PubSub.TwiceBreaks | lib/hiredis/async.c:560-577 | the shortest such run: subscribe, unsubscribe, unsubscribe again |
| PubSub.Routing | lib/hiredis/async.c:419-483 | if each unsubscribe is of a topic whose latest request is a subscribe, every subscription message reaches the callback of its topic's latest subscribe |
| PubSub.CarryExact | lib/hiredis/async.c:771-795 | with several channels in one command the counters come out right if and only if no new channel is named while the counter carried along is other than 1 |
| PubSub.CarryWrong | lib/hiredis/async.c:771-795 | `SUBSCRIBE a b` with a confirmation of a outstanding gives b the counter 2 |
| Push.PassesExactly | lib/hiredis/async.c:488-507 | the pushes let through to the callbacks are those whose first word has at least seven characters and is, but for a leading p and case, a beginning of "subscribe" or of "message" |
| Push.KindPasses | lib/hiredis/async.c:485-507 | so of the messages of a subscription exactly the answers to unsubscribes go to the push handler |
| Push.StepStays | lib/hiredis/async.c:419-577 | every step of a run over RESP3 keeps the invariant that ties entries, counters, flag and replies to the subscribes ever made |
| Push.NeverLeft | lib/hiredis/async.c:485-577 | in every run over RESP3, with no condition on its calls: the source's assertion does not fail and regular replies meet their own commands, but a topic ever subscribed keeps its entry and the flag is never cleared again |
| PubSub.Link.AsyncSubscribe | lib/hiredis/async.c:771-795 | the registering loop computes that carried result; for one channel it is the subscribe step of the run model |
| PubSub.Link.AsyncUnsubscribe | lib/hiredis/async.c:796-803 | refused exactly outside a subscription, registers nothing; several topics are as many unsubscribe steps |
| PubSub.Link.GetSubscribeCallback | lib/hiredis/async.c:419-483 | counts down, deletes and clears the flag as the run model does, and yields the topic's callback or keeps the previous one |
| PubSub.Link.ProcessReply | lib/hiredis/async.c:538-577 | one message read is one read step of the run model, and it says who gets the message |
| Dict.NextPower | lib/hiredis/dict.c:320-329 | the least power of two that is at least 4 and at least the size |
| Dict.HashTable.Expand | lib/hiredis/dict.c:92-138 | the map is unchanged by moving to a larger table, and no entry is allocated or freed |
| Dict.HashTable.Rehash | lib/hiredis/dict.c:112-133 | every entry is relinked into its new bucket once, and stopping when the count is used up misses none |
| Dict.HashTable.MoveChain | lib/hiredis/dict.c:118-131 | one old chain is relinked entry by entry, each to the head of its new chain, its successor read before its link is overwritten |
| Dict.HeldShift | lib/hiredis/dict.c:122-129 | one such relinking keeps all chains linked and apart |
| Dict.HashTable.ExpandIfNeeded | lib/hiredis/dict.c:309-317 | afterwards there are fewer entries than buckets |
| Dict.HashTable.Add | lib/hiredis/dict.c:141-163 | adds to the map unless the key is there; the new entry is linked at the head of its chain |
| Dict.HashTable.Replace | lib/hiredis/dict.c:169-191 | sets the key's value and says whether it is new |
| Dict.HashTable.Delete | lib/hiredis/dict.c:194-222 | removes the key from the map, unlinks its entry from the chain by the one before it or by the table, and frees it; no entry leaks |
| Dict.LinkedCut | lib/hiredis/dict.c:203-222 | pointing past an entry leaves the rest of its chain linked, without touching the freed entry |
| Dict.HashTable.Find | lib/hiredis/dict.c:255-268 | finds the entry of the key, with the value of the map, or none |
| Dict.FlatIsMap | lib/hiredis/dict.c:255-351 | the entries of a valid table are the map: each key once, with its value |
| Dict.Iterator.Next | lib/hiredis/dict.c:282-300 | returns the next entry of those still to come and skips none; every entry it looks at is still allocated |
| Dict.CutBehind | lib/hiredis/dict.c:282-300 | deleting and freeing the entry just returned leaves the saved address and all later buckets as they were |
| Dict.VisitAndDelete | lib/hiredis/dict.c:270-300 | an iteration visits each entry once even if the caller deletes entries as they are returned, and leaves exactly the others |
| Quote.ReprReads | lib/hiredis/sds.c:872-895 | a quoted byte string is one token that reads back as itself, whatever bytes it holds |
| Quote.RoundTrip | lib/hiredis/sds.c:872-1056 | every list of byte strings comes back from quoting, joining by spaces and splitting |
| Quote.JoinHasNoNul | lib/hiredis/sds.c:872-895 | the quoted line holds no NUL, so it is the C string the splitter takes |
| Quote.CatRepr | lib/hiredis/sds.c:872-895 | the loop appends exactly the quoted form |
| Quote.ReadToken | lib/hiredis/sds.c:955-1030 | the inner loop over plain, double-quoted and single-quoted text reads one token or finds a quote unclosed or closed too early |
| Quote.SplitArgs | lib/hiredis/sds.c:940-1056 | the whole loop splits a line into its tokens or fails as a whole |
| SortList.SortSorts | lib/cJSON/cJSON_Utils.c:480-589 | the merge sort gives an ordered permutation, with and without regard to case |
| SortList.AlreadyUp | lib/cJSON/cJSON_Utils.c:493-503 | detects exactly the strictly ascending lists |
| SortList.Middle | lib/cJSON/cJSON_Utils.c:505-517 | the slow pointer ends half way, so both parts are shorter than the list |
| SortList.Split | lib/cJSON/cJSON_Utils.c:518-523 | cutting before the middle node leaves two lists if and only if its `prev` is the node before it |
| SortList.BackSplits | lib/cJSON/cJSON_Utils.c:480-589 | the links followed on the way are right in particular if all are |
| SortList.NothingCut | lib/cJSON/cJSON_Utils.c:500-523 | two nodes in the wrong order, the second with a null `prev`: the cut changes nothing, so that the recursion gets the same list again |
| SortList.MergeLists | lib/cJSON/cJSON_Utils.c:529-586 | relinks two sorted lists into their merge, all links of it right |
| SortList.SortObject | lib/cJSON/cJSON_Utils.c:591-598 | a list as the library builds it is sorted in place, all links of the result right but the first `prev` |
| SortList.SortNodes | lib/cJSON/cJSON_Utils.c:480-589 | if the `prev` links of the middle nodes it cuts at are right, the list in memory becomes an ordered permutation of its nodes, linked forwards and, if it was, backwards; it terminates |
| CompareJson.SortedInStep | lib/cJSON/cJSON_Utils.c:650-676 | two ordered lists with the same names, each once, go in step |
| CompareJson.ObjectsAgree | lib/cJSON/cJSON_Utils.c:647-676 | walking two sorted objects in step answers exactly what looking up every name both ways answers |
| CompareJson.SameSwaps | lib/cJSON/cJSON.c:2963-3086 | `cJSON_Compare` does not depend on the order of its arguments |
| CompareJson.CompareByLookup | lib/cJSON/cJSON.c:2963-3086 | its loops decide that relation |
| CompareJson.SameItself | lib/cJSON/cJSON.c:2987-2991 | a value with distinct names is the same as itself, so skipping the comparison for one and the same item changes no answer |
| CompareJson.CompareAndSort | lib/cJSON/cJSON_Utils.c:600-686 | `compare_json` answers as `cJSON_Compare` with integer values compared too, and leaves both values the same as maps although it sorts them |
| CompareJson.AnswersAgree | lib/cJSON/cJSON_Utils.c:608-618 | the two functions answer alike on all values in which close numbers have the same integer value |
| CompareJson.NumbersDiffer | lib/cJSON/cJSON_Utils.c:608-618 | on two numbers they differ if and only if these are close and their integer values differ |
| CompareJson.AgreeExactly | lib/cJSON/cJSON_Utils.c:608-618 | for any set of numbers: the two functions answer alike on all values over them if and only if close ones among them have the same integer value |
| CompareJson.ThreeDiffers | lib/cJSON/cJSON_Utils.c:608-618 | 3 and the double just below it: `cJSON_Compare` says equal, `compare_json` says not |
| Pointer.MatchesEncoded | lib/cJSON/cJSON_Utils.c:120-154 | comparing a name with an encoded path element is comparing it with the name encoded |
| Pointer.DecodeExact | lib/cJSON/cJSON_Utils.c:274-299 | an array index is decoded as section 4 of RFC 6901 has it if and only if it is not empty, has no character past '9' that the loop takes for a digit, and fits 64 bits |
| Pointer.DecodeWrong | lib/cJSON/cJSON_Utils.c:274-299 | "1a" is taken for element 59 and the empty element for element 0 |
| Pointer.MatchesName | lib/cJSON/cJSON_Utils.c:120-154 | a name matches an element, case-sensitively, exactly if it is the name section 4 of RFC 6901 reads from it |
| Pointer.ResolveExactly | lib/cJSON/cJSON_Utils.c:301-346 | for any pointer: the standard (sections 3 and 4 of RFC 6901) finds what the code finds if the pointer is empty or starts with a slash, enters no array by an element that is empty, has a character past '9' behind a digit or is too large, and names no member whose name occurs more than once; otherwise the standard finds nothing. So the two agree exactly on these pointers and on those with which the code finds nothing |
| Pointer.TwiceNamed | lib/cJSON/cJSON_Utils.c:301-346 | in an object with a name twice the code follows the first member, where the standard finds none |
| Pointer.FoundPath | lib/cJSON/cJSON_Utils.c:198-259 | a pointer is found exactly for the nodes of the tree |
| Pointer.PointerResolves | lib/cJSON/cJSON_Utils.c:198-346 | the pointer built to a node leads back to that node, whatever its names contain |
| Pointer.ComparePointers | lib/cJSON/cJSON_Utils.c:120-154 | the comparing loop decides that match |
| Pointer.EncodeString | lib/cJSON/cJSON_Utils.c:157-196 | the encoded name fits the precomputed length exactly |
| Pointer.DecodeArrayIndex | lib/cJSON/cJSON_Utils.c:274-299 | the loop computes that index in 64-bit arithmetic |
| Pointer.GetItemFromPointer | lib/cJSON/cJSON_Utils.c:301-346 | following a pointer step by step reaches the node it names, or none |
| MergePatch.MergeIsRfc | lib/cJSON/cJSON_Utils.c:1315-1372 | merging by detaching and appending members is the function of section 2 of RFC 7396 on the member maps, and names stay distinct |
| MergePatch.MergeShape | lib/cJSON/cJSON_Utils.c:1315-1372 | merging leaves the members the patch does not name in their order and appends the others in the order of the patch |
| MergePatch.Idempotent | lib/cJSON/cJSON_Utils.c:1315-1372 | applying a patch twice gives the very value that applying it once gives, the order of the members included |
| MergePatch.ApplyPatch | lib/cJSON/cJSON_Utils.c:1315-1372 | the loop over the patch computes that merge |
| ChildList.Parent.GetArrayItem | lib/cJSON/cJSON.c:1845-1862 | the item of an index, or null past the end |
| ChildList.Parent.Add | lib/cJSON/cJSON.c:1950-1990 | appends to the sequence, by the shortcut through the first item's `prev` or by walking; the list is proper afterwards if and only if it was empty or the item pointed nowhere |
| ChildList.Parent.Detach | lib/cJSON/cJSON.c:2190-2224 | removes one item from the sequence and makes it point nowhere |
| ChildList.Parent.Insert | lib/cJSON/cJSON.c:2266-2293 | inserts before an index, whatever the new item pointed to, or appends past the end, proper under the same condition |
| ChildList.Parent.Replace | lib/cJSON/cJSON.c:2295-2342 | replaces one item of the sequence, also with itself |
| ChildList.Build | lib/cJSON/cJSON.c:2543-2576 | lists as they are built meet the invariant, the first item's `prev` null or the last item |

## Left out

- Sockets, TLS, event libraries, timers and allocation failure: I/O and error paths around calls the model cannot see.
- The connect, disconnect and push callbacks: only reply callbacks call back into the context.
- MONITOR mode and the queue of regular commands issued while subscribed.
- Async.Context.RunCallback: what user code does is a list of calls fixed for each run of a callback; all finite behaviours are covered, one that never returns is not.
- Async.Drive: covers contexts that neither subscribe nor monitor; subscriptions are the subject of PubSub.
- PubSub.Link.AsyncSubscribe: the server model answers each channel of a command by itself, so the run theorems are about one channel per command; several channels are covered by PubSub.CarryExact.
- PubSub.Link.AsyncUnsubscribe: an unsubscribe without topics is not modelled.
- PubSub.Link.ProcessReply: error replies are not modelled here, and message kinds are taken as already told apart from their text. The messages come as arrays (RESP2); runs where they come as pushes are the subject of Push.
- Push.NeverLeft: what the push handler does with a message is not modelled.
- JsonParse.StandardExactly: that the bytes past 127 form UTF-8 (section 8.1 of RFC 8259) is checked neither by the code nor by the standard reading it is compared with.
- Format.FormatCommand: what printf makes of an argument is given with it. A format that ends within a printf conversion is excluded, since the source then reads on behind its end. The source counts the length in an int, so the contract is about commands shorter than INT_MAX bytes.
- Command.FormatCommandArgv: the whole command is shorter than INT_MAX bytes.
- Reader.RedisReader.GetReply: doubles are accepted by a given predicate instead of `strtod`; nil, booleans and doubles inside a push message, on which the source asserts, are modelled as an error of their own.
- Dfa.InternalDfaExec: covers literals, classes, any character, single-item repeats, alternation, groups, optional groups and skipped groups; assertions, recursion, callouts, partial matching, restarting, UTF and newline conventions are unsupported items in it. The workspace bound is one that is enough, not the least one.
- DfaLanguage.MatchPattern: how a pattern is laid out in code is a given relation; the compiler that writes the code is not part of this model.
- Dfa.AddFree: possessive groups and possessive repeats are not modelled.
- JsonParse.ParseBuffer.ReadNumber: `strtod` and `sprintf` are parameters; the decimal point is the one of the C locale, and infinities and NaN do not occur.
- JsonPrint.PrintBuffer.Ensure: the buffer grows by reallocation; raw items are not modelled.
- Dict.HashTable.Expand: the size stays below LONG_MAX, and masking a hash by a power of two less one is taken as the remainder.
- Dict.Iterator.Next: deleting any other entry than the one just returned is outside the contract, as in the source.
- Dict.HashTable.Add: the address of a new entry is given, as the allocator chose it.
- SortList.SortNodes: where a `prev` link it cuts at is wrong, the parts are no lists (SortList.Split); what becomes of the recursion then is shown for one such list only (SortList.NothingCut), where it does not end.
- CompareJson.CompareAndSort: works on values, with the sort proved on linked lists in SortList; names are distinct.
- MergePatch.ApplyPatch: works on values and with case-sensitive names; the list operations it uses are the subject of ChildList.
- Pointer.GetItemFromPointer: works on values; nodes carry an identity in place of their address.
- JSON patches (generation and application), minification, references, and the rest of CloudDisk's own server code would add only easier members.
