# A verified model of Redix

Redix is a Redis-style key-value server. This project models its core in Dafny and proves what
that core is for: bytes come in, frames come out of the parser, commands act on the keyspace,
replies are queued and sent.

| file | models |
|---|---|
| `Int64.dfy`, `Numerals.dfy` | decimal printing and parsing of 64-bit integers; numerals by place value |
| `Lex.dfy` | the key order of `std::flat_map` and `std::flat_set` |
| `Resp.dfy`, `RespLaws.dfy`, `Grammar.dfy` | the RESP2 printer and the incremental parser, their laws, and the wire format as a grammar |
| `Glob.dfy` | `glob_match` and the meaning of a pattern |
| `Values.dfy`, `Keyspace.dfy` | stored values, what each operation does to one entry, what each command does to the keyspace: `Exec` is the program (dead entries stay until erased), `SimpleExec` the reference (a plain map without dead entries) |
| `Store.dfy` | `Store` as a class with a mutable map and the program's loops |
| `Command.dfy`, `SetOptions.dfy`, `Dispatch.dfy` | request decoding, the dispatch table, the options of SET, `dispatch` |
| `Requests.dfy`, `Answers.dfy` | which values are requests and which names the table knows, by bytes; the words in which commands are told from outside |
| `StringCommands.dfy`, `KeyCommands.dfy`, `ListCommands.dfy`, `HashCommands.dfy`, `SetCommands.dfy`, `NamedRuns.dfy` | every command from its name and arguments to its reply and the keyspace after it; queues and counters over whole runs of named commands |
| `Expiry.dfy`, `Timeline.dfy`, `Sweeps.dfy` | lazy expiry, the write log, deadlines over time, the periodic sweep |
| `Runs.dfy`, `Ends.dfy` | what operations on one entry do, one after the other: counters, lists, hashes, sets |
| `Locality.dfy`, `Projection.dfy` | commands touch only the keys they name; so any run of commands, seen from one key, is such a sequence of operations, and the laws hold of whole runs |
| `Laws.dfy` | undo and read-back laws of single commands |
| `Alignment.dfy`, `Service.dfy` | replies on the wire, a whole conversation |
| `Transport.dfy`, `Client.dfy`, `Effects.dfy`, `Server.dfy`, `History.dfy` | what `recv` and `send` return, one connection, what one kernel event does to it, all connections under an adversarial event loop, and the log of everything the server ever served |
| `Folds.dfy`, `Wrappers.dfy` | folds over inputs, `Option` |

## How the model reads the program

- A byte is a `char` and a buffer a `string`; every theorem holds for all `char` values, so for all
  bytes.
- What the source does in place or in a loop is a method on a class or a method with a loop
  (`RespParser`, `Store`, `Client`, `EventLoop`, `Server`, `glob_match`, `parse_at`, the encoders,
  `parse_command`, the loops of SET, MSET, HSET). Each is proved to compute a specification
  function, and the laws are proved about that function.
- Beside these functions stand definitions that owe nothing to them: numerals by place value
  (`Numerals`), frames by a grammar (`Grammar`), patterns by bytes (`Glob.Selects`), letter case by
  bytes (`Requests`), the outcome of a script of `recv` and `send` results (`Transport`), and for
  every name in the table what the client is answered and what the keyspace then holds. The
  functions are proved to agree with them.
- Time is one instant per command, taken from a clock. Runs need the clock not to go back where
  they say so. Deadlines are computed in 64-bit unsigned arithmetic and wrap as in the source;
  `pttl` casts to a signed number as in the source.
- `std::flat_map` and `std::flat_set` are maps and sets; what an iterator visits is `Sorted` of
  their keys, which is proved to be the only strictly sorted sequence of those keys.
- Everything the operating system decides is an argument: how a stream is cut into chunks, short
  sends, EAGAIN, errors, the order of events, accepted descriptors, refused registrations, signals.
- `Client` and `Server` carry ghost records of everything received, answered and sent, and the
  server a ghost log of every request with the connection it came from, in the order of execution,
  so that conservation and sequential execution can be stated. They treat what one request does as
  an abstract handler; `Service.Faithful` ties it to `Exec`.
- Some facts are told as `forall u | Open(key, u) :: P`. That is the fact `P` in closed form: a proof
  passes it on as it is, and one that needs its content asserts `Open(key, true)`.

## Where the source surprises

- `glob_match` tests for an equal byte before it tests for a star, so `*` does not match `*a`.
  `Glob.CorrectExactlyWithoutStars` says exactly which texts are judged correctly by all patterns,
  `Glob.CorrectExactlyForPlainPatterns` which patterns judge all texts correctly, and
  `Timeline.KeysStarMisses` which keys `KEYS *` leaves out.
- `CountdownStartsRight`: PEXPIRE followed by PTTL shows the requested time exactly when the
  deadline does not wrap around and the time is positive and fits a signed 64-bit number.
- The sweep always starts at the first key. However often it runs, it removes a dead entry if and
  only if fewer than twenty live ones stand before it (`Sweeps.RemovedExactlyIfNear`);
  `Sweeps.StuckForEver` is a keyspace with one that stays.
- An unknown command name is echoed into an error line; if it contains a line terminator the
  reply is not one frame (`Alignment.UnknownCommandSplits`). `Alignment.CommandAligns` is the exact
  condition for one command, `Service.ConversationAligns` for a whole conversation.
- GETSET clears a deadline, APPEND and the counters keep it.
- DECRBY of the smallest 64-bit number is refused on an absent key.

Some lemmas only read a definition back in terms of what a client sees, and are no results:
`Laws.SetIsConditional` (SET NX and XX), `Laws.GetSetReadsThenWrites`, `Laws.AppendGrowsTheText`,
`Laws.RenameMoves` and `Ends.PopsTakeTheEnds`. They are not in the table below.

## Model

| member | source | states |
|---|---|---|
| Int64.ParseToString | src/resp.cpp:51-57 | printing an integer and parsing it back gives it exactly if it fits 64 signed bits |
| Numerals.ReadsExactlyNumerals | src/resp.cpp:51-57 | a text is read as `n` if and only if it is an optional `-` and one or more digits, the sum of the digits times powers of ten by position is `n`, and `n` has 64 signed bits; every other text is refused |
| Numerals.ReadsExactlyUnsigned | src/command.cpp:54-63 | the unsigned parser likewise, without a sign and for 64 unsigned bits |
| Numerals.PrintsTheCanonicalNumeral | src/resp.cpp:181-212 | an integer is printed as the one numeral that denotes it without leading zeros |
| Int64.ParseU64ToString | src/command.cpp:54-63 | the round trip for the unsigned parser, which refuses a minus sign |
| Int64.LeadingZero | src/resp.cpp:51-57 | a leading zero does not change the number read |
| Lex.SortedUnique | include/store.hpp:17-40 | iteration order over an ordered container is determined by its elements alone |
| Lex.LessExactly | include/store.hpp:17-40 | the key order: at the first byte where two keys differ the smaller byte comes first, and a key before its extensions |
| Lex.SortedErase | src/store.cpp:914-924 | erasing at an iterator closes the gap and moves nothing else, so the next index is the next key: the step of the loop of `SweepExpired` |
| Resp.FindCrlf | src/resp.cpp:31-39 | a reported line end leaves room for both its bytes |
| Resp.FindCrlfFirst | src/resp.cpp:31-39 | the reported line end is the first one, and none is reported exactly if there is none |
| Resp.FindCrlfFrom | src/resp.cpp:31-39 | the scanning loop computes it |
| Resp.ReadString | src/resp.cpp:41-49 | the copying loop yields exactly the bytes between the two positions |
| Resp.Parse | src/resp.cpp:59-161 | a complete frame is at least 3 bytes long and lies within the buffer; parsing ends because each frame uses bytes, however large an array claims to be |
| Resp.ParseAt | src/resp.cpp:59-161 | recursive descent with a cursor reads what parsing the suffix reads, and nothing before the cursor |
| Resp.ParseBodyAt | src/resp.cpp:64-160 | the switch on the type byte: the three outcomes of each kind of frame |
| Resp.ParseBulkAt | src/resp.cpp:114-126 | a bulk body is incomplete, malformed or exactly its declared bytes |
| Resp.ParseItemsAt | src/resp.cpp:143-156 | the element loop yields the children in order, or the verdict of the first child without a value |
| Resp.ItemsTurn | src/resp.cpp:147-154 | one turn of the element loop: a complete child is appended and its bytes counted, any other child decides the array |
| Resp.AppendEncoded | src/resp.cpp:181-212 | the printer appends the encoding to what it is given and changes nothing before |
| Resp.AppendElements | src/resp.cpp:202-208 | the element loop of the printer |
| Resp.RespParser.Feed | src/resp.cpp:165-167 | received bytes go to the end of the buffer |
| Resp.RespParser.TryParse | src/resp.cpp:169-175 | a complete frame and nothing else is removed from the front; other verdicts leave the buffer |
| Resp.RespParser.Reset | src/resp.cpp:177-179 | nothing is left in the buffer |
| RespLaws.ParseExtend | src/resp.cpp:59-161 | a verdict other than Incomplete is not changed by later bytes |
| RespLaws.ParseLocal | src/resp.cpp:59-161 | a complete frame depends only on the bytes it consumes |
| RespLaws.FramesArePrefixFree | src/resp.cpp:59-161 | every proper prefix of a frame is Incomplete, never complete and never an error; whatever follows the frame is not looked at |
| RespLaws.NodesBounded | src/resp.cpp:128-157 | a parsed value has at most a third as many nodes as the frame has bytes, whatever length its arrays claim |
| RespLaws.RoundTrip | src/resp.cpp:181-212 | parsing a printed value tree, followed by anything, gives the value and consumes exactly what was printed |
| RespLaws.RoundTripExactly | src/resp.cpp:59-212 | a value whose text is shorter than 2^63 bytes survives printing and parsing if and only if it is encodable: error texts hold no line terminator, and integers and lengths fit 64 signed bits |
| RespLaws.RoundTripInContext | src/resp.cpp:59-212 | the same at any position of any buffer |
| RespLaws.ParsedIsEncodable | src/resp.cpp:59-161 | whatever parses is a value the printer can carry |
| RespLaws.Canonical | src/resp.cpp:59-212 | printing what was parsed and parsing again gives the same value: print after parse is an idempotent normal form |
| RespLaws.SimpleStringsBecomeBulk | src/resp.cpp:68-76 | a simple string parses to the same value as the bulk string of its text |
| RespLaws.NullArraysBecomeNullBulk | src/resp.cpp:139-141 | a null array parses to the null bulk string |
| RespLaws.LeadingZerosGo | src/resp.cpp:86-98 | any 64-bit integer with any number of leading zeros parses to the integer, which prints without them |
| RespLaws.DrainAppend | src/client.cpp:44-53 | draining two pieces one after the other is draining them at once |
| RespLaws.SplitIndependence | src/client.cpp:33-74 | however a stream is cut into chunks, feeding and draining gives the same values, the same residual bytes and the same final error verdict |
| RespLaws.DrainEncoded | src/resp.cpp:169-212 | a sequence of printed values drains to exactly these values with nothing left |
| Grammar.CompleteExactlyForFrames | src/resp.cpp:59-161 | the parser reports a complete frame, its value and its length if and only if the bytes up to there are a frame for that value in the grammar |
| Grammar.ErrorExactlyIfBroken | src/resp.cpp:59-161 | it reports an error if and only if the type byte is none of the five, or a line that needs a number holds none of 64 signed bits or one below -1, or the announced body is broken; it waits for more in all other cases |
| Grammar.NoNumeralNoFrame | src/resp.cpp:86-137 | a `:`, `$` or `*` line that is no numeral of 64 signed bits is an error, whatever follows |
| Grammar.BrokenForGood | src/resp.cpp:59-161 | no continuation makes a frame of bytes reported as an error |
| Grammar.DrainsTheFrames | src/client.cpp:46-53 | draining takes all whole frames off the front of a stream and fails exactly if what is left is broken |
| Grammar.EncodesExactly | src/resp.cpp:181-212 | the printer prints null as `$-1`, texts as `$` frames, and sizes and integers as canonical numerals, and nothing else |
| Glob.GlobMatch | src/store.cpp:100-126 | the loop computes the specified outcome in at most T + (T + 1) P turns for a text of T and a pattern of P bytes |
| Glob.Next | src/store.cpp:106-119 | every turn moves the last star forward or, if it stays, the pattern cursor |
| Glob.MatchesAreReal | src/store.cpp:100-126 | no false match, for every pattern and text |
| Glob.OutcomeComplete | src/store.cpp:106-125 | on a text without stars no match is lost, from any reachable cursor |
| Glob.OlderStarLands | src/store.cpp:107-116 | what an earlier backtrack point could still reach, the latest one reaches as well |
| Glob.CorrectExactlyWithoutStars | src/store.cpp:100-126 | a text is judged correctly by every pattern if and only if it contains no `*` |
| Glob.CorrectExactlyForPlainPatterns | src/store.cpp:100-126 | a pattern judges every text correctly if and only if it contains no `*` |
| Glob.LoneStar | src/store.cpp:100-126 | the pattern `*` selects exactly the texts that are empty, start with another byte, or are `*` |
| Glob.MatchesExactly | src/store.cpp:100-126 | the meaning of a pattern, by bytes: 42 any run, 63 any one byte, every other byte itself |
| Glob.GlobSelects | src/store.cpp:100-126 | with that meaning: never a false match, and an exact answer if the pattern or the text has no byte 42 |
| Values.AssignedKeys | src/store.cpp:567-574 | assigning pairs leaves exactly the old and the named fields, duplicates once |
| Command.ParseCommand | src/command.cpp:735-766 | the loop over the elements computes the accepted command or the protocol error |
| Requests.AcceptedExactlyIfCarried | src/command.cpp:735-766 | a value is a command if and only if it is an array of bulk strings whose first is not empty; the name is that text with the bytes 97 to 122 moved down by 32, the arguments are the others as they stand |
| Requests.RefusedExactly | src/command.cpp:735-763 | which protocol error every other value draws |
| Requests.TableExactly | src/command.cpp:679-731 | the dispatch table has exactly its 47 names, each with its handler |
| Requests.LetterCaseIsIgnored | src/command.cpp:36-41 | any letter case of a name in the table reaches its entry, and nothing else does |
| Command.ParseOptions | src/command.cpp:144-188 | the option loop of SET computes the specified reading |
| Command.CollectPairs | src/command.cpp:292-305 | the loop of MSET and HSET pairs the arguments two by two |
| Command.WriteTablesAgree | src/command.cpp:679-731 | a name is in the write list if and only if the dispatch table sends it to a handler that some arguments make change the keyspace |
| Command.OnlyWritersPlanWrites | src/command.cpp:780-789 | no command outside the write table can change the keyspace |
| SetOptions.SpelledIsRead | src/command.cpp:144-188 | any spelling of acceptable options, in any letter case, order and numeral, is read as the last deadline, seconds counted as 1000 milliseconds, and the flags that occur |
| SetOptions.RefusedAtTheFirstFault | src/command.cpp:144-178 | options that are fine followed by one that is not are refused with the error for that one |
| SetOptions.AcceptedExactlyIfSpelled | src/command.cpp:144-188 | SET accepts its options exactly if they spell options with no amount 0 and without NX and XX together |
| SetOptions.SetObeysItsOptions | src/command.cpp:144-188 | what an accepted SET is asked to store, for how long, and under which condition |
| Dispatcher.Decode | src/command.cpp:768-778 | the loops that read the arguments of SET, MSET and HSET, behind the dispatch table, compute the plan; which name does what is stated by name below |
| Dispatcher.AnyWrongType | src/command.cpp:139-142 | the type check before SUNION and SINTER finds a live key of another type exactly if there is one |
| Dispatcher.PerformSetAlgebra | src/command.cpp:600-624 | SUNION and SINTER answer an error if any key has the wrong type, otherwise the ordered members |
| Dispatcher.Perform | src/command.cpp:190-677 | the store's methods carry the plan out: map and reply are those of `Exec`, whose replies are stated by name below |
| Dispatcher.Dispatch | src/command.cpp:768-778 | one command: the store ends as `Exec` says, and the bytes are its reply printed |
| Answers.WrongArityIsRefused | src/command.cpp:107-113 | each name takes just its numbers of arguments; any other number is answered by an error and changes nothing |
| Answers.UnknownNameIsRefused | src/command.cpp:768-775 | a name that is none of the 47 is answered by an error that repeats it |
| Answers.ErrorLines | src/command.cpp:65-95 | the error lines, word for word |
| Answers.StatusLine | src/command.cpp:77-88 | a status is printed as `+`, its text and CR LF |
| Answers.FramesAreCommands | src/command.cpp:735-778 | a frame that carries a command is executed as that command, any other changes nothing and is answered by an error |
| StringCommands.Get | src/command.cpp:190-200 | GET |
| StringCommands.Strlen | src/command.cpp:271-278 | STRLEN |
| StringCommands.Append | src/command.cpp:262-269 | APPEND: the text, the kept deadline, the new length |
| StringCommands.AppendRefusesOthers | src/command.cpp:262-269 | and its refusal of another type |
| StringCommands.Getset | src/command.cpp:280-290 | GETSET: the old text or null, the new one without a deadline |
| StringCommands.GetsetRefusesOthers | src/command.cpp:280-290 | and its refusal of another type |
| StringCommands.CounterAdds | src/command.cpp:216-260 | INCR adds 1, DECR takes 1, INCRBY adds its amount and DECRBY takes it: the sum is answered and stored as its canonical numeral under the deadline the key had |
| StringCommands.CounterOverflows | src/command.cpp:216-260 | a sum that does not fit 64 signed bits is an integer error and nothing is stored |
| StringCommands.CounterRefusesTheRest | src/command.cpp:216-260 | on a text that is no numeral of 64 signed bits an integer error, on another type the type error, and the entry is left |
| StringCommands.AmountIsChecked | src/command.cpp:225-260 | an amount that is no such numeral is an integer error |
| StringCommands.Mset | src/command.cpp:292-305 | MSET: which argument is key and which is value, the last one counts, every other key is left |
| StringCommands.Mget | src/command.cpp:307-312 | MGET, position by position |
| StringCommands.Set | src/command.cpp:144-188 | SET with any acceptable options: obeyed or null by NX and XX, stored until the last deadline |
| StringCommands.SetIsRefused | src/command.cpp:144-178 | SET with faulty options: which error, and nothing changes |
| StringCommands.EchoAndPing | src/command.cpp:626-641 | ECHO and PING |
| KeyCommands.Del | src/command.cpp:202-207 | DEL: distinct keys that were there are counted |
| KeyCommands.Exists | src/command.cpp:209-214 | EXISTS: repetitions count |
| KeyCommands.Dbsize | src/command.cpp:643-648 | DBSIZE |
| KeyCommands.Keys | src/command.cpp:658-663 | KEYS in byte order |
| KeyCommands.Flushdb | src/command.cpp:650-656 | FLUSHDB |
| KeyCommands.Type | src/command.cpp:665-670 | TYPE |
| KeyCommands.Rename | src/command.cpp:672-677 | RENAME: entry with deadline moved, or the key reported absent |
| KeyCommands.Expire | src/command.cpp:314-324 | EXPIRE: seconds, counted in milliseconds modulo 2^64 |
| KeyCommands.Pexpire | src/command.cpp:326-336 | PEXPIRE: milliseconds |
| KeyCommands.ExpiryIsChecked | src/command.cpp:314-336 | an amount that is no number of 64 unsigned bits is an integer error |
| KeyCommands.Persist | src/command.cpp:352-357 | PERSIST |
| KeyCommands.Pttl | src/command.cpp:345-350 | PTTL: the time left as a signed number, -1 without a deadline, -2 without a key |
| KeyCommands.Ttl | src/command.cpp:338-343 | TTL: that in seconds, rounded up |
| ListCommands.Rpush | src/command.cpp:368-375 | RPUSH: values behind in order, deadline kept, new length answered |
| ListCommands.Lpush | src/command.cpp:359-366 | LPUSH: values in front, the last one first |
| ListCommands.Lpop | src/command.cpp:377-387 | LPOP answers the first element and leaves the others; a list that becomes empty is erased |
| ListCommands.Rpop | src/command.cpp:389-399 | RPOP the last one |
| ListCommands.PopNothing | src/command.cpp:377-399 | both answer null on a key that is not there |
| ListCommands.PushesRefuseOthers | src/command.cpp:359-375 | the pushes refuse another type and leave it |
| ListCommands.PopsRefuseOthers | src/command.cpp:377-399 | so do the pops |
| ListCommands.Llen | src/command.cpp:419-429 | LLEN |
| ListCommands.Lindex | src/command.cpp:431-448 | LINDEX from either end, null out of range |
| ListCommands.Lrange | src/command.cpp:401-417 | LRANGE from its first to its second number, both included, element by element |
| ListCommands.NumbersAreChecked | src/command.cpp:401-448 | a number that is none is an integer error |
| HashCommands.Hset | src/command.cpp:450-463 | HSET: which argument is field and which is value, the last one counts, the other fields are left, new fields are counted |
| HashCommands.Hdel | src/command.cpp:477-484 | HDEL: fields that were there are counted; an empty hash is erased |
| HashCommands.HdelNothing | src/command.cpp:477-484 | 0 on a key that is not there |
| HashCommands.HsetRefusesOthers | src/command.cpp:450-463 | HSET refuses another type |
| HashCommands.HdelRefusesOthers | src/command.cpp:477-484 | so does HDEL |
| HashCommands.Hget | src/command.cpp:465-475 | HGET |
| HashCommands.Hexists | src/command.cpp:498-508 | HEXISTS |
| HashCommands.Hlen | src/command.cpp:510-520 | HLEN |
| HashCommands.Hkeys | src/command.cpp:522-532 | HKEYS in byte order |
| HashCommands.Hvals | src/command.cpp:534-544 | HVALS in the order of the fields |
| HashCommands.Hgetall | src/command.cpp:486-496 | HGETALL: each field followed by its value |
| SetCommands.Sadd | src/command.cpp:546-553 | SADD: new members are counted, deadline kept |
| SetCommands.Srem | src/command.cpp:555-562 | SREM: members that were there are counted; an empty set is erased |
| SetCommands.SremNothing | src/command.cpp:555-562 | 0 on a key that is not there |
| SetCommands.SaddRefusesOthers | src/command.cpp:546-553 | SADD refuses another type |
| SetCommands.SremRefusesOthers | src/command.cpp:555-562 | so does SREM |
| SetCommands.Scard | src/command.cpp:588-598 | SCARD |
| SetCommands.Sismember | src/command.cpp:576-586 | SISMEMBER |
| SetCommands.Smembers | src/command.cpp:564-574 | SMEMBERS in byte order |
| SetCommands.Sunion | src/command.cpp:600-611 | SUNION: what is in any of the sets, in byte order; the type error if a key holds another type |
| SetCommands.Sinter | src/command.cpp:613-624 | SINTER: what is in each of them |
| Stores.Store.FindLiveMut | src/store.cpp:50-57 | a lookup returns the entry exactly if it is live and erases it exactly if it is dead |
| Stores.Store.Set | src/store.cpp:147-150 | the key holds the text and the deadline, whatever it held before |
| Stores.Store.Del | src/store.cpp:166-177 | the keys are gone and the answer is the number of distinct live ones |
| Stores.Store.Exists | src/store.cpp:179-188 | live keys are counted as often as they are named |
| Stores.Store.Add | src/store.cpp:190-252 | INCR, INCRBY, DECR, DECRBY: accepted exactly if text and sum fit 64 bits; deadline kept |
| Stores.Store.Append | src/store.cpp:254-272 | the text grows at its end, deadline kept; other types are refused |
| Stores.Store.GetSet | src/store.cpp:288-304 | the old text is returned, the new one stored without a deadline |
| Stores.Store.MSet | src/store.cpp:306-311 | pairs are assigned from left to right |
| Stores.Store.MGet | src/store.cpp:313-328 | one answer per key, null for an absent key and for another type |
| Stores.Store.PExpire | src/store.cpp:330-342 | a live key gets the new deadline, an absent or dead one is reported |
| Stores.Store.Persist | src/store.cpp:344-352 | a deadline is removed and reported exactly if there was one |
| Stores.Store.LPush | src/store.cpp:380-401 | values end up in front of the list in reverse order, deadline kept, other types refused |
| Stores.Store.RPush | src/store.cpp:403-424 | values end up behind the list in order |
| Stores.Store.LPop | src/store.cpp:426-448 | the first element is returned; a list that becomes empty is erased |
| Stores.Store.RPop | src/store.cpp:450-472 | the same at the other end |
| Stores.Store.LRange | src/store.cpp:474-509 | the copying loop returns the clamped slice for all 64-bit bounds |
| Stores.Store.HSet | src/store.cpp:545-575 | fields are assigned from left to right and the answer is the growth of the hash |
| Stores.Store.HDel | src/store.cpp:596-616 | named fields are gone, an empty hash is erased, the answer is the shrinkage |
| Stores.Store.HGetAll | src/store.cpp:618-637 | fields and values alternate in field order |
| Stores.Store.HVals | src/store.cpp:687-705 | values in field order |
| Stores.Store.SAdd | src/store.cpp:707-734 | members are added once each and the answer is the growth |
| Stores.Store.SRem | src/store.cpp:736-756 | members are removed, an empty set is erased, the answer is the shrinkage |
| Stores.Store.SUnion | src/store.cpp:800-816 | the ordered union over the live sets among the keys |
| Stores.Store.SInter | src/store.cpp:818-857 | with its early exits, the ordered intersection over all keys; empty if one is absent or no set |
| Stores.Store.DbSize | src/store.cpp:859-868 | the counting loop counts the live keys |
| Stores.Store.FlushDb | src/store.cpp:870-873 | nothing is left |
| Stores.Store.Keys | src/store.cpp:875-889 | the live keys that match, in key order |
| Stores.Store.Rename | src/store.cpp:901-912 | the entry moves with its deadline; the target is overwritten; a dead source is erased and reported absent |
| Stores.Store.SweepExpired | src/store.cpp:914-924 | the erasing loop removes exactly the dead ones among the first twenty keys |
| Expiry.LazyRefinesEager | src/store.cpp:50-65 | every command, at every time: same reply and same live entries as on the map from which dead entries were removed first |
| Expiry.DeadEntriesAreInvisible | src/store.cpp:59-65 | two maps with the same live entries answer alike and keep the same live entries |
| Expiry.RunsRefineEager | src/store.cpp:50-65 | over every run with a clock that does not go back: the same replies, and ever after the same live entries, as the reference that purges eagerly |
| Expiry.RunsFromSameLive | src/store.cpp:50-65 | dead entries in the starting state never influence a run |
| Expiry.ReadersChangeNothing | src/command.cpp:780-789 | a command outside the write table leaves the map, dead entries included |
| Expiry.LogSuffices | src/client.cpp:63-70 | replaying only the write commands rebuilds the same map and draws the same replies |
| Expiry.ErrorsChangeNothing | src/command.cpp:89-95 | a command answered by an error leaves every live entry |
| Expiry.EffectiveLogSuffices | src/client.cpp:63-70 | leaving out refused writes as well gives the same live entries at all later times |
| Expiry.LogRebuildsReference | src/client.cpp:63-70 | that shorter log, replayed on the reference that purges eagerly, gives the live entries of the program at all later times |
| Timeline.ObserversAgree | src/store.cpp:59-65 | EXISTS, DEL, TYPE, TTL and DBSIZE agree at every instant on whether a key is there |
| Timeline.ReadersAgree | src/store.cpp:152-164 | so do GET and, for every pattern, KEYS: a key is in its reply exactly if it is there and the pattern selects it |
| Timeline.KeysStarMisses | src/store.cpp:875-889 | the reply to `KEYS *` leaves out, of the keys that are there, exactly those of two bytes and more that start with a star |
| Timeline.Countdown | src/store.cpp:330-378 | after PEXPIRE with any amount: PTTL shows the time left, then -2 for ever, the key is visible exactly while time is left, TTL is its ceiling in seconds; a deadline that wraps to 0 lasts for ever, one that wraps further is dead at once |
| Timeline.CountdownStartsRight | src/store.cpp:334-378 | PTTL right after PEXPIRE shows the requested time if and only if it is positive, fits a signed 64-bit number and the deadline does not wrap |
| Timeline.SetStartsCountdown | src/command.cpp:153-187 | SET with EX or PX leaves exactly what a plain SET and PEXPIRE would leave |
| Sweeps.SweepIsInvisible | src/store.cpp:914-924 | a sweep changes no live entry, now or later |
| Sweeps.SweepIsExact | src/store.cpp:914-924 | it removes exactly the dead entries it visits |
| Sweeps.SweepLooksAtTwenty | src/store.cpp:914-924 | it visits a key if and only if fewer than 20 keys come before it in byte order |
| Sweeps.FixpointIsSettled | src/store.cpp:914-924 | a sweep changes nothing exactly if every entry it visits is live |
| Sweeps.SweepsSettle | src/store.cpp:914-924 | as many sweeps as there are dead entries reach such a state |
| Sweeps.NeverReached | src/store.cpp:914-924 | an entry with twenty live ones before it is never removed, by however many sweeps |
| Sweeps.RemovedExactlyIfNear | src/store.cpp:914-924 | as many sweeps as there are dead entries, or more, remove a given dead entry if and only if fewer than twenty live ones stand before it |
| Sweeps.StuckForEver | src/store.cpp:914-924 | twenty-one keys of which the last is dead, and no number of sweeps removes it |
| Runs.CommandsKeepNonEmpty | src/command.cpp:359-562 | no command leaves an empty list, hash or set where there was none |
| Runs.NeverEmpty | src/command.cpp:359-562 | so no run from the empty store reaches one |
| Runs.PopsSucceed | src/store.cpp:426-472 | the empty-list branches of the pops are unreachable |
| Runs.CounterAccepts | src/store.cpp:190-252 | an accepted step stores the canonical text of the sum, keeps the deadline and returns the sum |
| Runs.CounterRefuses | src/store.cpp:78-94 | a step whose sum does not fit changes nothing and answers an error |
| Runs.CounterRun | src/store.cpp:190-252 | one entry under any sequence of counter operations: the number is the first one plus the accepted deltas, and the entry is untouched if all were refused |
| Runs.ListConservation | src/store.cpp:380-472 | one entry under any pushes and pops: what was there and what was pushed is what was popped and what is left, as multisets |
| Runs.SliceOfOne | src/store.cpp:474-543 | LRANGE i i is LINDEX i, or empty exactly if LINDEX is out of range |
| Runs.SlicesJoin | src/store.cpp:474-509 | cutting a list in two at any place loses nothing |
| Runs.SetAlgebraIgnoresOrder | src/store.cpp:800-857 | SUNION and SINTER depend only on which keys are named |
| Runs.FieldCountsAreExact | src/store.cpp:545-616 | the growth HSET and HDEL report is the number of distinct fields that were new, respectively there; an absent key has none (`HashCommands` states the replies) |
| Runs.MemberCountsAreExact | src/store.cpp:707-756 | likewise SADD and SREM (`SetCommands` states the replies) |
| Ends.MirrorRun | src/store.cpp:380-472 | one entry: exchanging left and right throughout draws the same replies from the reversed list and leaves the same list reversed |
| Ends.MirrorIndex | src/store.cpp:525-543 | an index from one end is the opposite index in the reversed list |
| Ends.MirrorSlice | src/store.cpp:474-509 | so are both bounds of LRANGE, clamping included |
| Locality.MultiSetIsLocal | src/store.cpp:306-311 | MSET leaves every other key alone |
| Locality.CommandsAreLocal | src/command.cpp:768-778 | a command changes no key but those it names, expired or not |
| Locality.RunsSpare | src/command.cpp:768-778 | nor does a run |
| Projection.SeenFromTheKey | src/command.cpp:768-778 | over any run in which nobody else writes a key and its deadline is not reached, the entry of the key and the replies to its own commands are those of its own operations alone, one after the other |
| Projection.CountersAddUp | src/store.cpp:190-252 | over any such run whose operations on the key are INCR, INCRBY, DECR and DECRBY: the number is the first one plus the accepted deltas, in canonical text, under the deadline it had; untouched if all were refused |
| Projection.ListsConserve | src/store.cpp:380-472 | over any such run of pushes and pops on the key: what was there and what was pushed is what was popped and what is left, as multisets |
| Projection.ListsQueue | src/store.cpp:403-448 | if these are RPUSH and LPOP, first in is first out |
| Projection.ListsQueueBackwards | src/store.cpp:380-472 | and so it is with LPUSH and RPOP |
| Projection.ListsMirror | src/store.cpp:380-472 | a run that exchanges left and right on the reversed list draws the same replies and leaves the same list reversed, whatever either run does elsewhere |
| Projection.ListsStack | src/store.cpp:380-472 | one push and as many pops at the same end return the values in reverse and restore the key, absence and deadline included, whatever happens elsewhere in between |
| NamedRuns.QueueIsFirstInFirstOut | src/command.cpp:368-387 | over any run of commands in which the key is only the subject of `RPUSH key ...` and `LPOP key` and nobody else touches it: what it held and what was pushed is, in order, what the pops answered and what it holds |
| NamedRuns.ListsConserveElements | src/command.cpp:359-399 | with all four pushes and pops: the same as multisets |
| NamedRuns.CountersCount | src/command.cpp:216-260 | over any run in which the key is only the subject of INCR, DECR, INCRBY and DECRBY: it holds the canonical numeral of the first number plus all that was added by commands not refused, under the deadline it had; untouched if all were refused |
| NamedRuns.UntouchedIsLeft | src/command.cpp:768-789 | told by name and arguments, a command leaves every key it does not touch |
| Laws.DecrementUndoes | src/store.cpp:190-252 | DECRBY takes an accepted INCRBY back; the stored text is back exactly if it was canonical |
| Laws.PersistUndoes | src/store.cpp:334-352 | PERSIST takes PEXPIRE back exactly if there was no deadline before |
| Laws.RemoveUndoesAdd | src/store.cpp:707-756 | SREM takes SADD back exactly if no name was a member |
| Laws.DeleteUndoesSet | src/store.cpp:545-616 | HDEL takes HSET back exactly if every field was new |
| Laws.AssignedLast | src/store.cpp:306-311 | the last value given to a name stays |
| Laws.MultiGetAfterMultiSet | src/store.cpp:306-328 | MGET after MSET, at any time, reads the last value given to each key |
| Laws.SetsReadBack | src/store.cpp:707-798 | SISMEMBER and SCARD after SADD and SREM |
| Laws.HashesReadBack | src/store.cpp:545-594 | HGET after HSET reads the last value given |
| Laws.HashesKeepTheRest | src/store.cpp:545-594 | and the old value of a field not given |
| Laws.HashesForget | src/store.cpp:577-616 | HGET after HDEL reads null for the removed fields and the same for the others |
| Laws.RenameBack | src/store.cpp:901-912 | renaming there and back restores the live entries exactly if the name was free or the same |
| Laws.CountdownGoesOn | src/store.cpp:330-378 | the countdown PEXPIRE starts is not disturbed by any run of commands that leave the key alone |
| Alignment.ReplyRoundTrip | src/resp.cpp:214-261 | a reply, whatever follows it, parses to its one value |
| Alignment.RepliesAlign | src/resp.cpp:214-261 | concatenated replies decode to exactly their values, nothing left over |
| Alignment.UnknownCommandIsWireable | src/command.cpp:768-775 | the reply to an unknown command is one frame exactly if the name has no line terminator |
| Alignment.UnknownCommandSplits | src/command.cpp:768-775 | a name for which it is not |
| Alignment.PlanIsWireable | src/command.cpp:190-677 | every planned action on a keyspace of representable size replies with one whole value |
| Alignment.CommandAligns | src/command.cpp:768-778 | the reply to a command is one whole value exactly if the table knows its name or the name has no line terminator |
| Service.ConversationAligns | src/client.cpp:44-73 | over a whole conversation the replies decode to one value per request, in order, nothing left over, if and only if no request names an unknown command with a line terminator |
| Service.TransportIsInvisible | src/client.cpp:33-74 | however the requests are cut into chunks, the replies and the final keyspace are the same |
| Transport.SendingOutcome | src/client.cpp:79-102 | some positive counts and what follows: if they reach what was left, all is sent and well; otherwise exactly their sum is sent, well if EAGAIN, a count of 0 or nothing follows, badly if a send fails |
| Transport.EveryScript | src/client.cpp:79-102 | these are all the cases |
| Transport.NoFailureNoLoss | src/client.cpp:84-90 | sending never loses a connection unless a send fails |
| Transport.ReceivingOutcome | src/client.cpp:33-44 | the chunks before the first other result are received, and the stream stays open exactly if that result is EAGAIN or there is none |
| Clients.Client.EnqueueResponse | src/client.cpp:104-107 | a reply goes behind the unsent bytes and the client is in the writing state |
| Clients.Client.HandleFrame | src/client.cpp:55-72 | one frame: one execution of the handler, one reply, in order |
| Clients.Client.DrainFrames | src/client.cpp:46-73 | the inner loop answers exactly the whole frames in the buffer and keeps the rest |
| Clients.Client.OnReadable | src/client.cpp:30-77 | exactly the frames that became whole are answered, in order, on the keyspace as the replies before left it; the result says whether the stream is still open and well formed |
| Clients.Client.TrySend | src/client.cpp:80-96 | one send: the bytes taken are the next unsent ones; EAGAIN and a count of 0 end the event well, an error ends it badly, any other count goes on |
| Clients.Client.OnWritable | src/client.cpp:79-102 | exactly the bytes the transport took are sent, none lost, doubled or reordered; the state is reading exactly if nothing is left; it succeeds whenever no send fails |
| Clients.Client.Input | src/client.cpp:30-77 | a readable event, told of what can be seen of a connection and the keyspace: the frames that became whole are answered in order, nothing is sent, and whether the stream is still good |
| Clients.Client.Output | src/client.cpp:79-102 | a writable event, likewise: the next unsent bytes leave, nothing else changes; it succeeds whenever no send fails |
| Servers.EventLoop.Add | src/event_loop.cpp:31-42 | callback and registration are entered together, or neither |
| Servers.EventLoop.Modify | src/event_loop.cpp:44-57 | both are replaced together, or neither |
| Servers.EventLoop.Remove | src/event_loop.cpp:59-62 | both are gone |
| Servers.Server.CloseClient | src/server.cpp:261-272 | client, callback, registration and count go together; nobody else is affected |
| Servers.Server.OnClientReadable | src/server.cpp:180-208 | the frames that became whole are answered, executed and entered in the log; the client survives exactly if its stream is open and well formed and the write interest, if needed, was granted |
| Effects.ReadingOutcome | src/server.cpp:180-208 | a readable event, for every script of results: what is answered and executed, and exactly when the connection is lost |
| Effects.WritingOutcome | src/server.cpp:210-238 | a writable event, for every script of results: which bytes leave, and exactly when the connection is lost |
| Effects.BrokenIsClosed | src/server.cpp:162-166 | a broken connection is closed as it is |
| Effects.InputThenOutput | src/server.cpp:167-172 | otherwise input comes first, and output only if the connection has survived it |
| Effects.HealthyStays | src/server.cpp:162-238 | an event without an end, an error or a refusal never loses a connection that speaks RESP |
| Servers.Server.OnClientWritable | src/server.cpp:210-238 | what the transport takes is sent, for every script as above; if no send fails and the change of interest is granted, the client stays |
| Servers.Server.OnClientEvent | src/server.cpp:162-173 | a broken connection is closed unserved; otherwise exactly the frames that became whole are answered and executed, then exactly the bytes the transport takes are sent; whether the client survives; the log grows by these frames; no other client is touched |
| Servers.Server.OnNewConnection | src/server.cpp:142-178 | exactly the connections whose registration was granted become clients |
| Servers.AdmittedExactly | src/server.cpp:142-178 | which these are: the accepts before the first error |
| Servers.Server.AddClient | src/server.cpp:157-176 | a new client is filed, counted, called back and registered |
| Servers.Server.RefuseClient | src/server.cpp:157-176 | one whose registration fails leaves no trace |
| Servers.Server.Shutdown | src/server.cpp:118-140 | no client is left, both own descriptors are out of the loop, the loop stops |
| Servers.Server.OnSignal | src/server.cpp:240-259 | a termination signal shuts down, anything else changes nothing |
| Servers.Server.HandleEvent | src/event_loop.cpp:71-81 | the callback of the descriptor runs, if it still has one: an event on a client answers, executes, sends and logs as above and changes no other client; any other event serves nobody and ends with exactly the specified clients |
| Servers.Server.RunOnce | src/event_loop.cpp:64-83 | after every batch, stale events included, everything is in step, and the log, which accounts for keyspace and clients, has only grown |
| Servers.Server.Run | src/event_loop.cpp:85-96 | so it is over any number of rounds, whatever the environment does |
| Servers.NothingIsStuck | src/server.cpp:142-272 | the kernel reports what each client sends; a client has unsent bytes exactly if the kernel will report it writable exactly if it is in the writing state; count, callbacks and clients match |
| History.TurnIsTold | src/client.cpp:44-73 | when a connection is served, the log extended by its new frames gives its replies and the keyspace as they then are |
| History.OthersAreTold | src/client.cpp:44-73 | and goes on giving those of every other connection |
| History.PastIsServed | src/client.cpp:44-73 | what the handler makes of a log is the execution of its requests one after the other |
| History.ToldIsWireable | src/client.cpp:44-73 | if the logged requests fit and none names an unknown command with a line terminator, every reply to every connection is one whole value |
| Servers.EverythingIsSequential | src/server.cpp:142-272 | at every moment, however the connections were interleaved, the keyspace is that of executing the logged requests one after the other on an empty one; each client's frames and replies are its part of the log and of the outputs; sent and unsent bytes are its replies printed |
| Servers.EveryPeerIsInStep | src/server.cpp:142-272 | so if the requests fit and none names an unknown command with a line terminator, what each peer reads decodes to one value per frame it sent, in order |
| Servers.ShutdownIsComplete | src/server.cpp:118-140 | after a shutdown nothing is registered |

## Left out

- Sockets, `accept4`, `recv`, `send`, `epoll`, `signalfd`, address formatting, configuration and `main`: only their outcomes appear, as arguments.
- The append-only file and snapshots: `src/aof.cpp` is a stub that never opens and `src/rdb.cpp` is empty; the log theorems are about `is_write_command` and `dispatch`, and the branch for a failed append is not taken.
- Locking: the server has one thread, so each command is one step; SET with NX or XX, a lookup and then a store, is one step as well.
- A clock that goes back, or ticks within one command: each command reads one instant.
- Running out of memory: `reserve` with a huge declared length can throw in C++; here the heap is unbounded. Where lengths must fit 64 bits (`Alignment.Fits`), that is a stated assumption.
- Positions in a buffer are unbounded numbers: a buffer of 2^63 bytes or more, where `parse_at` could overflow, cannot exist.
- Timeline.Countdown: the TTL clause leaves out the last 999 milliseconds below 2^63, where the source's addition would overflow a signed number.
- KeyCommands.Ttl: the model rounds up without a bound; the source's addition would overflow for the same last 999 milliseconds.
- Laws.CountdownGoesOn: assumes a deadline that fits a signed 64-bit number; `Timeline.Countdown` says what happens otherwise.
- Projection.SeenFromTheKey: leaves out runs in which the deadline of the key is reached or PEXPIRE sets one on it; `Expiry` and `Timeline` say what happens then.
- Stores.Store: read-only one-branch getters (GET, STRLEN, TTL, PTTL, TYPE, LLEN, LINDEX, HGET, HEXISTS, HLEN, HKEYS, SMEMBERS, SISMEMBER, SCARD) are functions of the entry found, not methods of their own; the key copies of a nested container's in-place update are a reassigned map entry, so aliasing inside one entry is not modelled.
- Servers.Server.OnNewConnection: an accepted descriptor that is still in use, which the kernel never returns, ends the round like an error.
- Servers.Server.constructor: stands for construction and a successful `start`; a failing `start` never reaches the loop.
- `tick_periodic_tasks`: it has no caller in `src/`; the theorems are about the sweep itself.
