# A verified model of the in-memory data-structure server

These Dafny files model four linked parts of the server: its wire protocol, its
containers, its command state machine with the event handlers around it, and its
SHA-256 with the users of it. `dafny verify dfyconfig.toml` checks everything.

The model takes the form of the source. Cursors, buffers, hash tables, queues,
vectors, the SHA-256 context, the event table and the server are classes whose
methods change fields and relink nodes in place; each method is proved to compute a
function on values, and the results below are theorems about those functions, their
runs, and the objects.

| file | what it models |
|---|---|
| Sequences, Objects, Wire, Builder, Parsing | joining and repeating sequences; the tagged objects, their encoding and decoding; the encoder on a byte buffer and the decoder as a one-byte-lookahead cursor |
| Commands, Requests, Formats, Grammar, Line, LineParsing, Typing | commands, the bytes the client library sends for them, letter by letter too, which bytes are an object or a command and what becomes of all others, the command line in front of it, and what a user types for a command |
| Vstrs, Keys, RequestKeys, SmearedKeys | the small-string-optimised buffer, which objects may serve as keys, the bytes that the parser leaves in a key, and keys read from broken lines |
| Buckets, TableRuns, TableHistories, HashTables, HashTableRuns, HashTableIters | the chained hash table: operations on bucket lists, runs against a finite map and against the history of each key, the linked nodes, runs of the linked table, and the iterator |
| Queues, Vecs | the linked queue and the doubling vector |
| Databases, DatabaseArrays | one database with its four containers, and the array of databases with separate footprints |
| ServerSpec, ServerRuns, Histories, ServerReplies, ReplyTexts, Replies | `execute_cmd` as a state machine, runs of it with many clients against plain databases and against the events themselves, what clients read back, the replies byte by byte, and how they are built |
| Events, Sending, Ledgers, Clients, Servers | the event table, the write loop, the event loop as functions, and the server object with its handlers |
| Whole, Counterexamples | the server from its start: what all of the above gives its clients, and runs that show what its conditions exclude |
| Sha256, Sha256Constants, Sha256Vectors, Sha256Inverse, Sha256Streaming, RandomBytes, Auths | FIPS 180-4, its constants as roots of primes, its one-block example, the compression run backwards, the streaming context, the HMAC counter-mode stream, and passwords |

Where to start reading: `Wire.RoundTrip`, `TableRuns.RunRefines`,
`ServerRuns.RunRefines`, `ServerReplies.OneReply`, `Servers.Server.Turn` and `Serve`,
`Whole.StartAndServe`, `Whole.TypedLine`, `Sha256Streaming.DigestOf`.

How the server's theorems fit together. `Servers.Server.Execute` shows that the object
does for one request what `ServerSpec.Exec` says; `Turn` shows that every handler moves
the whole server (databases, sessions, replies, leftover bytes, bytes waiting and bytes
put on the wire) as `Ledgers.IoPost` says and keeps the invariant; `Serve` does so for
any run of the event loop; `Ledgers.IoRuns` shows that such a run is a run of the
command state machine `ServerRuns.Run`. `Whole` closes the chain from the start:

- `StartGood` shows that a started server is in a state that the theorems about runs
  ask for, and stands for empty databases;
- `StartedRefines` takes `ServerRuns.RunRefines` to every run of the event loop from
  there: databases and the answers on every connection are those of plain maps, sets,
  queues and stacks;
- `StartedTells` takes `ServerReplies.OneReply` there: what a connection was told reads
  back as its answers, object by object, exactly when no mislisted KEYS was answered on
  it;
- `OnlyAfterLogin` takes `ServerRuns.AuthGate` there;
- `StartAndServe` starts the server object and lets it serve: the bytes delivered to each
  client and those still waiting are the answers of the plain databases, if no write
  tore a reply (`Ledgers.RunBalanced`), as when every write takes all or nothing
  (`Ledgers.WholeUntorn`);
- `TypedLine` goes from the keyboard to the reply: a line typed on a connection that has
  logged in, and read in one event, is answered as the plain databases answer it.

The specification functions that these theorems speak through are pinned down by
statements that do not use them:

- `Histories` tells a run by its events alone: who is connected, logged in and works on
  which database, that GET answers the value of the last SET, that DEQUE answers in the
  order of ENQUE and POP in the opposite one of PUSH, and what the counter counts;
  `Ledgers.ClosedDoes` and the lemmas beside it, with `Ledgers.OpenExactly`, do so for the
  event loop, and `TableHistories` for the hash table;
- `Formats` and `ReplyTexts` give requests and replies byte by byte, and `Typing` what is
  typed for each command;
- `Grammar` gives the form of the bytes that are read as each kind of object and as each
  command, and what every other input is read as, malformed and cut off ones included;
- `Sha256Constants` shows that the constants are roots of primes, and `Sha256Vectors` that
  the digest of "abc" is the one the standard prints;
- `Auths.AcceptedExactly` says who is let in.

The theorems in `Whole` speak of runs whose requests have keys that fit (`AllFitting`: canonical, and not
read from a broken line) and arguments that can be encoded (`FairRun`); `ClientRequest`
and `RequestKeys.ClientKeyFits` show which requests of the client library are such.
`Counterexamples` has runs of a started server that end in a mislisted reply and in a
torn one, and `SmearedKeys` a request whose key does not fit and what is lost by it.

Assumptions that appear as parameters or hypotheses:

- The seeded SipHash is an arbitrary function of a key's bytes; each table has its own.
- `strtold` on an integer's text is an arbitrary function `conv`; round trips assume
  `Exact(conv)`, that it is exact on the decimal text of 64-bit integers, as
  `Wire.ReadDecimal` is (`Wire.ExactExists`).
- The bytes of a request's key, which the tables hash, are a function of the request
  (`RequestKeys.KeyBytes`), also where they differ from those of the key's content. Only
  bytes that hold pointers are an input (`heapImage`): texts on the heap, arrays, tables.
- Bytes that arrive, how reads end, how much each write call takes, the uptime and the
  host facts that INFO reports are inputs. Allocation succeeds.

Where the code does something else than one may expect, the code is modelled and the
exact condition is proved:

- KEYS takes its count from the client's database and its keys from the first one. The
  reply is well formed exactly when `Mislisted` does not hold; `MislistedReply` and
  `LongListing` say what a client reads otherwise. It lists the client's own keys exactly
  when there are none or they are those of the first database (`ServerRuns.KeysAreOwn`).
- A simple line or error without its LF reads as an empty text, but the text stays behind
  in the bytes that are hashed. A request's key fits exactly when it is canonical and not
  read from such a line (`RequestKeys.KeyFitsExactly`); a value set under such a key is
  found again under the empty text exactly when the hash puts both into one slot
  (`SmearedKeys.ValueLost`).
- The write loop starts every call at the front of the buffer. All write patterns are
  modelled. A loop leaves a reply intact exactly when its calls write nothing, or write
  to the end and each one's piece is also what lies at its own offset
  (`Sending.ConservesExactly`); the replies of a whole run survive exactly when that holds
  of every write event (`Ledgers.RunBalanced`). A loop tears no reply of a length exactly
  when no call writes a proper part (`Sending.WritesConserve`).
- The command line can write a quoted text back in escaped form exactly when it holds
  no NUL and no backslash that ends the text or stands before `n`, `r` or `t`
  (`Line.QuotedRoundTrip`, `Line.SomeUnquotable`).
- `ev_add_event` keeps the maximum descriptor exactly when some event is asked for or
  the descriptor is not a new maximum (`Events.EventTable.Add`, `Events.SomeWrongMax`).

## Model

| member | source | states |
|---|---|---|
| Wire.RoundTrip | src/parser.c:341-494 | reading the encoding of any encodable tree, whatever follows it, gives the normalised tree and leaves the cursor exactly on what follows |
| Wire.RoundTripAll | src/parser.c:431-459 | a concatenation of encodings is read as the sequence of the objects, the rest untouched |
| Wire.RoundTripPairs | src/parser.c:460-489 | the same for key-value pairs of a table |
| Wire.SelfDelimiting | src/builder.c:190-246 | encodings are prefix-free: if two encodings with continuations are equal, the objects agree and so do the continuations |
| Wire.HeaderRoundTrip | src/parser.c:586-593 | a printed length below 2^64 after a type byte is read back digit by digit |
| Wire.IntRoundTrip | src/builder.c:118-137 | every 64-bit integer, negative ones too, survives printing and parsing |
| Wire.ExactExists | src/parser.c:555-569 | a conversion that is exact on every 64-bit integer exists, so the round trips are not about nothing |
| Wire.TextRoundTrip | src/builder.c:84-116 | a string of any bytes, CR, LF and NUL included, is read back |
| Wire.BoolRoundTrip | src/builder.c:139-150 | a nonzero boolean is read back as 1, zero as 0 |
| Wire.SimpleRoundTrip | src/parser.c:519-553 | simple texts and errors without CR and NUL are read back as strings |
| Wire.DepthBound | src/parser.c:341-494 | four times the nesting depth of whatever is parsed never exceeds the input length, on every input |
| Wire.ParseObjectSuffix | src/parser.c:620-634 | what is left after parsing is a suffix of the input: the cursor never goes back |
| Parsing.Parser.ReadChar | src/parser.c:620-627 | the cursor moves one byte, or stays at the end reading NUL, and never goes back |
| Parsing.Parser.ReadHeader | src/parser.c:431-448 | the digit test, the length and the line end as the specification reads them, error exits included |
| Parsing.Parser.ReadItems | src/parser.c:450-458 | the element loop reads the sequence of the declared length, elements that fail included |
| Parsing.Parser.ReadObject | src/parser.c:341-494 | the recursive cursor program computes the decoding function and the bytes of the object read, and ends on every input, also where elements consume nothing |
| Parsing.Parser.ReadLine | src/parser.c:519-553 | the line's text and the bytes an object keeps of it, with the text dropped from the one but not from the other when the line is broken |
| Parsing.Parser.ReadArgs | src/parser.c:130-302 | which argument counts and types make which command, when the command is illegal, and the bytes of the argument that is a key |
| Parsing.ParseCommand | src/parser.c:67-70 | parsing a request buffer gives the command of the specification and the bytes of its key |
| Parsing.ParseReply | src/parser.c:72-75 | parsing a reply buffer gives the object of the specification |
| Commands.LookupName | src/parser.c:325-339 | looking up the name of a command type gives that type: no two share a name |
| Commands.RequestDelivered | src/parser.c:85-323 | every request of the client library is read by the server as the same command with the same, normalised, arguments |
| Formats.Example | src/builder.c:84-246 | one encoding with every kind of value, letter by letter |
| Formats.BareTexts | src/hilexi.c:109-599 | the requests without arguments, letter by letter |
| Formats.TwoTexts | src/hilexi.c:74-256 | AUTH and SET are an array of three with their own names |
| Formats.OneTexts | src/hilexi.c:258-420 | GET, DEL, PUSH and ENQUE are an array of two with their own names |
| Formats.MoreOneTexts | src/hilexi.c:420-599 | the same of ZSET, ZHAS, ZDEL and SELECT |
| Formats.SentExactly | src/hilexi.c:74-599 | the commands that the theorems take for requests are exactly those the library has bytes for |
| Formats.LengthFits | src/parser.c:105-302 | an array is read as a command only if its declared length is the one of that command: two, three, or any for HELP |
| Formats.BareCommands | src/parser.c:85-103 | a name without an array is that command with nulls and zeroes for arguments |
| Formats.UnknownName | src/parser.c:325-339 | a text that is none of the seventeen names is no command |
| Grammar.HeaderIs | src/parser.c:586-618 | a length is the value of its digits modulo 2^64 and needs a digit and CR LF; without them the cursor stays on the tag, or behind the digits |
| Grammar.TextExactly | src/parser.c:344-369 | a string is read if and only if the input is the digits of its length, CR LF, that many bytes and CR LF, and is then those bytes |
| Grammar.TextIs | src/parser.c:344-369 | a string that is cut off is null with nothing left, one that CR LF does not close is null with the rest left |
| Grammar.NumberExactly | src/parser.c:370-382 | a number is read if and only if a text without CR and NUL is closed by CR LF, and is then the converted text |
| Grammar.NumberIs | src/parser.c:370-382 | a number that is not closed so is null, and the cursor stays where its text ends |
| Grammar.FlagExactly | src/parser.c:396-418 | the four bytes of each boolean, and where the cursor stays for any other byte |
| Grammar.LineIs | src/parser.c:519-553 | a line is its text if CR LF closes it, and the empty string if not; one byte is skipped either way |
| Grammar.ArrayIs | src/parser.c:431-459 | an array holds as many objects as it declares, each read where the one before it ends, whatever they are |
| Grammar.TableIs | src/parser.c:460-489 | a table holds as many keys and values as it declares, each read where the one before it ends |
| Grammar.NoHeader | src/parser.c:344-489 | strings, arrays and tables without a header are null |
| Grammar.TwoArguments | src/parser.c:143-184 | an array is SET or AUTH if and only if it declares three objects, the name and two that are not null |
| Grammar.OneArgument | src/parser.c:185-297 | an array is GET, DEL, PUSH, ENQUE, ZSET, ZHAS, ZDEL or SELECT if and only if it declares two objects, the name and one that is not null, for SELECT an integer |
| Grammar.HelpArgument | src/parser.c:134-142 | an array is HELP if and only if it starts with that name and the name of a command |
| Grammar.NameAlone | src/parser.c:85-103 | a request that starts with a string is the command of that name with nulls and zeroes, and nothing if it is no name |
| Grammar.NoCommand | src/parser.c:85-128 | what is neither a name nor an array with a header is no command |
| Requests.AddRequest | src/hilexi.c:74-599 | the client library appends exactly the bytes of the request, or reports that they do not fit |
| Requests.AddAuth | src/hilexi.c:74-91 | AUTH ignores whether its array header fitted; the request is complete or refused all the same |
| Requests.AddTwo | src/hilexi.c:229-256 | a two-argument request is its length, name and both arguments, and a refused piece is reported |
| Line.LineDelivered | src/lexi-cli.c:86-165 | the command of any typed line, sent and parsed, arrives as that command with normalised arguments |
| Typing.TypedIs | src/line_parser.c:66-192 | for every command, a line with its name in lower or upper case and its arguments as words, quoted texts or numbers, between any blanks, stands for that command |
| Typing.SetTyped | src/line_parser.c:66-192 | one such line, letter by letter |
| Typing.UnknownLine | src/line_parser.c:66-173 | a line whose first word is none of the thirty names, such as AUTH, is no command whatever follows |
| Typing.ArgumentMissing | src/line_parser.c:66-192 | a name with nothing behind it is that command with nulls for arguments, and SELECT none |
| Typing.SelectText | src/line_parser.c:131-139 | SELECT with a word or a quoted text is no command |
| Typing.NothingRead | src/line_parser.c:176-192 | where no letter, quote, digit or minus stands, no argument is read and nothing is skipped but blanks |
| Typing.QuoteUnclosed | src/line_parser.c:203-240 | a quoted text without its closing quote goes to the end of the line |
| Typing.LongNumber | src/line_parser.c:251-266 | digits of any length, with or without a minus, are their value as a wrapped 64-bit integer |
| Typing.EscapesRead | src/line_parser.c:203-240 | the four escapes stand for line feed, carriage return, tab and quote |
| Line.QuotedRoundTrip | src/line_parser.c:203-240 | an escaped text between quotes is read back if and only if it is quotable |
| LineParsing.LineParser.ReadQuoted | src/line_parser.c:203-240 | the escape loop computes the specification, cursor position included |
| LineParsing.LineParser.ReadNumber | src/line_parser.c:251-266 | the number loop with its 64-bit wrap-around and sign |
| LineParsing.LineParser.ReadArgument | src/line_parser.c:176-192 | which arguments are words, quoted texts, numbers or nothing |
| LineParsing.ParseLineCommand | src/line_parser.c:66-145 | the cursor program over a line gives the command of the specification |
| Builder.AddString | src/builder.c:84-116 | appends exactly the encoding of a string, or reports that it does not fit and appends a part at most |
| Builder.AddObject | src/builder.c:190-246 | the same for a whole tree, over the recursion and its early exits |
| Builder.AddItems | src/builder.c:203-217 | the element loop appends the concatenated encodings |
| Replies.AddAnswer | src/server.c:655-860 | each kind of reply, built piece by piece, is its specified bytes |
| Replies.AddPairs | src/server.c:672-719 | the pairs INFO writes one after the other are the encoding of the pair list |
| Vstrs.Vstr.PushChar | src/vstr.c:139-155 | the contents grow by one byte across inline, switch-over and heap, or -1 exactly at the length limit |
| Vstrs.Vstr.PushString | src/vstr.c:175-191 | the contents grow by the string in every representation, or -1 exactly when it would exceed the limit |
| Vstrs.Vstr.MakeLarge | src/vstr.c:235-250 | the switch from the inline buffer to the heap keeps the contents and zeroes the rest |
| Vstrs.Vstr.Realloc | src/vstr.c:311-322 | growing the heap buffer keeps the contents and zeroes the rest |
| Vstrs.Vstr.Terminated | src/vstr.h:45-65 | a heap string, and an inline string that was only pushed to, is NUL-terminated at its length, a full inline one by its flag byte |
| Vstrs.Vstr.Reset | src/vstr.c:193-202 | reset empties the contents in either representation |
| Vstrs.Vstr.Free | src/vstr.c:204-210 | the length is forgotten and the inline bytes stay; the buffer is then clean only if it was empty |
| Keys.CanonicalKeys | src/object.c:42-73 | on keys of the canonical class comparison holds exactly for equal contents and exactly for equal bytes |
| Keys.VstrSameMeaning | src/vstr.c:116-137 | the string comparison as it is written: which texts it takes for the same |
| Keys.ComparisonFaults | src/object.c:42-73 | numbers compare equal exactly when they agree in 32 bits, any two booleans do, and arrays and tables never |
| Keys.LayoutExamples | src/object.h:19-28 | the 64 bytes that are hashed for a text and for a number |
| Keys.KeysLawful | src/server.c:1082-1086 | for every seeded hash the server's comparison is an equivalence on canonical keys that never joins keys of different hashes |
| Keys.BuildText | src/parser.c:496-505 | the string parser's pushes leave exactly the byte layout that keys are hashed by |
| Keys.InlineLayout | src/vstr.h:45-65 | an inline string that was only pushed to is, with its flag byte, a function of its contents |
| Keys.BuildLine | src/parser.c:519-553 | the pushes of a line's text, and the free of a broken one, leave exactly the stated bytes in the vstr |
| RequestKeys.BytesOfContent | src/parser.c:341-430 | a canonical object has the bytes of its content if and only if it was not read from a broken line with a text |
| RequestKeys.KeyFitsExactly | src/parser.c:105-302 | the key of any request is canonical with the bytes of its content if and only if it is canonical and not read from a broken line |
| RequestKeys.ClientKeyFits | src/hilexi.c:109-599 | the keys of the client library's requests fit if and only if they are canonical as they arrive |
| SmearedKeys.FoundByEveryHash | src/ht.c:156-188 | a key that compares equal to a stored one is found under every hash if and only if the two have the same bytes |
| SmearedKeys.SmearedSetRead | src/parser.c:519-535 | SET with any text of up to 23 bytes on a line without LF is read as SET of the empty text with that text in the key's bytes, and does not fit |
| SmearedKeys.ValueLost | src/ht.c:30-96 | a plain map finds the value of such a SET under the empty text; the server finds it if and only if the hash puts both into one slot |
| Buckets.BytewiseLawful | src/ht.c:61-68 | comparing key bytes is an equivalence and hash-compatible with no further hypothesis |
| Buckets.GetPut | src/ht.c:30-96 | lookup after an insertion, for the same and for any other key |
| Buckets.GetDelete | src/ht.c:190-221 | lookup after a deletion, for the same and for any other key |
| Buckets.PutWellFormed | src/ht.c:30-96 | each key stays in one chain only, that of its own slot, and once |
| Buckets.ResizeLaws | src/ht.c:251-286 | doubling keeps every lookup, the number of entries and the placement of keys |
| Buckets.FlatUnique | src/ht.c:324-370 | listing slot by slot and chain by chain never shows two equal keys |
| TableRuns.StepRefines | src/ht.c:30-221 | one operation on the table is the operation on the map of its contents, with the same reply |
| TableRuns.RunRefines | src/ht.c:30-221 | over every run of the operations, with resizes wherever they fall, replies and contents are those of a finite map |
| TableHistories.RunByHistory | src/ht.c:30-221 | over every run of a new table each key has what was last stored under it and not deleted since, every operation reports what that history says, and new entries are counted |
| TableRuns.AbsSize | src/ht.c:47-55 | the number of entries is the size of the map |
| TableRuns.GrowthBound | src/ht.c:251-286 | over every run from an empty table the capacity is 32 times a power of two, relinked entries are the capacity minus 32, and fewer than twice the fresh insertions; `HashTableRuns.RunAll` counts them where nodes move |
| HashTables.MoveOne | src/ht.c:264-282 | relinking one node to the front of its new chain is the rehash step of that entry |
| HashTables.MoveTable | src/ht.c:258-282 | relinking all nodes in place, none lost or shared, is the rehash of the listing |
| HashTables.Overwrite | src/ht.c:71-80 | writing a new value into a node changes that entry of the table and no other |
| HashTables.UnlinkFirst | src/ht.c:206-207 | making the slot point past its first node removes that entry only |
| HashTables.UnlinkNext | src/ht.c:208-210 | making the node before it point past a node removes that entry only |
| HashTables.HashTable.Resize | src/ht.c:251-286 | the linked table then holds the doubled table, with acyclic, disjoint chains |
| HashTables.HashTable.Get | src/ht.c:156-188 | the walk along the chain finds what the specification finds |
| HashTables.HashTable.Insert | src/ht.c:30-96 | the linked table holds the specified table afterwards, overwrite, new node and growth included |
| HashTables.HashTable.TryInsert | src/ht.c:98-154 | a known key is refused and the table stays, but for the growth that comes first; otherwise it is added |
| HashTables.HashTable.Delete | src/ht.c:190-221 | unlinking the first or an inner node removes exactly the key's entry, and the result tells whether there was one |
| HashTableRuns.Perform | src/ht.c:30-221 | one operation on the linked nodes is one step of the table's run, the nodes it moved and made counted where the loops move and make them |
| HashTableRuns.RunAll | src/ht.c:30-221 | any sequence of operations on a linked table is the run that `TableRuns.RunRefines` is about, replies and counts included |
| HashTableRuns.AmortisedMoves | src/ht.c:251-286 | over every run on a new linked table the nodes relinked by resizes are the capacity minus 32, fewer than twice the nodes made |
| HashTableIters.HtIter.Step | src/ht.c:333-370 | the two-ahead iterator moves to the next live entry over empty slots and chain ends |
| HashTableIters.Collect | src/ht.c:324-370 | visits every entry exactly once in listing order and ends after as many visits as there are entries |
| Queues.Queue.Enque | src/queue.c:21-34 | appends at the tail of the linked nodes |
| Queues.Queue.Deque | src/queue.c:36-53 | takes the first element, or reports that the queue is empty |
| Queues.Queue.Peek | src/queue.c:55-60 | the first element, with nothing changed |
| Vecs.Vec.Push | src/vec.c:52-64 | appends, growing first exactly when full, and a growth copies every element once, no push otherwise copies any |
| Vecs.Vec.Realloc | src/vec.c:38-50 | doubling keeps the contents and copies the elements once |
| Vecs.AmortisedCopies | src/vec.c:38-107 | over every sequence of pushes, pops and removals on a new vector the contents are those of the sequence, and the elements copied by growing are the capacity minus 2, fewer than twice the pushes |
| Vecs.Vec.Pop | src/vec.c:66-76 | takes the last element, or reports that the vector is empty |
| Vecs.Vec.RemoveAt | src/vec.c:86-107 | removes exactly one element and closes the gap |
| Vecs.Vec.Find | src/vec.c:109-122 | the first matching index, or -1 exactly when none matches |
| Vecs.Elements | src/vec.c:135-153 | the iterator visits a non-empty vector's elements in order, each once |
| Databases.Database.SetInsert | src/set.c:29-79 | the set's table gains the key unless it has it, the other containers stay |
| Databases.Database.SetDelete | src/set.c:104-135 | the set's table loses the key, and the result tells whether it was there |
| Databases.Database.SetHas | src/set.c:81-102 | membership, with nothing changed |
| Databases.Database.Apply | src/server.c:908-992 | the data commands on the four linked containers are the specified ones, reply included |
| DatabaseArrays.DatabaseArray.Apply | src/server.c:751-854 | a data command changes the selected database as specified and no other, and footprints stay apart |
| DatabaseArrays.DatabaseArray.ListKeys | src/server.c:732-750 | KEYS walks the first database's table but declares the count of the client's |
| DatabaseArrays.NewDatabases | src/server.c:390-402 | the databases start empty, with seeds of their own and disjoint footprints |
| ServerSpec.AnswerDecodes | src/server.c:655-860 | any sendable reply reads back as its meaning with nothing left over, if and only if a listing declares its true length |
| ServerReplies.OneReply | src/server.c:644-860 | every command whose arguments can be encoded, but an authenticated OK, adds exactly one object that reads back, if and only if it is not a mislisted KEYS; stored values stay encodable |
| ServerReplies.MislistedReply | src/server.c:733-747 | a KEYS reply that lists too few keys reads with nulls at the end |
| ServerReplies.LongListing | src/server.c:733-747 | a KEYS reply that lists too many leaves encodings over for the next read |
| ServerReplies.InfoSendable | src/server.c:672-719 | the eleven INFO pairs are always encodable |
| ReplyTexts.RefusalSays | src/server.c:644-655 | no command gets EINVCMD, a command without login EUNAUTHED, and neither changes anything |
| ReplyTexts.AuthSays | src/server.c:662-671 | AUTH gets OK if and only if the user is let in, else its error, and is not counted |
| ReplyTexts.PlainSays | src/server.c:656-661 | OK gets nothing, PING gets PONG and counts, HELP gets EINVCMD |
| ReplyTexts.SelectSays | src/server.c:722-731 | SELECT gets OK if and only if the number is in range, else EDBRANGE |
| ReplyTexts.KeysSays | src/server.c:732-750 | KEYS gets NONE for an empty database, else the number of its keys and the keys of the first, and counts |
| ReplyTexts.StoringSays | src/server.c:751-833 | SET, PUSH, ENQUE and ZSET get OK and count |
| ReplyTexts.AskingSays | src/server.c:761-847 | GET, ZHAS, POP and DEQUE get the value and count, or get NONE and do not |
| ReplyTexts.DeletingSays | src/server.c:771-854 | DEL and ZDEL get OK and count, or get EINVKEY and do not |
| ReplyTexts.InfoBytes | src/server.c:672-719 | the eleven names INFO sends, each with its value |
| ReplyTexts.InfoSays | src/server.c:672-721 | INFO gets that table with the counter, the connections and the databases of the moment, and counts |
| ServerRuns.DbRefines | src/server.c:908-992 | one data command on tables, queue and vector is the command on map, set, FIFO and LIFO sequences by the contents of keys, with the same reply |
| ServerRuns.ExecRefines | src/server.c:644-860 | one command with its guards, session changes and counter is its abstraction |
| ServerRuns.KeysMatch | src/server.c:732-750 | KEYS lists each key of the first database exactly once |
| ServerRuns.KeysAreOwn | src/server.c:732-750 | KEYS lists the keys of the client's own database if and only if it has none or the same keys as the first |
| ServerRuns.RunRefines | src/server.c:644-992 | over every interleaving of any number of clients, databases and replies are those of an array of maps, sets and sequences |
| ServerRuns.Isolation | src/server.c:644-860 | a step changes at most the database its authenticated client has selected, and no other client's session |
| ServerRuns.AuthedOnlyAfterAuth | src/server.c:651-671 | over every run, an authenticated client had an AUTH of its own accepted on this connection |
| ServerRuns.AuthGate | src/server.c:651-671 | over every run, whenever an event changes a database its client had logged in before |
| ServerRuns.SelectInRange | src/server.c:722-731 | SELECT takes exactly the numbers of databases; negative ones fail like large ones and change nothing |
| Histories.ConnectedExactly | src/server.c:452-543 | over every run exactly the clients that connected and did not disconnect since have a session |
| Histories.AuthedExactly | src/server.c:651-671 | over every run exactly the clients with an accepted AUTH on their connection are authenticated |
| Histories.SelectedExactly | src/server.c:722-731 | a client works on the database of its last SELECT that was taken on this connection, or on the first |
| Histories.HoldsPerformed | src/server.c:644-860 | over every run a database holds what the data commands of its authenticated clients, in order, make of what it held |
| Histories.DictByCommands | src/server.c:908-936 | a key has a value if and only if its last SET gave it and no DEL came after |
| Histories.ZsetByCommands | src/server.c:971-992 | a value is in the set if and only if it was put in and not taken out since |
| Histories.QueueByCommands | src/server.c:953-969 | the queue holds the enqueued values in order but for as many first ones as DEQUEs found something |
| Histories.StackByCommands | src/server.c:938-951 | each place of the stack holds what was pushed there last |
| Histories.AnswerByCommands | src/server.c:751-854 | after any run from empty databases a data command is answered as the commands performed before determine |
| Histories.GetAnswer | src/server.c:761-770 | GET answers the value of the last SET, and NONE if and only if there is none or a DEL came since |
| Histories.DelAnswer | src/server.c:771-779 | DEL answers OK if and only if the key has a value, and EINVKEY otherwise |
| Histories.SetAnswers | src/server.c:823-854 | ZHAS and ZDEL find a value if and only if it was put in and not taken out since |
| Histories.DequeAnswer | src/server.c:811-822 | the n-th DEQUE that finds something answers the n-th value enqueued |
| Histories.PopAnswer | src/server.c:790-800 | POP answers the value of the last PUSH that was not popped yet |
| Histories.CounterExact | src/server.c:644-860 | over every run the counter is the number of counted commands in 64 bits |
| Servers.Server.Personal | src/server.c:656-731 | the commands that change at most the client: AUTH, SELECT, INFO, PING and the refusals |
| Servers.Server.Perform | src/server.c:655-860 | a command past the guards changes databases and session, and answers, as specified |
| Servers.Server.Execute | src/server.c:644-860 | parsing, guards, command and counter together are one step of the state machine; exactly its reply is appended |
| Servers.Server.AnswerRequest | src/server.c:559-577 | a complete read event keeps the invariant, takes one step, adds exactly the new reply to the bytes waiting to be written and delivers nothing |
| Servers.Server.Drop | src/server.c:535-543 | end of input removes that client only, and its socket is no longer watched for reading |
| Servers.Server.ReadFromClient | src/server.c:506-578 | for every way a read loop can go, leftover bytes included, the server is then where the books say |
| Servers.Server.SendLoop | src/server.c:592-609 | the write loop sends what the specification of repeated writes sends, and ends as it does |
| Servers.Server.WriteToClient | src/server.c:580-613 | a write event, whatever each call takes, keeps the invariant and moves what is delivered and what waits as the write loop's specification says, databases and sessions unchanged |
| Servers.Server.Deliver | src/server.c:592-612 | the calls' bytes are put on the wire; a loop that counted enough empties the builder and drops the write event, a failed call keeps both |
| Servers.Server.Accept | src/server.c:452-504 | a new client keeps the invariant, even on a descriptor with events left from an earlier one |
| Servers.Server.Turn | src/ev.c:149-190 | every event keeps the invariant and moves databases, sessions, replies, leftover bytes, waiting bytes and delivered bytes as the event loop's books say |
| Servers.Server.Serve | src/ev.c:192-199 | over any run and any pattern of writes: databases, sessions and each client's delivered and waiting bytes are what the books say, a waiting reply has a registered write, and exactly the connected sockets are watched for reading |
| Servers.NewServer | src/server.c:375-388 | a started server has the invariant, empty databases and no clients |
| Ledgers.IoRuns | src/ev.c:192-199 | every run of the event loop is a run of the command state machine, which the theorems about runs speak of |
| Ledgers.ConnectingDoes | src/server.c:452-504 | a new connection has an unauthenticated session on the first database and an empty account |
| Ledgers.ClosedDoes | src/server.c:535-543 | at the end of input the connection is gone, and nothing else has changed |
| Ledgers.FailedDoes | src/server.c:545-554 | a read that fails leaves everything as it was but for the bytes it brought |
| Ledgers.BlockedDoes | src/server.c:555-577 | a read that would block makes one request of all bytes at hand, its answer is told and waits, and no bytes are left |
| Ledgers.WritableDoes | src/server.c:580-613 | a write event moves bytes from those waiting to those sent, and drops those waiting if and only if the loop counted enough |
| Ledgers.OpenExactly | src/ev.c:149-199 | over every run exactly the descriptors are connected that were connected and whose input has not ended since |
| Ledgers.FlushedBalanced | src/server.c:592-612 | a write event keeps sent bytes followed by waiting bytes equal to the answers if and only if its amounts write nothing, or what waits in place |
| Ledgers.IoBalanced | src/ev.c:149-190 | one event keeps that equality for all connections if and only if it is not a write event whose amounts tear what waits |
| Ledgers.RunBalanced | src/ev.c:192-199 | at every moment of a run every connection was sent, and has waiting, exactly its answers in order, if and only if the amounts of every write event on the way wrote nothing, or what waited in place |
| Ledgers.WholeUntorn | src/server.c:592-612 | a run in which the first call of a write event that takes anything takes everything tears no reply |
| Ledgers.WholeBalanced | src/ev.c:192-199 | over every run of such writes every connection was sent, and has waiting, exactly its answers |
| Clients.SessionCount | src/server.c:707-708 | the connections INFO counts are the sessions of the state machine |
| Clients.PasswordShort | src/server.c:889-893 | a parsed password is never longer than its request |
| Sending.ConservesExactly | src/server.c:594-609 | a given reply survives the loop if and only if the calls write nothing, or write to its end with every piece equal to what lies at its own offset |
| Sending.WritesConserve | src/server.c:594-609 | the write loop delivers every reply of a length intact if and only if no call writes a proper part of it |
| Sending.WholeConserves | src/server.c:594-609 | under whole writes a finished loop sent exactly the buffer, an unfinished one nothing |
| Events.EventTable.Add | src/ev.c:87-115 | the mask table and the select sets take the new events together; the maximum is right if and only if an event is asked for or the descriptor is no new maximum |
| Events.SomeWrongMax | src/ev.c:87-115 | a new table that is asked for no event on descriptor 0 gets a wrong maximum |
| Events.EventTable.Delete | src/ev.c:117-147 | masks, select sets and maximum descriptor stay right through the rescan and the repeated removal |
| Events.EventTable.Rescan | src/ev.c:135-143 | the downward scan finds the next lower descriptor with events, or -1 |
| Events.EventTable.ApiDel | src/ev_select.c:51-59 | the select sets lose the descriptor for exactly the events given |
| Events.WithoutBits | src/ev.c:129-134 | removing events leaves exactly the other ones |
| Events.BitByBit | src/ev.h:5-8 | which bit of a mask stands for which event; asking joins masks, and dropping EV_WRITE, but not EV_READ, drops the order bit 4 with it |
| Whole.StartGood | src/server.c:375-402 | a started server is in the state that the theorems about runs ask for, and stands for empty maps, sets, queues and stacks |
| Whole.ClientRequest | src/parser.c:85-323 | a request of the client library arrives with arguments that can be stored and sent back |
| Whole.ReadBack | src/hilexi.c:90-107 | a stream of answers is read object by object, the right ones and nothing else consumed, if and only if every listing in it declares its true length |
| Whole.RunRecorded | src/server.c:559-577 | the bytes told to each open connection are the answers the state machine gave on it, in order, over every run of the event loop |
| Whole.RunHonest | src/server.c:644-860 | over every run only values that can be sent are stored, every answer can be sent, and the connections with an inexact answer are those a mislisted KEYS was answered on |
| Whole.StartedRefines | src/server.c:452-860 | over every run of the event loop from the start, databases and the answers on every connection are those of plain maps, sets, queues and stacks |
| Whole.StartedTells | src/server.c:452-860 | over every run from the start, what an open connection was told reads back as its answers with nothing left over, if and only if no mislisted KEYS was answered on it |
| Whole.StartedAnswers | src/server.c:452-860 | over every run of the event loop from the start, a data command is answered as the commands determine that were performed on the client's database before |
| Whole.OnlyAfterLogin | src/server.c:651-671 | over every run of the event loop, a database changes only on bytes read from a connection that logged in before |
| Whole.FittingRun | src/parser.c:105-302 | a run whose requests have keys that fit gives the state machine keys that are canonical with the bytes of their content, whatever the heap holds |
| Whole.TypedLine | src/lexi-cli.c:86-165 | after any run, a line typed on a connection that has logged in, and read in one event, is answered with bytes that read back as the meaning of the plain databases' answer |
| Whole.StartAndServe | src/server.c:375-613 | the server object, started and served any events: every connection is answered as plain databases answer, and unless a write tore a reply, delivered and waiting bytes read back as those answers |
| Counterexamples.SomeTorn | src/server.c:592-612 | connect, PING without login, two writes of which the first takes a part: the client gets that part of the refusal twice |
| Counterexamples.SomeMislisted | src/server.c:733-747 | log in, select database 1, set a key there, KEYS: the reply declares one key, lists none, and reads as a list of one null |
| Sha256Streaming.Ctx.Transform | src/sha256.c:56-95 | the in-place schedule and the rounds over eight registers equal section 6.2.2 of FIPS 180-4 for every state and block |
| Sha256Streaming.Ctx.PushByte | src/sha256.c:113-121 | one byte goes to the buffer, and a full buffer into the state |
| Sha256Streaming.Ctx.Update | src/sha256.c:110-122 | the context then stands for the longer message: state over whole blocks, the tail in the buffer, the bit count |
| Sha256Streaming.Ctx.Final | src/sha256.c:124-168 | both padding cases give the digest of the whole message |
| Sha256Streaming.DigestOf | src/sha256.c:97-168 | for every way to cut a message into updates the result is the one-shot digest |
| Sha256.PadShort | src/sha256.c:130-133 | padding of section 5.1.1 when fewer than 56 bytes are left |
| Sha256.PadLong | src/sha256.c:134-140 | padding of section 5.1.1 when 56 or more are left |
| Sha256.LengthFieldIs | src/sha256.c:143-152 | the length field is the number of bits modulo 2^64, most significant byte first |
| Sha256Inverse.CompressUndone | src/sha256.c:57-96 | the old hash value is recovered from the new one and the block by subtracting it and running the rounds backwards: the rounds start from it and are added to it |
| Sha256Inverse.RoundUndone | src/sha256.c:74-85 | a round can be undone from what it leaves |
| Sha256.BytesOfWord | src/sha256.c:156-167 | the four bytes of a word, most significant first, make up the word |
| Sha256Constants.ConstantRoot | src/sha256.c:42-54 | each of the 64 constants is the first 32 bits of the fraction of a cube root, of the first 64 primes in order |
| Sha256Constants.InitialRoots | src/sha256.c:97-109 | the initial hash value is the same of the square roots of the first eight |
| Sha256Vectors.Example | src/sha256.c:56-168 | the digest of "abc" is the one printed in appendix B.1 of FIPS 180-2 |
| Sha256Vectors.OutputWords | src/sha256.c:156-167 | a digest is its eight words, each most significant byte first |
| RandomBytes.Generator.NextBlock | src/util.c:45-66 | one turn computes HMAC of section 2 of RFC 2104 over the little-endian counter |
| RandomBytes.HmacIs | src/util.c:45-66 | HMAC is the digest of section 2 of RFC 2104, for whatever the key gives when combined with 0x36 and 0x5c |
| RandomBytes.CounterBytesIs | src/util.c:57-60 | the hashed counter is its number modulo 2^64, least significant byte first |
| RandomBytes.DigestTwo | src/util.c:57-60 | a digest over two updates is the digest of both together |
| RandomBytes.Generator.Fill | src/util.c:45-75 | the buffer becomes the first bytes of the counter-mode stream and the counter moves by the blocks used, a partial one included |
| RandomBytes.StreamContinues | src/util.c:45-75 | two calls that end on block boundaries give the stream one call gives: no counter is used twice |
| RandomBytes.StreamAt | src/util.c:45-75 | byte `i` of the stream is byte `i` modulo 32 of the block of the counter that is `i` divided by 32 ahead, modulo 2^64 |
| Auths.TimeSafeCompare | src/auth.c:7-14 | the accumulated difference is 0 if and only if the texts agree everywhere |
| Auths.HexInjective | src/auth.c:16-33 | different digests have different hexadecimal texts |
| Auths.HashPassword | src/auth.c:16-33 | the nibble loop gives the hexadecimal digest of the password |
| Auths.AddUsers | src/server.c:404-426 | users are stored with hashed passwords, and a repeated name is refused |
| Auths.Authenticate | src/server.c:862-906 | the command's answer is the specified decision, type errors and unknown users included |
| Auths.SomeAccepted | src/server.c:862-906 | with a user of this name and the digest of this password, the login is accepted |
| Auths.AuthDecision | src/server.c:862-906 | a known user is let in if and only if the supplied password has the digest of the configured one |
| Auths.UnknownRefused | src/server.c:866-889 | nobody is let in without a known name and two texts |
| Auths.AcceptedExactly | src/server.c:862-906 | over the configured users, a login is accepted if and only if it names one and its password has the digest of that one's |
| Auths.OctetsInjective | src/auth.c:16-33 | different texts of octets have different octets |
| Auths.HexExample | src/auth.c:16-33 | two lower-case characters a byte, the high half first |

## Left out

- Doubles: `%g`, `strtod` and the `,` type byte (src/parser.c:386-398, src/parser.c:571-584), whose digit loop has no test for the end of input; on `,` the model reads no object.
- Wire.RoundTrip: holds for encodable trees; tables with entries (src/builder.c:219-246 never advances its iterator) and empty arrays (src/vec.c:135-143 wraps on an empty vector) are not encodable, nor are strings longer than a buffer can hold.
- Objects: a parsed table value keeps the sequence of insertions its pairs cause, not the chains they end in.
- Databases.Database.SetInsert: src/set.c is modelled by the hash table with unit values, which has the same slots, chains and relinking. Its growth test is `>=` (src/set.c:35), the model's `==`; they agree because a table never holds more entries than slots (`Accounted` in `TableRuns.RunRefines`). Its separate copy of that code is not modelled a second time.
- Keys outside the canonical class: heap strings are hashed by pointer bytes, other object types compare in ways that are no equivalence (src/object.c:42-73).
- Builder.AddObject: takes encodable trees only, for the reason given at Wire.RoundTrip.
- Builder.AddItems: the same for the elements.
- ServerReplies.OneReply: an accepted request with an argument that is not encodable, such as SET with an empty array for its value (`*0`), is not covered: the source's vector iterator wraps when it sends such a value back (src/vec.c:135-143). Requests of the client library have encodable arguments (`Whole.ClientRequest`).
- ServerRuns.DbRefines: assumes canonical keys, as ServerRuns.RunRefines does.
- ServerRuns.ExecRefines: the same.
- Whole.StartAndServe: assumes keys that fit and encodable arguments; the theorems it joins say what each of these is needed for.
- Whole.TypedLine: the same, and a request that arrives in one read event.
- Whole.StartedRefines: assumes keys that fit.
- Whole.StartedTells: assumes encodable arguments, for the reason given at ServerReplies.OneReply.
- Whole.RunHonest: the same.
- Parsing.Parser.ReadObject: a text whose declared length is above 2^56-2 stops the source at an assertion (src/vstr.c:35); here it is read like any other.
- Grammar.TextExactly: the same.
- ServerRuns.RunRefines: assumes canonical keys with the bytes of their content, which the comparison and the hash need; `RequestKeys.KeyFitsExactly` says which requests have them.
- SipHash internals, the seeds' quality and `ht_padding`: any function of bytes serves the tables.
- Servers.Server.Execute: the server's builder is a byte sequence here; that the pieces are pushed to a buffer one by one is shown in `Replies.AddAnswer`, including the refusal above 2^56-1 bytes that the server ignores.
- Servers.Server.ReadFromClient: requests of four gigabytes and more are not modelled; only the first command of a read event is parsed, as in the source.
- Servers.Server.Accept: a descriptor beyond the event table, which the source leaves in its client list after freeing it, is not modelled.
- Auths.AddUsers: an empty list of configured users succeeds here; the source's iterator wraps on it (src/vec.c:135-143).
- The epoll back end, `ev_resize_num_fds`, the order in which fired events of one poll are handled, and sockets themselves.
- Memory ownership, `free` callbacks, reallocation of read buffers, and every out-of-memory branch.
- Reading the configuration file, logging, option parsing, help texts, and the client's own read loop.
