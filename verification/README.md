# Verified model of the storage service's base layer

This project models the layer every other part of the service stands on, and proves what it promises:

- the JSON library the configuration is read with: parser, printer, minifier, comparison and duplication
  (`JsonText`, `JsonLayout`, `JsonString`, `JsonEscapes`, `JsonNumerals`, `JsonParser`, `JsonGrammar`, `JsonPrinter`,
  `JsonRoundTrip`, `JsonMinify`, `JsonMinifyChunks`, `JsonMinifyText`, `JsonMinifyParse`, `JsonCompare`);
- the containers and the scheduler: the intrusive circular list, the chained hash map over it, the batching job
  queue and the hashed pool over several of them (`LinkedList`, `HashMap`, `ThreadPool`);
- the connection: its queues, flags and reference count, the workers that serve it, the cutting of the byte
  stream into messages, the shared read buffers, the server's limit on them and the client's table of waiting
  requests (`Connection`, `ConnectionCalls`, `Framing`, `ResponseFraming`, `ReadBuffers`,
  `FlowControl`, `ClientTable`);
- the cluster map: length, dump, bounds-checked parser, the two responses that carry it, and the placement of
  block sets on services (`ClusterMap`, `ClusterCodec`, `ClusterDump`, `ClusterParse`, `WireLayout`, `Placement`);
- the keep-alive chain of an object service under the housekeeping thread (`KeepAlive`, `KeepAliveCalls`,
  `KeepAliveStatus`).

`Bytes` and `Arithmetic` hold what several of them need.

## How it is built

Code that runs alone on its own data is imperative Dafny: classes and arrays that are changed in place, proved
against a function of the text, bytes or tree (`Text`, `ValueAt`, `Minified`, `Dumped`, `MapAt`, ...), and the
laws are lemmas about these functions.  What such a function is itself is pinned by a second account that shares
nothing with it: a concrete syntax (`JsonGrammar`, `JsonNumerals`, `JsonMinifyChunks`), the standards' own tables and bit
layouts (`JsonEscapes`), joined texts (`JsonLayout`), literal offsets (`WireLayout`), or a relation in place of a search
(`JsonCompare.SameName`, `JsonCompare.Alike`).

Code that shares data between threads is a step relation: one locked section, atomic operation, kernel call or
callback is one step, and `Runs` lets callers, workers, the closer and the kernel interleave freely.  The laws hold
for every run.  The classes beside a relation are the source's functions, and their contracts say both which run of the
relation they perform and what state they leave.  The kernel is a sequence of answers: some bytes, would
block, interrupted, or failed.

Where the code does not do what its callers may expect, the model follows the code.  Such a law is stated with the
exact condition under which it holds, or stands next to a lemma with a concrete run that breaks it:

- `PrintPreallocated` needs two bytes more than the text; the header file advises five.
- Minifying keeps the tree of every text accepted to its end.  Without that check it keeps it exactly if the tree is no
  number or strtod takes no more off what minifying puts behind it (`MinifyWithoutEndCheck`, `MinifyJoinsTokens`).  A
  text with an open string or comment makes the scan step over its terminator.
- A tree compares equal to its duplicate exactly if it is tame, which excludes NaN, missing names and a repeated key
  with two meanings (`RepeatedKeyDiffers`).  That a node equals itself changes nothing for tame trees.
- A submission is followed by a job except under the condition of `RaiseBringsJob`; `WakeUpMissed` is a run in which
  a submitted buffer is left without one.
- The last reference goes safely exactly if no call or wake-up is under way at that moment (`LastReference`);
  `CarelessCall` is a run in which one is.
- The client's close handler stops waiting safely exactly if no call of sendRequest is exposed (`WaitIsSafe`), and it
  can return before a worker has freed a request it has called back (`ReturnBeforeFree`).
- The server drops one reference too many when the read that continues a stream is refused (`ServerRefusalMiscounts`).
- The limit on read buffers needs a limit of at least two, and holds exactly as long as a wake-up that finds a parked
  buffer comes below the limit (`WakeIsTimely`, `LateWakeUp`).  A parked buffer is taken up again exactly if it is awaited
  when it is stored; releases between the count and the store can leave it for good (`ParkIsAwaited`, `ParkedForGood`).
- What a worker puts back after the closer has taken the queue is called back exactly if somebody is still under way
  to it (`PutBackIsServed`); otherwise it keeps the connection alive (`PutBackIsForgotten`).
- A request whose decoder is not written yet is never decided, so a read buffer full of it stops the connection
  (`FixedRequestIsStable`).
- The length of a dump is right exactly if its 32-bit products do not wrap (`LengthIsRight`), and the counters of the
  status come back exactly if they are below 2^32 (`StatusRoundTrip`).
- The placement finishes exactly if it is balanced (`FillBSets`).
- A second synchronisation becomes possible exactly by a keep-alive request that is refused while one is under way
  (`ForgettingAllowsTwo`, `TwoSyncs`).

## Model

| member | source | states |
|---|---|---|
| `JsonPrinter.PrintBuffer.Ensure` | corecode/util/cJSON.c:373-459 | succeeds exactly when the reservation fits the capacity (the fixed buffer, or the largest int); then the bytes already printed are still there and the reserved ones and one more lie in the buffer; on failure the buffer is untouched |
| `JsonPrinter.PrintBuffer.UpdateOffset` | corecode/util/cJSON.c:461-471 | the scan for the NUL ends exactly behind the text just written, so the offset counts prefix and text |
| `JsonPrinter.PrintBuffer.PrintString` | corecode/util/cJSON.c:827-946 | succeeds exactly when the escaped, quoted string and its NUL fit, and then stands behind the old prefix, whether or not the buffer was reallocated |
| `JsonPrinter.PrintBuffer.PrintArray` | corecode/util/cJSON.c:1435-1494 | succeeds exactly when all numbers fit their scratch buffer and the text fits the capacity; then the buffer holds the old prefix and exactly the array text, at the old depth |
| `JsonPrinter.PrintBuffer.PrintObject` | corecode/util/cJSON.c:1606-1717 | the same for objects, with indentation, names and separators of both formats |
| `JsonPrinter.PrintBuffer.PrintValue` | corecode/util/cJSON.c:1267-1338 | for every tree and every initial buffer: fails exactly when the text cannot fit, and otherwise leaves the old prefix followed by exactly the text of the pure function Text |
| `JsonPrinter.Print` | corecode/util/cJSON.c:1087-1160 | a fresh string of exactly the text and its NUL, exactly when all numbers fit their scratch buffer and the text the size limit |
| `JsonPrinter.PrintBuffered` | corecode/util/cJSON.c:1162-1190 | the guessed size changes neither whether printing succeeds nor the text |
| `JsonPrinter.PrintPreallocated` | corecode/util/cJSON.c:1192-1210 | works exactly when all numbers fit their scratch buffer and the given buffer is at least two bytes longer than the text |
| `JsonLayout.ScalarLayout` | corecode/util/cJSON.c:1287-1325 | words and strings print as the words themselves and as the escaped characters between quotes, in both formats |
| `JsonLayout.ArrayLayout` | corecode/util/cJSON.c:1435-1494 | an array prints as brackets around its elements joined by a comma, with a space behind it when formatted |
| `JsonLayout.ObjectLayout` | corecode/util/cJSON.c:1606-1717 | a formatted object prints each member on its own line, one tab further in, with a colon and a tab behind the name and a comma at the end of every line but the last, and its closing brace at its own depth |
| `JsonLayout.PlainObjectLayout` | corecode/util/cJSON.c:1606-1717 | an unformatted object prints its members joined by commas, with colons behind their names and nothing else |
| `JsonLayout.NumbersFitIs` | corecode/util/cJSON.c:480-520 | the numbers of a tree can be printed exactly if none of their texts is longer than 25 bytes |
| `JsonString.ParseHex4` | corecode/util/cJSON.c:540-574 | the value of the four digits, or 0 when one of them is no digit |
| `JsonString.StepWithinEstimate` | corecode/util/cJSON.c:577-825 | whatever the escape, one step of the second pass writes no more bytes than the first pass has counted on the way, even when the passes disagree where escapes begin |
| `JsonString.OutputWithinEstimate` | corecode/util/cJSON.c:698-825 | for every literal, well-formed or not, the bytes written are at most the estimate |
| `JsonString.WellFormedLiteral` | corecode/util/cJSON.c:577-825 | a literal of section 7 of RFC 8259 is accepted whole, and its value is its unescaping; `JsonEscapes` says what that is |
| `JsonString.AcceptedIsWellFormed` | corecode/util/cJSON.c:577-825 | conversely, a literal both passes accept without a bad digit is such a literal, and its value that unescaping |
| `JsonString.EscapedString` | corecode/util/cJSON.c:827-946 | what the printer writes for a string is a well-formed literal that means that string |
| `JsonString.QuotedParses` | corecode/util/cJSON.c:698-946 | a printed string, wherever it stands, is read back by both passes as the string it was printed from |
| `JsonEscapes.Hex4Reads` | corecode/util/cJSON.c:540-574 | four bytes are read as n, without a bad digit, exactly if they spell n in hexadecimal digits of either case, the highest first |
| `JsonEscapes.Utf8IsStandard` | corecode/util/cJSON.c:644-683 | the bytes written for a character follow the syntax of section 4 of RFC 3629, have the length of its range, and their payload bits are the character |
| `JsonEscapes.Utf8IsUnique` | corecode/util/cJSON.c:644-683 | conversely, any bytes of that syntax are the ones that are written for the character in their payload |
| `JsonEscapes.CombineIs` | corecode/util/cJSON.c:605-633 | two codes are combined to a character exactly if they are its surrogate halves |
| `JsonEscapes.ShortEscapeIs` | corecode/util/cJSON.c:765-785 | the eight short escapes and what they stand for, and no others |
| `JsonEscapes.PieceStands` | corecode/util/cJSON.c:577-795 | a piece of a literal is well-formed and means some bytes exactly if it stands for them: itself, a short escape, or the UTF-8 of the character its digits spell |
| `JsonEscapes.LiteralStands` | corecode/util/cJSON.c:698-812 | a literal made of such pieces is read, wherever it stands, as what they stand for |
| `JsonEscapes.AcceptedStands` | corecode/util/cJSON.c:698-812 | conversely, a literal accepted without a bad digit is made of such pieces |
| `JsonEscapes.PrinterEscapes` | corecode/util/cJSON.c:889-938 | what the printer writes for each byte: seven short escapes, four lower-case digits for the other control bytes, and every other byte as it is |
| `JsonParser.ParseBuffer.SkipWhitespace` | corecode/util/cJSON.c:963-981 | the cursor goes to the next byte above space, or back onto the NUL at the end |
| `JsonParser.ParseBuffer.ParseNumber` | corecode/util/cJSON.c:266-340 | takes exactly the number strtod finds in the at most 63 number characters at the cursor, or fails without moving |
| `JsonParser.StrtodAgain` | corecode/util/cJSON.c:266-340 | the number text that was taken would be taken whole again, so it can stand for the number |
| `JsonNumerals.StrtodTakesFloat` | corecode/util/cJSON.c:266-340 | what the scan for strtod takes is a number: sign, digits with at most one point, and a complete exponent |
| `JsonNumerals.StrtodTakesLongest` | corecode/util/cJSON.c:266-340 | and no longer beginning of the text is one |
| `JsonNumerals.NumeralIsFloat` | corecode/util/cJSON.c:266-340 | the number texts of a tree are exactly the numbers of at most 63 bytes that begin with a minus or a digit |
| `JsonParser.ParseBuffer.FindEnd` | corecode/util/cJSON.c:711-736 | finds the closing quote as Scan does, and its estimate is the number of steps it took |
| `JsonParser.ParseBuffer.UnescapeInto` | corecode/util/cJSON.c:745-799 | every store lies inside the estimated memory; the output is that of Unescape, or the position is the first bad escape |
| `JsonParser.ParseBuffer.ParseString` | corecode/util/cJSON.c:698-825 | result and cursor of StringAt, on success and on every failure |
| `JsonParser.ParseBuffer.ParseValue` | corecode/util/cJSON.c:1212-1264 | result, cursor and depth of the grammar function ValueAt, on every input and every failure |
| `JsonParser.ParseBuffer.ParseArray` | corecode/util/cJSON.c:1341-1432 | the same for ArrayAt, with the nesting limit |
| `JsonParser.ParseBuffer.ParseItems` | corecode/util/cJSON.c:1373-1415 | the loop over the elements takes the list ItemsAt describes |
| `JsonParser.ParseBuffer.ParseObject` | corecode/util/cJSON.c:1497-1603 | the same for ObjectAt |
| `JsonParser.ParseBuffer.ParseMembers` | corecode/util/cJSON.c:1527-1587 | the loop over the members takes the list MembersAt describes |
| `JsonParser.ParseBuffer.ParseMember` | corecode/util/cJSON.c:1553-1578 | a name, a colon and a value, as MemberAt describes |
| `JsonParser.ParseWithOpts` | corecode/util/cJSON.c:984-1084 | the tree, if any, and the reported end, of the whole text |
| `JsonGrammar.SpelledParses` | corecode/util/cJSON.c:1212-1603 | a value written by the concrete syntax, wherever it stands and at any depth, is parsed as that value and ends there, unless it is nested deeper than 1000 levels |
| `JsonGrammar.ParsedIsSpelled` | corecode/util/cJSON.c:1212-1603 | conversely, whatever is parsed is written there by that syntax, with that value, nested at most 1000 deep |
| `JsonGrammar.ParsesExactly` | corecode/util/cJSON.c:984-1084 | with the end check a tree is returned exactly for the texts of that value: perhaps a byte order mark, whitespace, the value, and whitespace to the end |
| `JsonGrammar.ParsesBeginning` | corecode/util/cJSON.c:984-1084 | without the end check the tree and the end that are returned are exactly those of a text written there, whatever follows it, provided strtod takes no more off that |
| `JsonGrammar.ErrorPosition` | corecode/util/cJSON.c:1025-1072 | an error is never reported in front of the value, and a failing end check at the first byte behind the value that is no whitespace |
| `JsonRoundTrip.ValueParses` | corecode/util/cJSON.c:1212-1717 | printed text, in either format, at any depth and wherever it stands, parses back to its value unless nested deeper than the limit, and then is refused |
| `JsonRoundTrip.RoundTrip` | corecode/util/cJSON.c:1000-1717 | for every tree: parsing its print gives it back exactly when it is nested at most 1000 deep, and parsing stops behind the text |
| `JsonRoundTrip.PrintingIsInjective` | corecode/util/cJSON.c:1087-1717 | two trees within the limit print alike only if they are the same |
| `JsonMinify.Minify` | corecode/util/cJSON.c:2633-2701 | in place: succeeds exactly when no string and no comment is left open at the end, where the scan would step over the terminator; then the buffer holds the minified text and its NUL, and nothing behind that NUL is touched |
| `JsonMinifyChunks.MinifyKeepsChunks` | corecode/util/cJSON.c:2633-2701 | a text is minified to some bytes exactly if it can be cut into whitespace, line comments, block comments, string literals and other bytes so that these bytes are the last two kinds, in order |
| `JsonMinifyText.ValueBecomes` | corecode/util/cJSON.c:2633-2701 | the printed text of any value, anywhere in a text, is minified to its unformatted print |
| `JsonMinifyText.MinifyPrinted` | corecode/util/cJSON.c:2633-2701 | minifying the formatted print gives byte for byte the unformatted one, which minifying leaves alone |
| `JsonMinifyParse.ValueCorresponds` | corecode/util/cJSON.c:1212-1264 | whatever the parser reads at a position of a text it reads, with the same end, at the corresponding position of the minified text |
| `JsonMinifyParse.NumberKept` | corecode/util/cJSON.c:266-340 | a number is read again at its place exactly if strtod takes no more off what then stands behind it |
| `JsonMinifyParse.MinifyKeepsTheTree` | corecode/util/cJSON.c:2633-2701 | every text accepted to its end is minified without running over that end, and the result is accepted with the same tree |
| `JsonMinifyParse.MinifyWithoutEndCheck` | corecode/util/cJSON.c:1000-1084 | the exact condition without the end check, wherever minifying is defined: the tree is kept exactly if it is no number or strtod takes no more off what minifying puts behind it |
| `JsonMinifyParse.MinifyJoinsTokens` | corecode/util/cJSON.c:2633-2701 | without the end check that fails: a text whose tree changes |
| `JsonCompare.GetObjectItem` | corecode/util/cJSON.c:1772-1802 | the first child whose name is equal, or equal but for the case of ASCII letters; none if no child matches, and the case-sensitive search gives up at a child without a name |
| `JsonCompare.FoldsAlike` | corecode/util/cJSON.c:97-117 | two names count as the same key exactly if they are equal, or, without case, have the same length and at each place the same byte or the two cases of one ASCII letter |
| `JsonCompare.LookupFinds` | corecode/util/cJSON.c:1772-1802 | among named members a lookup succeeds exactly when one of them has the key |
| `JsonCompare.MembersMap` | corecode/util/cJSON.c:1772-1802 | members that agree on repeated keys form a finite map that holds exactly what they say |
| `JsonCompare.CompareItems` | corecode/util/cJSON.c:2803-2926 | the loops, with the shortcut for identical nodes, decide the predicate CompareNodes |
| `JsonCompare.FindMembers` | corecode/util/cJSON.c:2885-2921 | one direction of the object comparison: every member has a partner that compares equal |
| `JsonCompare.CompareDecides` | corecode/util/cJSON.c:2803-2926 | for all trees that share no nodes: yes exactly when both are tame and mean the same value, an object meaning a finite map |
| `JsonCompare.CompareIsPartialEquivalence` | corecode/util/cJSON.c:2803-2926 | on trees that share no nodes: symmetric and transitive, and reflexive exactly on the tame ones |
| `JsonCompare.SharingIsHarmless` | corecode/util/cJSON.c:2827-2831 | if one of two trees is tame, the shortcut for identical nodes does not change the answer |
| `JsonCompare.ComparingNodesDecides` | corecode/util/cJSON.c:2803-2926 | with or without shared nodes: comparing with a tame tree says yes exactly if the other one is tame and means the same, and a node equals itself exactly if its kind is known |
| `JsonCompare.OrderDoesNotMatter` | corecode/util/cJSON.c:2885-2921 | objects with the same members in another order compare equal |
| `JsonCompare.CompareIsAlike` | corecode/util/cJSON.c:2803-2926 | on well-built trees with unique keys, comparing decides that the trees agree kind by kind and that each member of either object has a partner of a matching name in the other |
| `JsonCompare.ProperIsTame` | corecode/util/cJSON.c:2803-2926 | trees with known kinds, names, texts and unique keys under the chosen comparison are tame |
| `JsonCompare.Duplicate` | corecode/util/cJSON.c:2554-2631 | a copy without the reference flag, of the whole tree or of the node alone |
| `JsonCompare.CopyIsCopy` | corecode/util/cJSON.c:2554-2631 | a recursive copy agrees with its source field by field, all through, but for the reference flag |
| `JsonCompare.DuplicateComparesEqual` | corecode/util/cJSON.c:2554-2631 | a recursive duplicate compares equal to its source exactly when the source is tame |
| `JsonCompare.RepeatedKeyDiffers` | corecode/util/cJSON.c:2885-2921 | a tree with a repeated key that differs from its own duplicate |
| `LinkedList.ListHeadInit` | h/util/LinkedList.h:27-30 | a head alone is a well-formed ring |
| `LinkedList.Link` | h/util/LinkedList.h:32-37 | rewriting four links puts the element exactly behind its neighbour in a ring that stays well-formed in both directions |
| `LinkedList.ListAdd` | h/util/LinkedList.h:39-41 | the element becomes the first of the ring |
| `LinkedList.ListAddTail` | h/util/LinkedList.h:43-45 | the element becomes the last of the ring |
| `LinkedList.ListDel` | h/util/LinkedList.h:47-60 | the ring without exactly that element, whose own links are cleared |
| `LinkedList.ListEmpty` | h/util/LinkedList.h:98-100 | true exactly for a head alone |
| `LinkedList.Splice` | h/util/LinkedList.h:138-147 | all elements of one ring, in order, between two neighbours of another |
| `LinkedList.ListJoinInit` | h/util/LinkedList.h:159-164 | one list goes in front of the other, in order, and is empty afterwards |
| `LinkedList.ListJoinTailInit` | h/util/LinkedList.h:166-171 | one list goes behind the other, in order, and is empty afterwards |
| `HashMap.MaskIsRemainder` | corecode/util/MapHashLinked.c:38-44 | for a power of two the bit mask is the remainder |
| `HashMap.StoredAfterReplace` | corecode/util/MapHashLinked.c:53-84 | replacing one listed value by another with its key updates just that entry |
| `HashMap.StoredAfterAppend` | corecode/util/MapHashLinked.c:53-84 | appending a value with a new key to its slot adds just that entry |
| `HashMap.StoredAfterRemove` | corecode/util/MapHashLinked.c:86-109 | taking a listed value out removes just its entry |
| `HashMap.MapHashLinked.constructor` | corecode/util/MapHashLinked.c:146-165 | every slot an empty list: the empty map |
| `HashMap.MapHashLinked.FindItem` | corecode/util/MapHashLinked.c:38-51 | walking the slot finds the item with the key exactly when the map has it |
| `HashMap.MapHashLinked.Get` | corecode/util/MapHashLinked.c:38-51 | the value the finite map has for the key, or none |
| `HashMap.MapHashLinked.Put` | corecode/util/MapHashLinked.c:53-84 | the finite map updated at the key; returns the previous value |
| `HashMap.MapHashLinked.Remove` | corecode/util/MapHashLinked.c:86-109 | the finite map without the key; returns the removed value |
| `HashMap.MapHashLinked.Clear` | corecode/util/MapHashLinked.c:111-127 | the empty map; outputs the listed values slot by slot |
| `HashMap.FlattenOnce` | corecode/util/MapHashLinked.c:111-127 | these are as many as the map has entries, every entry is among them, and no key comes twice |
| `ThreadPool.InvariantKept` | corecode/util/ThreadPool1.c:30-125 | every step keeps the line of done, running and waiting jobs equal to what was accepted, in order if only tails were inserted; a stopped pool accepts nothing |
| `ThreadPool.EveryJobOnce` | corecode/util/ThreadPool1.c:30-125 | after any run no accepted job is lost or run twice, tail insertions run in insertion order, and a worker that has left has run them all |
| `ThreadPool.NothingAfterStop` | corecode/util/ThreadPool1.c:70-92 | after stop nothing more is accepted, in any run |
| `ThreadPool.SinglePool.InsertTail` | corecode/util/ThreadPool1.c:30-43 | accepted exactly when not stopped, behind all others |
| `ThreadPool.SinglePool.InsertHead` | corecode/util/ThreadPool1.c:50-63 | accepted exactly when not stopped, in front of all others |
| `ThreadPool.SinglePool.Stop` | corecode/util/ThreadPool1.c:70-92 | only the state changes |
| `ThreadPool.SinglePool.Enter` | corecode/util/ThreadPool1.c:104-125 | takes the whole queue as a batch, waits, or leaves, which it does only when stopped and empty |
| `ThreadPool.SinglePool.RunBatch` | corecode/util/ThreadPool1.c:94-102 | calls every job of the batch once, in order |
| `ThreadPool.PoolsInvariantKept` | corecode/util/ThreadPool2.c:18-42 | every step of several workers, with insertions at either end, keeps hashed jobs in the worker of their hash and the log of calls under one hash sequential |
| `ThreadPool.SameHashInOrder` | corecode/util/ThreadPool2.c:18-42 | in every run, over any number of workers, the calls of one hash never overlap and no job is called twice; they come in insertion order unless one was inserted at the head |
| `ThreadPool.HashedAtHome` | corecode/util/ThreadPool2.c:32-42 | in every run, a hashed job stands in the worker whose index is the hash modulo the number of workers, and nowhere else |
| `ThreadPool.NextInTurn` | corecode/util/ThreadPool2.c:18-30 | in every run, the next job without a hash goes to the worker whose turn it is, counting such insertions modulo 2^32, in front of what waits there or behind it, and no other worker changes |
| `ThreadPool.HashedPool.InsertTailHash` | corecode/util/ThreadPool2.c:38-42 | the job goes to the tail of the worker of its hash, and to no other |
| `ThreadPool.HashedPool.InsertHeadHash` | corecode/util/ThreadPool2.c:32-36 | the job goes to the head of the worker of its hash, and to no other |
| `ThreadPool.HashedPool.InsertTail` | corecode/util/ThreadPool2.c:18-23 | round robin over the workers, with the 32-bit index wrapping |
| `ThreadPool.HashedPool.InsertHead` | corecode/util/ThreadPool2.c:25-30 | round robin over the workers, at the head |
| `Connection.FlagCountsKept` | corecode/network/ConnectionLinux.c:51-107 | the flag counts the threads that hold it up and the job until it starts, and there is at most one such job |
| `Connection.RaiseBringsJob` | corecode/network/ConnectionLinux.c:81-107 | the exact condition under which a submission is followed by a job that has still to take the queue |
| `Connection.JobStaysAhead` | corecode/network/SocketLinux.c:283-335 | such a job stays ahead until it has taken the whole queue |
| `Connection.PutBackIsServed` | corecode/network/SocketLinux.c:317-323 | on a closed connection, what a worker puts back is called back without a wake-up exactly if the closer has still to take that queue, a job is ahead, or a call that saw the connection open is still under way |
| `Connection.PutBackIsForgotten` | corecode/network/SocketLinux.c:317-323 | otherwise, in every run without a wake-up, it stays in the queue and the connection keeps its references |
| `Connection.HeldAfter` | corecode/network/SocketLinux.c:202-335 | each step changes the references held by contexts, jobs and callbacks by what it does to the count |
| `Connection.PlaceKept` | corecode/network/SocketLinux.c:202-335 | each step moves a context at most from one place to the next: admitted, counted, queued, taken, drained, called back |
| `Connection.StreamsKept` | corecode/network/SocketLinux.c:202-335 | while no transfer has failed, each step keeps the bytes on the wire and the queued rests together equal to what was submitted, in order, and hands over what was received in the step that received it |
| `Connection.ConnKept` | corecode/network/SocketLinux.c:78-156 | every step of both directions and of the closer keeps the whole invariant |
| `Connection.EveryContextOnce` | corecode/network/SocketLinux.c:78-156 | after any run every accepted context is in exactly one place, called back at most once; a job is queued at most once; the count is one for not closed, one for each unfinished context and one for each job |
| `Connection.WritesInOrder` | corecode/network/SocketLinux.c:283-335 | without a write error the bytes given to the kernel are a prefix of the submitted buffers in queue order, and the buffers reported written are the first ones, with all their bytes out |
| `Connection.ReadsInOrder` | corecode/network/SocketLinux.c:202-254 | until a read fails, the buffers called back are the first ones submitted, in order, each with at least one byte and no more than it holds, all together with exactly the bytes the kernel delivered, in order; whatever waits is a whole buffer |
| `Connection.HandedRuns` | corecode/network/SocketLinux.c:96-143 | in every run a failed callback hands over nothing, nor does that of a write |
| `Connection.NothingLeft` | corecode/network/SocketLinux.c:78-92 | with no reference left, only closing and waking are still possible exactly if no call or wake-up is under way: the rule for users is no stronger than need be |
| `Connection.LastReference` | corecode/network/SocketLinux.c:78-156 | in any run, careful or not: when the last reference is gone the connection is closed and announced, and nothing will use it any more exactly if the rule was kept at that moment |
| `Connection.DestroyedOnce` | corecode/network/SocketLinux.c:78-156 | destroyed at most once, exactly when the last reference goes; by then closed, announced, and every accepted context called back exactly once |
| `ConnectionCalls.NoneBlockTransfer` | corecode/network/SocketLinux.c:175-281 | the bytes a whole sequence of kernel answers moves, and whether it fails |
| `ConnectionCalls.TransferMeans` | corecode/network/SocketLinux.c:175-281 | the kernel is asked until the buffer is done, it would block or it refuses; what is moved is what these answers offer, in order, as far as the buffer goes, and it fails exactly if the last of them refuses |
| `ConnectionCalls.Endpoint.Submit` | corecode/network/ConnectionLinux.c:51-107 | refused exactly when closed; otherwise the context stands last in the queue, and the job is inserted if the flag was down |
| `ConnectionCalls.Endpoint.IODone` | corecode/network/SocketLinux.c:78-91 | one reference less, destroying with the last one; the assertion holds |
| `ConnectionCalls.Endpoint.MoveFirst` | corecode/network/SocketLinux.c:219-316 | one buffer, for what the kernel answers: done, handed over as far as it is filled, cut short by what went out, or the worker fails |
| `ConnectionCalls.Endpoint.EndJob` | corecode/network/SocketLinux.c:317-323 | what is left goes back to the head of the queue, in front of later submissions |
| `ConnectionCalls.Endpoint.DoJob` | corecode/network/SocketLinux.c:202-254 | a run of the step relation that leaves its direction as JobDone says, and the other as it was |
| `ConnectionCalls.JobOutcome` | corecode/network/SocketLinux.c:202-335 | whatever the kernel answers, a job reports the first queued buffers as done, in order: sending, no byte is lost or repeated and only the next buffer is cut; receiving, each holds at least one byte, all but the last are full, together they hold exactly what came, and the others wait untouched; after a failure all others are reported failed |
| `ConnectionCalls.WillingKernelTakesAll` | corecode/network/SocketLinux.c:202-335 | a kernel with room or bytes for each buffer gets or fills all of them, and each is reported done, a read with its bytes |
| `ConnectionCalls.JobUntilBlocked` | corecode/network/SocketLinux.c:220-243 | buffers are done one after the other as long as the kernel can; when it would block the next one waits as it was, with all behind it |
| `ConnectionCalls.JobUntilShort` | corecode/network/SocketLinux.c:225-314 | a buffer met with a few bytes only: a read is handed over at once with them, a write waits at the head of the queue with what is left of it |
| `ConnectionCalls.JobUntilRefused` | corecode/network/SocketLinux.c:222-335 | a refusal fails the buffer it meets and all behind it, and none before |
| `ConnectionCalls.Endpoint.PostIOJobs` | corecode/network/SocketLinux.c:115-143 | everything queued in one direction is called back with failure, in order, and nothing else |
| `ConnectionCalls.Endpoint.CloseConnection` | corecode/network/SocketLinux.c:145-156 | only the first close drains both queues, announces once and releases; a later one only counts |
| `ConnectionCalls.WakeUpMissed` | corecode/network/ConnectionLinux.c:81-107 | a run after which the flag is down, no job is queued and no call is under way, and a submitted buffer waits behind a job that has already taken its share |
| `ConnectionCalls.CarelessCall` | corecode/network/ConnectionLinux.c:81-107 | a run in which a call takes its reference after the last one has gone |
| `Framing.FramesSplit` | corecode/server/Server.c:170-255 | cutting a stream is the same as cutting its first part and then what is left over with the rest |
| `Framing.SentIsFramed` | corecode/server/Server.c:170-255 | messages written one after the other are cut exactly where they were joined |
| `Framing.FeedIsFrames` | corecode/client/Client.c:190-265 | reading piece by piece finds the same messages as reading at once |
| `Framing.AnySplitDelivers` | corecode/client/Client.c:190-265 | for a decoder more bytes cannot sway, any split into reads delivers exactly the sent messages |
| `Framing.FixedResponseIsStable` | h/client/RequestSender.h:30-42 | the decoder of fixed-size responses is such a decoder, and a buffer suffices exactly if it holds one response |
| `Framing.FixedRequestIsStable` | corecode/server/Server.c:191-220 | the server's lookup of resource and request with decoders of fixed-size requests never changes its mind, and a buffer suffices exactly if it holds the header and each such request and no decoder is left unwritten |
| `ResponseFraming.TableIsStable` | corecode/client/Client.c:208-239 | looking up the waiting request, taking an error response or asking the decoder of the request: while its entries stay, the table never changes its mind, so the results of Framing apply to it |
| `ResponseFraming.PrefixServed` | corecode/client/Client.c:208-258 | with a table the requests leave with their responses: as far as the stream has arrived, exactly the complete responses are delivered |
| `ResponseFraming.SecondAnswerRefused` | corecode/client/Client.c:219-231 | a request is answered once: a second response under its number ends the connection |
| `ResponseFraming.AnySplitAnswers` | corecode/client/Client.c:190-265 | however the stream is split into reads and whenever other requests are registered in between, each response is delivered whole, in order, with the decoder of its own request, if no response begins to arrive before its request is in the table |
| `WireLayout.AnswerByTable` | corecode/client/Client.c:211-239 | for any bytes that begin with a response header: the connection is given up if nobody waits under its sequence number, an error is its header alone, and otherwise the decoder of the waiting request decides |
| `WireLayout.LatestAnswered` | corecode/client/Client.c:211-239 | a map sent to a waiting request is taken as exactly one message, which holds that map, whatever comes behind it |
| `WireLayout.StatusAnswered` | corecode/client/Client.c:211-239 | so is a status |
| `WireLayout.FixedAnswered` | h/client/RequestSender.h:30-42 | a response of a fixed size: its header alone if it has an error id, otherwise its size as soon as so many bytes are there |
| `WireLayout.RequestLayout` | h/res/Resource.h:19-23 | a request begins with its resource and its request number, two little-endian bytes each; these choose the handler, without one the connection is given up, and a request of a fixed size is taken as soon as it is there |
| `Framing.Receiver.Fill` | corecode/client/Client.c:204-206 | a read changes only bytes behind what has been received |
| `Framing.Receiver.Received` | corecode/client/Client.c:190-265 | one read: the messages delivered so far are the frames of all bytes received, those delivered in place still read as sent, and the next read has room for at least one byte |
| `Framing.Receiver.Parse` | corecode/server/Server.c:186-255 | the parsing loop delivers the frames of the window and re-arms with the rest, or gives up |
| `Framing.Receiver.ReArm` | corecode/server/Server.c:135-168 | reading goes on behind the left-over bytes, in the same buffer exactly while there is room behind them, otherwise behind a copy of them in a new one |
| `Framing.Receiver.Deliver` | corecode/client/Client.c:240-250 | a message is handed out where it stands, and nothing delivered before changes |
| `ReadBuffers.StateKept` | corecode/client/Client.c:105-265 | every step keeps the account of each buffer, and of the counters |
| `ReadBuffers.BuffersAccounted` | corecode/client/Client.c:105-265 | in every run of a client, or of a server whose reads are accepted: a buffer is live exactly as long as somebody holds it, its count is armed read plus callback plus unreleased messages, nothing is touched after it was freed, and the counters differ by the live buffers |
| `ReadBuffers.CountersAgreeAtTheEnd` | corecode/client/Client.c:75-82 | the counters agree exactly when no buffer is live; then no read is armed, parked or handled |
| `ReadBuffers.ServerRefusalMiscounts` | corecode/server/Server.c:160-168 | on the server a refused read always spoils the accounts: in every run that goes on from it, whoever releases what in between, a reference is missing after both drops, or something freed has been touched |
| `ReadBuffers.BufferTable.FreeReadBuffer` | corecode/server/Server.c:51-58 | one reference less; the buffer goes, and is counted, with the last one |
| `ReadBuffers.BufferTable.Read` | corecode/server/Server.c:135-168 | the re-arm is a run that goes on in the same buffer exactly while there is room, otherwise in a new one, or parks that; a client that is refused lets go of the buffer |
| `ReadBuffers.BufferTable.NewBuffer` | corecode/server/Server.c:143-159 | the branch out of room: a new buffer, the old one released, counted, and parked at the limit |
| `FlowControl.LimitHolds` | corecode/server/Server.c:135-168 | with timely wake-ups live buffers never exceed the limit, exactly if the limit is at least two |
| `FlowControl.WakeIsTimely` | corecode/server/Server.c:60-81 | and the exact condition: a wake-up that finds a parked buffer is below the limit exactly if no run going on from it exceeds the limit |
| `FlowControl.ParkedIsResumed` | corecode/server/Server.c:60-81 | in every run, with counting and parking as two steps: while a buffer is parked nothing is read, and some run reads again exactly if a release has still to look for it or more than half of the limit is counted; otherwise the connection never reads again |
| `FlowControl.ParkIsAwaited` | corecode/server/Server.c:151-158 | so parking leaves the connection able to read exactly under that condition at the moment the buffer is stored |
| `FlowControl.AwaitedStays` | corecode/server/Server.c:60-81 | a parked buffer that is awaited stays so under every step until it is taken up |
| `FlowControl.ParkedForGood` | corecode/server/Server.c:151-158 | a run in which releases meet one half between the count and the store, and the connection never reads again |
| `FlowControl.LateWakeUp` | corecode/server/Server.c:60-81 | a run in which a late wake-up lets the count pass the limit |
| `FlowControl.ReadLimit.CountBuffer` | corecode/server/Server.c:151-152 | the atomic count, which goes on reading exactly below the limit |
| `FlowControl.ReadLimit.ParkBuffer` | corecode/server/Server.c:153-157 | the locked section: nothing is parked yet, and then the new buffer is |
| `FlowControl.ReadLimit.UncountBuffer` | corecode/server/Server.c:60-67 | the atomic decrement, which has to look for a parked buffer exactly when it meets one half |
| `FlowControl.ReadLimit.WakeParked` | corecode/server/Server.c:68-79 | the locked section: a parked buffer is read into again, or freed when that read is refused |
| `ClientTable.ClientKept` | corecode/client/Client.c:62-373 | every step keeps each request in its slot or out of the table, and its callback and send_arg accounted for by the stage of its call, its write and its answer |
| `ClientTable.ExactlyOneCallback` | corecode/client/Client.c:62-373 | in every run in which the close handler stops waiting only when no call is exposed: each request is called back at most once and freed at most once; if the call returned false, it has not been called back and is freed once; if it returned true, it has, when the handler returns, been called back exactly once, and freed exactly once unless a worker has only its own reference left to drop |
| `ClientTable.WaitIsSafe` | corecode/client/Client.c:73-103 | the exact condition: when the handler stops waiting, a later step can touch the freed context or a freed send_arg exactly if a call is between seeing the connection and being counted, or between being counted as refused and off the table |
| `ClientTable.ReturnBeforeFree` | corecode/client/Client.c:168-188 | a run in which the handler returns while a request is called back and not freed yet |
| `ClientTable.NoStepAfterFree` | corecode/client/Client.c:62-373 | in such a run no step, taken or still to come, uses a send_arg or the context after it was freed |
| `ClientTable.ResponseFindsItsRequest` | corecode/client/Client.c:213-231 | a waiting request is found by its number, and no other is, while fewer than 2^32 numbers, refused calls included, lie between any two that wait |
| `ClientTable.Numbering` | corecode/client/Client.c:336-337 | numbers begin with 1023, and each is one more than the one before, modulo 2^32 |
| `ClientTable.WaitingTable.SendRequest` | corecode/client/Client.c:319-373 | a run of the relation: refused without a connection, a failed encoder or a closed connection leaves the table as it was and frees the request; otherwise it waits in its slot |
| `ClientTable.WaitingTable.Register` | corecode/client/Client.c:348-353 | the step Register: the request goes to the tail of the slot of its number |
| `ClientTable.WaitingTable.TakeMatching` | corecode/client/Client.c:213-227 | the step Match, if the lookup finds one: the first request with the number leaves its slot |
| `ClientTable.WaitingTable.PutBack` | corecode/client/Client.c:251-257 | the step Incomplete: the request goes back to the head of its slot |
| `ClientTable.WaitingTable.WriteCallback` | corecode/client/Client.c:285-317 | the whole new state of the request: one reference less and freed with the last, or off the table, called back and freed |
| `ClientTable.WaitingTable.DoJob` | corecode/client/Client.c:168-188 | called back, the read buffer let go of, then one reference less and freed with the last |
| `ClientTable.WaitingTable.SweepAll` | corecode/client/Client.c:83-103 | a run that empties every list, front to back, slot by slot, and calls back and frees exactly the requests found there, once |
| `ClusterMap.ParseInvertsDump` | libs/cluster/ClusterMap.c:58-217 | parsing gives a map and a length exactly when the input holds the dump of that map there: the parser accepts dumps and nothing else |
| `ClusterMap.DumpParsesBack` | libs/cluster/ClusterMap.c:58-217 | a dump followed by any bytes gives the map back and takes exactly its own length |
| `ClusterMap.AnswerStays` | libs/cluster/ClusterMap.c:135-217 | an answer other than too short never changes when more bytes come |
| `ClusterMap.PrefixIsShort` | libs/cluster/ClusterMap.c:135-217 | every strict prefix of a dump is refused |
| `ClusterMap.DumpIsPrefixFree` | libs/cluster/ClusterMap.c:58-112 | no dump is the beginning of the dump of another map |
| `ClusterMap.LengthIsRight` | libs/cluster/ClusterMap.c:46-56 | the computed length is that of the dump exactly if no 32-bit product wraps |
| `WireLayout.DumpHeader` | libs/cluster/ClusterMap.c:58-76 | a dump begins with version, number of sets, replicas and number of services, little-endian, at bytes 0, 4, 8 and 10, and its length is that of these, the sets and the services |
| `WireLayout.DumpSet` | libs/cluster/ClusterMap.c:78-88 | set i stands at byte 14 + i * (4 + 4 * replicas): its id, and its services four bytes apart |
| `WireLayout.DumpService` | libs/cluster/ClusterMap.c:90-108 | each service stands behind the sets and the services before it: id, 128 bytes of host, port and status in two's complement, the number of its sets, and the sets |
| `ClusterDump.ComputeLength` | libs/cluster/ClusterMap.c:46-56 | the length as computed, with its wrapping products |
| `ClusterDump.Dump` | libs/cluster/ClusterMap.c:58-112 | exactly the dump goes behind what stands in the buffer, and nothing behind it changes |
| `ClusterDump.EncodeLatest` | services/mon/server/cluster/ClusterHandler.c:376-398 | the response of the latest map, header and dump, exactly when the computed length has not wrapped; otherwise the dump would not fit its memory |
| `ClusterDump.EncodeStatus` | services/mon/server/cluster/ClusterHandler.c:431-455 | the status response, header, three 64-bit counters and dump, likewise |
| `ClusterParse.Parse` | libs/cluster/ClusterMap.c:135-217 | result of MapAt on every input: the map, too short, or an id met twice |
| `ClusterParse.SlotCount` | libs/cluster/ClusterMap.c:31-44 | a power of two of at least as many slots as services and at most about twice as many, exactly up to 2^30 services; beyond them the shift overflows |
| `ClusterCodec.LatestRoundTrip` | services/mon/client/cluster/ClusterSender.c:20-53 | a map response followed by any bytes is read back with its sequence number and map |
| `ClusterCodec.ErrorRoundTrip` | services/mon/client/cluster/ClusterSender.c:20-123 | a response with an error id is its header alone, for both decoders |
| `WireLayout.ResponseLayout` | h/res/Resource.h:14-17 | a response begins with its error id in two's complement and its sequence number, four little-endian bytes each |
| `WireLayout.StatusLayout` | services/mon/server/cluster/ClusterHandler.c:431-455 | the status: header, objects, used and free as 64-bit words at bytes 8, 16 and 24, and the dump from byte 32 on |
| `ClusterCodec.StatusRoundTrip` | services/mon/client/cluster/ClusterSender.c:78-123 | a status response comes back with its counters cut to 32 bits, so unharmed exactly below 2^32 |
| `ClusterCodec.ResponsePrefixIsShort` | services/mon/client/cluster/ClusterSender.c:20-123 | every strict prefix of both responses is refused as too short |
| `ClusterCodec.LatestDecoderIsStable` | services/mon/client/cluster/ClusterSender.c:20-53 | the decoder fits the framing: no later byte changes its answer |
| `ClusterCodec.StatusDecoderIsStable` | services/mon/client/cluster/ClusterSender.c:78-123 | so does the decoder of the status |
| `Placement.ShareFits` | libs/cluster/ClusterMapMon.c:44-76 | the largest share of a service is within the rounded-up average exactly if the placement is balanced: N divides B, or R*(B mod N) > (R-1)*N |
| `Placement.CapacityIs` | libs/cluster/ClusterMapMon.c:45-47 | the number of slots is the average of B*R sets over the services, rounded up |
| `Placement.RoundsAgree` | libs/cluster/ClusterMapMon.c:58-75 | in every round a service receives the same sets, whatever the rotation |
| `Placement.RoundsHave` | libs/cluster/ClusterMapMon.c:58-75 | over all rounds a service receives each of its own sets once for every replica, and no others |
| `Placement.RoundsInTurn` | libs/cluster/ClusterMapMon.c:66-75 | in which order: for each replica its own sets in ascending order from one set later than for the replica before, then those in front |
| `Placement.FullMeansUnbalanced` | libs/cluster/ClusterMapMon.c:58-75 | a service that is full when another set comes shows that the placement is not balanced |
| `Placement.ServiceByIndex` | libs/cluster/ClusterMapMon.c:30-42 | the walk over the list finds the service at the wanted place, or comes back to the head where the source asserts |
| `Placement.FillBSets` | libs/cluster/ClusterMapMon.c:44-76 | runs to its end exactly if balanced; then every slot of the index from sets to services holds the id of service l mod N, and each service lists its sets in the order of the rounds |
| `Placement.AllPlaced` | libs/cluster/ClusterMapMon.c:44-76 | at the end the lengths sum to B*R, and a service lists each of its own sets once for every replica, and no others |
| `KeepAlive.InvariantKept` | libs/cluster/ClusterMapObjectService.c:139-265 | every step keeps what each round still owes, has done and holds in balance |
| `KeepAlive.KeepAliveIsLinear` | libs/cluster/ClusterMapObjectService.c:139-265 | in every run the continuation is called at most once a round and the argument freed at most once, both exactly once when the round is done; the worker waits with a counter in 1..interval or is busy at 0, and the assertion never fails |
| `KeepAlive.MapIsBalanced` | libs/cluster/ClusterMap.c:219-247 | the map is referenced once by its owner and once by whoever still uses it; when all rounds are done, only by its owner |
| `KeepAlive.RoundCanEnd` | libs/cluster/ClusterMapObjectService.c:139-265 | no round gets stuck: from any reachable state steps of its own bring it to its end, with the continuation called once, the argument freed once and no reference left |
| `KeepAlive.OneSyncAtATime` | libs/cluster/ClusterMapObjectService.c:175-230 | there is never more than one synchronisation unless a request is refused while one is under way |
| `KeepAlive.ForgettingAllowsTwo` | libs/cluster/ClusterMapObjectService.c:175-265 | the exact condition, for any interval: after any run without such a refusal, the next step makes a second synchronisation possible exactly if it is one |
| `KeepAlive.TwoSyncs` | libs/cluster/ClusterMapObjectService.c:232-265 | a run with such a refusal and two synchronisations |
| `KeepAliveStatus.StatusMoves` | libs/cluster/ClusterMapObjectService.c:139-265 | what every step does to the two statuses: a finished synchronisation brings the service online, a round that joins starts synchronising, a round that gives up leaves it offline unless it is synchronising and only an error came, and nothing else changes them |
| `KeepAliveStatus.StatusesAgree` | libs/cluster/ClusterMapObjectService.c:139-265 | in every run: what is reported as online or synchronising is what the map says, a service that has to join is offline or as it was at first, and while synchronising is reported a synchronisation is under way |
| `KeepAliveStatus.OnlineIsEarned` | libs/cluster/ClusterMapObjectService.c:139-265 | in every run of a service not online at first: it is online exactly if a synchronisation has finished and since then no request was refused and no error came |
| `KeepAliveStatus.OnlineStaysPossible` | libs/cluster/ClusterMapObjectService.c:139-265 | from every reachable state some run brings the service online |
| `KeepAliveStatus.FiresAfter` | corecode/util/HouseKeeping.c:104-127 | left alone, a waiting worker starts one round after exactly as many ticks as its counter says, and none while that round is under way |
| `KeepAliveCalls.HousekeepingWorker.Look` | corecode/util/HouseKeeping.c:104-127 | one look: count down, and queue the job exactly when zero is reached |
| `KeepAliveCalls.HousekeepingWorker.Resume` | corecode/util/HouseKeeping.c:41-47 | back to waiting with a full counter |
| `KeepAliveCalls.Housekeeping.AddWorker` | corecode/util/HouseKeeping.c:55-71 | a new worker at the head of the list, waiting a full interval |
| `KeepAliveCalls.Housekeeping.Tick` | corecode/util/HouseKeeping.c:104-127 | every worker of the list is looked at exactly once |
| `KeepAliveCalls.ObjectServiceKeeper.Work` | libs/cluster/ClusterMapObjectService.c:232-265 | the whole new state of the round, on both branches |
| `KeepAliveCalls.ObjectServiceKeeper.KeepAliveCallback` | libs/cluster/ClusterMapObjectService.c:175-230 | the whole new state on each of the answers |
| `KeepAliveCalls.ObjectServiceKeeper.ChangeLogCallback` | libs/cluster/ClusterMapObjectService.c:153-173 | the whole new state, with and without an error |
| `KeepAliveCalls.ObjectServiceKeeper.SyncCallback` | libs/cluster/ClusterMapObjectService.c:139-151 | the whole new state; the continuation is not called again |

## Left out

JSON

- JsonParser.ParseBuffer.ParseNumber: the value of a number; its text is an opaque lexeme that `strtod` takes whole, in the C locale.  Printing a number is modelled as writing such a text.  NaN and the infinities, which the source prints as null, are no numbers of a printed tree.
- Raw and reference items in the printer, allocation hooks, the reallocation path without `realloc`, and allocation failure: every allocation succeeds.
- The functions that build and change trees in memory (add, detach, replace, insert).
- The parse tree is a value; the links between its nodes while it is built are not modelled.

Scheduler

- HashMap.MapHashLinked.Put: the caller stores a value under its own key, as all callers do.

Connection

- Connection.ReadsInOrder: up to the first failed read, whose bytes are lost with the connection; framing starts from the bytes received.
- Connection.DestroyedOnce: assumes that users hold the connection while they call it; `LastReference` shows that nothing less would do.
- Liveness: by `WakeUpMissed` a submission can be left waiting until the next event.
- One kernel call with the list change and the start of its callback is one step; the event thread's look at an old flag value is covered by a wake-up at any time.
- Framing.Receiver.Received: one decoder for all messages, as on the server; the client's decoder changes with its table, which `ResponseFraming` follows on byte strings, not in the buffer.
- ReadBuffers.BufferTable.Read: a server whose read is refused, where the code drops one reference too many; those steps are in the relation.
- FlowControl.ReadLimit.WakeParked: the lock the function holds while it frees a refused buffer; when that release meets one half again, the source would lock it a second time.
- ClientTable.ExactlyOneCallback: assumes that no response arrives for a request the connection has not taken or whose write fails; a second connection of the same client is not modelled.
- Framing.FixedRequestIsStable: the handlers are a function of both numbers; the bounds of the arrays they stand in are not modelled.
- ReadBuffers.BuffersAccounted: leaves out server runs in which a re-arming read is refused, where the code miscounts.
- The server's side of a response: running the action and writing the answer.
- Opening, accepting, socket options, name lookup, the event loop and the Windows variant.

Cluster

- ClusterParse.Parse: an id met twice is reported, where the source asserts.
- The byte order of the host is little-endian; the size of the memory a decoder allocates is not modelled.
- Placement.FillBSets: `B * R` below 2^32, and the state at a failed assertion is not described.  All replicas of one set go to one service, so distinct replicas are not claimed.
- Reading the cluster description from a file, the other cluster messages and the object handlers.

Keep-alive

- KeepAlive.KeepAliveIsLinear: the interval is at least one, the synchronisation calls back once, and the two writes of the housekeeping callback are one step.
- Removing a worker, destroying the housekeeping, and the race of the last release of a map with a reader.
- The table of statuses on the monitor.
