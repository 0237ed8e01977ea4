# Verified model of the smart meter daemon

The daemon reads telegrams from the P1 port of a Dutch smart meter, checks their checksums, keeps the
last value of every known OBIS reference, turns readings into consumption per hour, day and week, and
serves the values over HTTP. This project models its core and proves what the parts promise, from the
bytes on the line to the store, the statistics and the answers.

The modules follow the program.

- **The red-black tree** (`RbShapes`, `RbMemory`, `SortedEntries`, `RedBlackTree`, `Strcmp`,
  `Forest`). A node has left, right and parent pointers, and all trees share one sentinel. `RbShapes`
  holds the theory of the fixups on a tree and a path to the place being repaired, `RbMemory` what
  pointer writes do to them, and `RedBlackTree` the program on the heap. Its contract is a finite map.
- **The telegram decoder** (`Crc16`, `HexDigits`, `CStrings`, `Chunks`, `Telegram`, `TelegramFrames`,
  `TelegramChecks`, `ScannedTexts`, `StaleDigits`, `Obis`, `ObisLines`, `ObisStore`, `HexDec`, `Capacity`,
  `Decoder`, `MeterRuns`, `MeterReading`). `Telegram` is the byte machine as a function, `Decoder` the
  program over its buffers and the tree, proved to follow it; `ObisLines` says what each line of a telegram
  does to the store, and `Capacity` which telegrams the arrays have room for. The telegram format and the
  CRC16 are those of section 6.2 of the Dutch Smart Meter Requirements P1 Companion Standard v5.0.2.
- **The statistics** (`Calendar`, `Statistics`, `MeterStatistics`, `MeterHistory`): the accumulators, the
  eight meters of `do_stats`, and the way from the bytes on the line to the rows in the database.
- **The dispatcher** (`LinkedList`, `Hooks`, `EventPasses`, `Dispatch`): a doubly linked list of hooks,
  the descriptor sets given to `select`, and the event loop with its two kinds of pass.
- **The HTTP server** (`HttpMachine`, `HttpFields`, `HttpFraming`, `HttpNumbers`, `HttpExamples`,
  `HttpCapacity`, `HttpDecoders`, `HttpService`, `Routing`, `ServedValues`, `Handlers`): the request decoder
  and the trees of trees that route requests.

What the program does and its documentation or its shape would not lead one to expect:

- A bare carriage return sets the line-start flag (src/dsmr.c:540) without ending the line. A telegram
  changed so that a line is unfinished at its `!` has its checksum digits stored behind old bytes.
  `DamageIff` says, for every telegram of a run, exactly when a damaged one is refused; `DamageAccepted`
  and `StaleAccepted` give a first and a second telegram that are taken although damaged, and
  `CrlfDamageIgnored` says that CRLF input is safe.
- `http_content_length` and `dataread` are never reset (src/http.c:70-71). `StreamFramed` says exactly
  which connections are framed correctly all the same. Two bodies never are (`SecondBodyMisframed`,
  with the two requests of `TwoPosts`).
- Section 3.5 of RFC 7230 asks a server to ignore an empty line before a request line. The decoder takes
  it as a request line that does not parse, and the line behind it as a header. `EmptyLineFramed` says
  exactly when the answer is right all the same; for a first request that asks for something it never is
  (`EmptyLineMisread`, `EmptyLineGet`).
- Section 3.2 of RFC 7230 makes field names case-insensitive and the space after the colon optional. The
  decoder knows `Content-Length` in this spelling and with one space at least (src/http.c:134, 256), and
  copies 255 characters of the value. `AgreesIff` says exactly which header lines it reads as the RFC
  does, and `LengthMissed` and `LengthMissedPosts` give header lines and requests it gets wrong.
- A negative Content-Length is taken as it is, and the request is then never answered (`NegativeHangs`).
- `list_get_node_by_index` takes a negative index for the first place (src/list.c:268-276).
- `dispatch_nfds` does not change nfds when the last hook goes (src/dispatch.c:215-230).
- The shutdown pass needs no distinct descriptors or data: a hook being closed is always the first of
  the list (`ShutdownEmpties`).
- A zero reading or bucket time counts as unset (src/database.c:244-246). `Conservation` holds for all
  runs because it accounts for what such values hide. Between two changes `BetweenConserves` says exactly
  what is reported, `AgreementIff` when fine and coarse rows agree, and `ZeroDisagrees` gives a run on
  which they do not.
- `database_update` takes the 64-bit bucket time as an `int` (src/database.c:102, 251). `StoredTimes` says
  exactly when two stored rows have the same time and when they are in order: no bucket has two rows in any
  run of less than 2^32 seconds (`OneRowPerBucket`), but the rows of two consecutive hours on 19 January
  2038 are in the wrong order (`Year2038`).
- The assertion on `mktime`'s error value (src/database.c:243) can fail exactly where local hours start a
  second late (`NeverError`).

A hook registered in a run uses a descriptor and data that no registered hook uses; `UnregisterAgrees`
says exactly what happens without that, and `SharedDescriptorLost` shows two hooks on one descriptor.
Sizes of arrays are preconditions on the input, byte by byte (`Bounded`); `Capacity.StreamFits` and
`HttpCapacity.StreamFits` say which telegrams and requests meet them. What the C library decides is a
parameter: the decoders of OBIS values are one partial function, and `lucky` says, for each record,
whether the number that `sscanf` did not store happens to match, when the text begins with no number.

## Model

| member | source | states |
|---|---|---|
| RbNodes.Node.Sentinel | src/rbtree.c:58-59 | The one sentinel: black, its own children, no parent. |
| RbNodes.Node.constructor | src/rbtree.c:223-228 | A new node is red, has sentinel children and the given parent, key and value. |
| RbShapes.LiftInOrder | src/rbtree.c:70-134 | A rotation, in either direction, keeps the in-order sequence of nodes. |
| RbShapes.PutRecolorStep | src/rbtree.c:150-154 | With a red uncle, recolouring moves the only possible red-red pair two levels up and breaks nothing else. |
| RbShapes.PutInnerStep | src/rbtree.c:158-162 | Rotating the parent of an inner grandchild gives the outer case, with the violation still at one place. |
| RbShapes.PutOuterStep | src/rbtree.c:165-167 | Recolouring and rotating the grandparent of an outer grandchild removes the violation. |
| RbShapes.PutDone | src/rbtree.c:193 | Without a violation, blackening the root gives a red-black tree. |
| RbShapes.DelRedSibling | src/rbtree.c:256-261 | A red sibling is exchanged for a black one under a red parent; the subtree stays exactly one black node short. |
| RbShapes.DelBlackNephews | src/rbtree.c:262-264 | With black nephews, reddening the sibling moves the shortage one level up. |
| RbShapes.DelInnerNephew | src/rbtree.c:266-271 | A red inner nephew becomes a red outer one; the shortage stays. |
| RbShapes.DelOuterNephew | src/rbtree.c:272-276 | With a red outer nephew, recolouring and rotating the parent makes the whole tree red-black again. |
| RbShapes.DelDone | src/rbtree.c:253-304 | When the loop ends, blackening `x` makes the whole tree red-black. |
| RbShapes.HeightBound | src/rbtree.c:374-382 | In every red-black tree of n nodes a path of h nodes satisfies 2^h <= (n+1)^2. |
| RbMemory.RotatedZipped | src/rbtree.c:70-134 | The pointer writes of a rotation turn a well-linked tree, parents and root pointer included, into the well-linked rotated tree. |
| RbMemory.AttachedZipped | src/rbtree.c:231-239 | Hanging a red node at the end of a path keeps every link consistent. |
| RbMemory.UnlinkedZipped | src/rbtree.c:330-347 | Replacing a node that has at most one child by that child, or by the sentinel, keeps every link consistent. |
| RedBlackTree.RbTree.constructor | src/rbtree.c:411-422 | A new tree over the sentinel is valid and empty. |
| RedBlackTree.RbTree.RotateLeft | src/rbtree.c:70-101 | Rotating a node of the tree whose right child is one: exactly the links of a left rotation change, the root pointer included. The inner subtree may be missing; then the guard at line 80 keeps the sentinel unwritten. |
| RedBlackTree.RbTree.RotateRight | src/rbtree.c:103-134 | The mirror image, for a node whose left child is one. |
| RedBlackTree.RbTree.PutRecolor | src/rbtree.c:151-154 | On the heap: three colours change, the links and the node order stay, and the loop goes on at the grandparent. |
| RedBlackTree.RbTree.PutCaseInner | src/rbtree.c:158-162 | On the heap: one rotation of the parent turns the inner case into the outer one. |
| RedBlackTree.RbTree.PutCaseOuter | src/rbtree.c:165-167 | On the heap: recolouring and one rotation of the grandparent end the violation. |
| RedBlackTree.RbTree.PutStepLeft | src/rbtree.c:146-168 | One round under a left parent: "at most one violation, at `x`" is kept, the node order too, `x` moves up, and rounds that rotate end the loop after at most two rotations. |
| RedBlackTree.RbTree.PutStepRight | src/rbtree.c:169-191 | The mirror round. |
| RedBlackTree.RbTree.PutFixup | src/rbtree.c:136-194 | From one possible violation to a red-black tree with the same node order, terminating on the depth of `x`, with at most two rotations, counted where they are made. |
| RedBlackTree.RbTree.Attach | src/rbtree.c:231-239 | The new red node is linked under its parent, or becomes the root, and nothing else changes. |
| RedBlackTree.RbTree.Insert | src/rbtree.c:218-243 | A missing key adds exactly one fresh node; the tree is valid and its map is the old one with the key added. |
| RedBlackTree.RbTree.Overwrite | src/rbtree.c:208-212 | A known key: one value changes, and with it the map at that key only. |
| RedBlackTree.RbTree.Put | src/rbtree.c:196-244 | Any valid tree, any key: the tree is valid and its map is updated at the key; the old value or null is returned; a known key keeps its stored key, its shape and its nodes; a new one adds exactly one fresh node; at most two rotations. |
| RedBlackTree.RbTree.DelCaseRed | src/rbtree.c:256-261 | On the heap: a red sibling gives way to a black one in one rotation. |
| RedBlackTree.RbTree.DelCaseInner | src/rbtree.c:266-271 | On the heap: one rotation of the sibling brings its red inner child outside. |
| RedBlackTree.RbTree.DelCaseOuter | src/rbtree.c:272-276 | On the heap: one rotation of the parent ends the shortage for the whole tree. |
| RedBlackTree.RbTree.DelSettleLeft | src/rbtree.c:262-277 | A black sibling on the right: either the shortage moves up with no rotation or the loop ends after at most two. |
| RedBlackTree.RbTree.DelStepLeft | src/rbtree.c:254-277 | One round for a left child, which may be the sentinel: "at most one shortage, at `x`" and the node order are kept, a measure falls, and rounds that rotate end the loop after at most three rotations. |
| RedBlackTree.RbTree.DelSettleRight | src/rbtree.c:286-301 | The mirror image of the black-sibling cases. |
| RedBlackTree.RbTree.DelStepRight | src/rbtree.c:278-302 | The mirror round. |
| RedBlackTree.RbTree.DeleteFixup | src/rbtree.c:246-305 | From one shortage at `x`, whose parent pointer is right even when `x` is the sentinel, to a red-black tree with the same node order; the sentinel stays black; at most three rotations. |
| RedBlackTree.RbTree.Successor | src/rbtree.c:323-327 | The loop finds the in-order successor, which has no left child. |
| RedBlackTree.RbTree.OnlyChild | src/rbtree.c:330-335 | Of a node that lacks a child: the root of the subtree that takes its place, or the sentinel when both are missing. |
| RedBlackTree.RbTree.Unlink | src/rbtree.c:337-347 | The node leaves the chain, every other link stays consistent, and the child's parent pointer, the sentinel's too, names the place it took. |
| RedBlackTree.RbTree.TakeOut | src/rbtree.c:354-363 | A node with a sentinel child: exactly its key leaves the map, its key and value come back, and exactly that node is freed. |
| RedBlackTree.RbTree.MoveEntry | src/rbtree.c:352-353 | The successor's key and value in the node's place give the entries without the deleted one; no link changes. |
| RedBlackTree.RbTree.TakeOutSuccessor | src/rbtree.c:349-363 | Two children: exactly the key of `z` leaves the map and is freed, its value is returned, and the node freed is the successor. |
| RedBlackTree.RbTree.DeleteNode | src/rbtree.c:307-366 | Deleting any node of any valid tree leaves a valid tree without exactly that key, frees one node and returns its key and value. |
| RedBlackTree.RbTree.Delete | src/rbtree.c:399-409 | Deleting any key: the tree is valid, the map is the old one without the key, the value or null is returned, exactly one key and one node are freed if it was there and none otherwise, at most three rotations. |
| RedBlackTree.RbTree.FindNode | src/rbtree.c:368-385 | The node of the key if and only if the map holds it; the number of nodes visited is the length of the path and at most 2 log2(n+1). |
| RedBlackTree.RbTree.VisitsBound | src/rbtree.c:374-382 | The bound on a lookup in terms of the size of the map. |
| RedBlackTree.RbTree.Get | src/rbtree.c:387-397 | The value the map holds for the key, or null. |
| RedBlackTree.RbTree.ClearNode | src/rbtree.c:424-432 | Every node below is freed exactly once. |
| RedBlackTree.RbTree.Clear | src/rbtree.c:434-437 | Every node is freed exactly once, and the tree is valid and empty. |
| RedBlackTree.RbTree.ForeachNode | src/rbtree.c:444-450 | The entries below, in key order. |
| RedBlackTree.RbTree.Foreach | src/rbtree.c:452-454 | The callback sees exactly the entries of the map, in key order. |
| Strcmp.StrcmpOrders | src/http.c:331-332 | The comparators every tree is made with are a strict total order and its equality. |
| Strcmp.LessIff | src/http.c:331-332 | `strcmp` orders two keys by the first place where they differ, and a key comes before its continuations. |
| Forest.Apply | src/rbtree.c:196-437 | Put, get, delete and clear each do to their tree what they do to a finite map. |
| Forest.DictionaryLaws | src/rbtree.c:196-437 | What the finite maps promise without naming them: a get finds what was put last under its key, put and delete return what a get would have found, and nothing is found after a delete or a clear. |
| Forest.Step | src/rbtree.c:58-59 | An operation on one of several trees over the one sentinel leaves every other tree valid and its map unchanged, although delete writes the sentinel's parent. |
| Forest.Run | src/rbtree.c:387-442 | Over every interleaving of put, get, delete and clear each tree agrees with its own finite map and every reply is the map's. |
| Crc16.TableIsDivision | src/crc16.c:25-58 | Each of the 256 table entries is eight steps of the reflected division by 0xA001. |
| Crc16.CrcIsDivision | src/crc16.c:60-62 | One table step is eight division steps with the byte entering at the low end. |
| Crc16.FoldIsDivision | src/crc16.c:25-62 | For every message and start value the table-driven fold is the bit-by-bit division of its bits, low bit first. |
| Crc16.FoldXor | src/crc16.c:60-62 | The fold is linear over exclusive or of equally long messages. |
| Crc16.FoldConcat | src/crc16.c:60-62 | Folding in pieces is folding the whole. |
| Crc16.CrcBijective | src/crc16.c:60-62 | For a fixed byte the step has an inverse on the 16-bit state. |
| Crc16.DivideInjective | src/crc16.c:60-62 | For fixed bits of any length the division is injective in the state. |
| Crc16.BurstDetected | src/crc16.c:60-62 | Any difference within sixteen consecutive bits, wherever it lies and however long the message, changes the result. |
| Crc16.TwoBytesDetected | src/crc16.c:60-62 | Messages that differ only within two adjacent bytes have different CRCs. |
| Crc16.Residue | src/crc16.c:60-62 | A message followed by its CRC, low byte first, folds to 0. |
| TelegramFrames.CheckValue | src/crc16.c:60-62 | The CRC of the characters 1 to 9 is the published check value 0xBB3D. |
| Telegram.RunConcat | src/dsmr.c:418-575 | However a stream is cut into chunks, the machine and the records are the same. |
| Telegram.StepInv | src/dsmr.c:421-573 | One byte keeps the machine's invariant. |
| Telegram.RunInv | src/dsmr.c:421-573 | In every reachable state the CRC is 0 between telegrams, rows and location are 0 until the data starts, and location is the length of the unfinished line in DATA. |
| Telegram.ChecksumSpan | src/dsmr.c:421-573 | After every byte stream the CRC is that of the bytes from the telegram's `/` up to the current byte or through its `!`. |
| TelegramFrames.JunkSkipped | src/dsmr.c:424-438 | Bytes with no `/` at a line start that end a line change nothing. |
| TelegramFrames.SeparatorSkipped | src/dsmr.c:452-466 | Whatever stands in the line between header and data only counts for the checksum. |
| TelegramFrames.BodyRead | src/dsmr.c:439-489 | From the `/` through the `!` of a printed telegram the machine collects exactly its lines and its CRC. |
| TelegramFrames.TailShown | src/dsmr.c:490-566 | For any state of the checksum buffer, the record that ends a telegram carries what the buffer then holds before its first NUL: old cells up to the digits, and the digits if no old cell is a NUL. |
| TelegramFrames.TailRead | src/dsmr.c:490-521 | The digits after the `!` are what is handed over as text, and the line end hands over one record. |
| TelegramFrames.FrameRead | src/dsmr.c:418-575 | A printed telegram gives one record: its lines, the CRC of its body, and its digits or none. |
| TelegramFrames.StreamRead | src/p1sim.c:33-71 | Decoder and printer undo each other: any telegrams with any junk before each give exactly their line lists, in order. |
| TelegramChecks.ScanHex4 | src/dsmr.c:179 | Reading four printed hexadecimal digits gives the number back, whatever follows them. |
| HexDigits.HexValueIff | src/dsmr.c:77-82 | A character is read as a hexadecimal digit exactly if it prints it, as a capital or a small letter. |
| ScannedTexts.ScanPrinted | src/dsmr.c:179 | White space, a sign, a prefix 0x and hexadecimal digits in either case, in the width of four that sign and prefix count for, are read as the number that they print. |
| ScannedTexts.GateReads | src/dsmr.c:179-180 | So a record with such a text passes the gate exactly if that number is its checksum, and no minus stands before it unless it is zero. |
| ScannedTexts.ScanNothing | src/dsmr.c:179 | A text in which no digit follows white space, sign and prefix is not read at all. |
| TelegramChecks.PrintedAccepted | src/dsmr.c:179-182 | Every printed telegram passes the gate, with or without a CRC. |
| TelegramChecks.FramedSum | src/dsmr.c:467-489 | The CRC compared at the gate is the fold over exactly the bytes from `/` through `!`. |
| TelegramChecks.FramedRecord | src/dsmr.c:467-566 | For any decoder between telegrams, one body and any digits give one record: the lines, the CRC of the body, and the text of the checksum buffer from the location at the `!`. |
| TelegramChecks.DamageIff | src/dsmr.c:175-182 | For any decoder between telegrams and any one or two adjacent bytes changed: the telegram is refused if and only if no line is unfinished at its `!`, or the text then compared is not empty and the number it begins with is not the CRC received. |
| TelegramChecks.DamageRejected | src/dsmr.c:175-182 | For any decoder between telegrams: if one byte, or two adjacent ones, between `/` and `!` change, the framing survives and no line is unfinished at the `!`, the one record is refused, for every length. |
| TelegramChecks.FirstDamageIff | src/dsmr.c:175-182 | With a checksum buffer not yet written the damaged telegram is refused if and only if no line is unfinished at its `!`. |
| TelegramChecks.CrlfBang | src/dsmr.c:470-478 | On input whose every carriage return is followed by a line feed, location is 0 on entry to END_TRANS. |
| StaleDigits.DamageAccepted | src/dsmr.c:540-541 | A telegram of any lines whose last line feed is changed to a carriage return is taken unchecked by a fresh decoder, whatever digits follow. |
| StaleDigits.OneByteChanged | src/dsmr.c:540-541 | The damaged telegrams of these results are printed telegrams with one byte changed, a line feed to a carriage return. |
| StaleDigits.DamageStored | src/dsmr.c:175-271 | Its whole lines reach the store, and the callback runs. |
| StaleDigits.StaleAccepted | src/dsmr.c:540-566 | After a good telegram of one line, a damaged second one is taken whatever digits it brings, because those of the first are compared and agree. |
| Obis.SplitPrinted | src/dsmr.c:407 | A line made of a reference and a rest that does not extend it splits into the two. |
| Obis.SplitSound | src/dsmr.c:407 | Every line that splits is such a line, and the split is at the end of the longest reference. |
| Obis.RowAsText | src/dsmr.c:189-198 | What lies behind a row's NUL does not matter. |
| ObisLines.Places | src/dsmr.c:121-167 | Every reference of `obis_map` has the form of a reference and stands in the table once. |
| ObisLines.LineStored | src/dsmr.c:189-246 | A line that begins with a reference of the table, whole, sets just that key: to what the decoder of its type makes of the next 255 characters at most, to the text itself, or where there is nothing to what was there, or to a blank object. |
| ObisLines.LineIgnored | src/dsmr.c:189-206 | Any other line, or the part of it before its first NUL, leaves the store as it was. |
| Obis.StoreContents | src/dsmr.c:183-267 | After any lines the keys are the old ones and the known references of the lines; each value is the last that decoded, else the old one, else blank. |
| Obis.StoreKnown | src/dsmr.c:121-167 | Every key of the store is in `obis_map`. |
| Obis.OutcomeConcat | src/dsmr.c:175-271 | Processing records in two parts is processing them together, in the store and in what the callback sees. |
| Obis.OutcomeRows | src/dsmr.c:179-269 | Any records: the store is the accepted lines in order, and the callback runs once for each accepted record. |
| ObisStore.ObisObject.constructor | src/dsmr.c:209 | A fresh object is blank. |
| ObisStore.ObjectStore.constructor | src/dsmr.c:412 | A new store is empty. |
| ObisStore.ObjectStore.Obtain | src/dsmr.c:208-211 | The object of a key: the one there, unchanged, or a fresh one put into the tree. |
| ObisStore.ObjectStore.Look | src/statistics.c:136-139 | The object of a key, or null when there is none. |
| ObisStore.ObjectStore.Search | src/dsmr.c:198-205 | The first entry of the table with the reference, or none. |
| ObisStore.ObjectStore.Assign | src/dsmr.c:207-241 | The key is there afterwards; a failed decoding keeps the earlier value. |
| ObisStore.ObjectStore.ProcessRow | src/dsmr.c:183-267 | One line does to the tree and its objects exactly what `UpdateRow` does to the finite map. |
| HexDec.Decode | src/dsmr.c:84-92 | The loop writes one octet for each pair of digits and nothing behind them. |
| HexDec.DecodeEncode | src/dsmr.c:77-92 | Any octets written as pairs of hexadecimal digits, each in either case, are decoded again. |
| HexDec.PairWithout | src/dsmr.c:77-92 | A character that is no digit counts as all ones in its half of the octet, a low one in the whole. |
| Capacity.FrameFits | src/dsmr.c:545-566 | A printed telegram stays within the arrays if and only if it has at most 256 lines, each with room for its NUL. |
| Capacity.StreamFits | src/dsmr.c:418-575 | Any printed telegrams among any junk stay within the arrays if and only if each of them does. |
| Decoder.DsmrDecoder.constructor | src/dsmr.c:402-416 | The initial decoder is the initial machine. |
| Decoder.DsmrDecoder.Turn | src/dsmr.c:422-544 | The state switch and the line-start flag follow the machine. |
| Decoder.DsmrDecoder.BufferField | src/dsmr.c:546-549 | A byte enters the current row and the rows still hold exactly the lines seen. |
| Decoder.DsmrDecoder.TerminateField | src/dsmr.c:550-554 | The NUL closes the row: its text is the finished line, whatever an earlier telegram left behind it. |
| Decoder.DsmrDecoder.BufferCrc | src/dsmr.c:563-566 | A byte enters the checksum buffer, which still holds what earlier telegrams left elsewhere. |
| Decoder.DsmrDecoder.ProcessRecord | src/dsmr.c:555-562 | The record is handed over and the decoder reset as the machine is. |
| Decoder.DsmrDecoder.EndCrc | src/dsmr.c:556 | The NUL behind the digits: the text is what the buffer holds before the first NUL, old bytes included. |
| Decoder.DsmrDecoder.Reset | src/dsmr.c:559-561 | Location, row and CRC are zero again and the invariant holds. |
| Decoder.DsmrDecoder.RowText | src/dsmr.c:189 | A row read as a C string is the line. |
| Decoder.DsmrDecoder.CrcText | src/dsmr.c:179-180 | The checksum buffer read as a C string. |
| Decoder.DsmrDecoder.ProcessRows | src/dsmr.c:183-267 | The rows update the store in order. |
| Decoder.DsmrDecoder.Process | src/dsmr.c:175-271 | The gate, the store and the callback do what `Outcome` says of the record. |
| Decoder.DsmrDecoder.Feed | src/dsmr.c:421-573 | One byte moves buffers, counters, store and callback log exactly as the machine says. |
| Decoder.DsmrDecoder.Decode | src/dsmr.c:418-575 | A chunk of any bytes within the array bounds: the decoder is the machine's run over it, and store and callback log are what its records deliver. |
| MeterRuns.StreamStored | src/dsmr.c:175-575 | Printed telegrams among junk reach the store whole and in order, and the callback runs once for each. |
| MeterRuns.UncheckedStored | src/dsmr.c:180 | With the option to ignore checksums every record is processed, in order, whatever its checksum: the callback runs for each. |
| MeterRuns.DamageIgnored | src/dsmr.c:175-182 | Store and callback see nothing of a damaged telegram if and only if it is refused, that is under the condition of `DamageIff`. |
| MeterRuns.CrlfDamageIgnored | src/dsmr.c:175-182 | The same, on any stream whose every carriage return is followed by a line feed. |
| MeterRuns.RunStore | src/dsmr.c:183-267 | After any byte stream the keys are exactly the known references of accepted telegrams, and each value is the last that decoded. |
| MeterRuns.KeysGrow | src/dsmr.c:208-211 | Feeding more bytes never removes a key. |
| MeterReading.ReadChunks | src/serial.c:157-178 | Any reads of the line, one after the other: decoder, store and callback log are those of their bytes joined. |
| MeterReading.ReadStream | src/dsmr.c:418-575 | Printed telegrams among junk, cut into reads anywhere: the store on the heap holds their lines, whole and in order, on top of what it held, and the callback ran once for each. |
| MeterReading.ReadDamaged | src/dsmr.c:175-182 | A damaged telegram, cut into reads anywhere, leaves the store on the heap and the callback log as they were if and only if the gate refuses it, that is under the condition of `DamageIff`. |
| MeterReading.ReadUnchecked | src/dsmr.c:175-271 | With that option any bytes, cut into reads anywhere, leave the lines of all their records in the store on the heap. |
| Calendar.WeekStart | src/database.c:222-239 | The loop back to Sunday terminates, with the weekday as measure, at midnight of the first day of the week. |
| Calendar.WeekIsLatestSunday | src/database.c:222-239 | That moment is the latest Sunday midnight not after the given one. |
| Calendar.DayBefore | src/database.c:229-237 | A second before a midnight belongs to the day before, whose weekday is one less. |
| Calendar.KnownDays | src/database.c:222-239 | 1 January 1970 was a Thursday and 2 January 2000 a Sunday. |
| Calendar.BucketIdempotent | src/database.c:208-241 | Every bucket starts at or before its moment and is its own bucket. |
| Calendar.BucketMonotone | src/database.c:208-241 | Later moments never fall in earlier buckets. |
| Calendar.NeverError | src/database.c:243 | No bucket of any time is the error value of `mktime`, if and only if local hours do not start a second late. |
| Calendar.HourInDay | src/database.c:208-220 | The hour determines the day. |
| Calendar.DayInWeek | src/database.c:215-240 | The day determines the week. |
| Statistics.Database.Update | src/database.c:102-139 | One row is appended, its time narrowed to 32 bits. |
| Statistics.Accumulator.constructor | src/database.c:260-266 | Both values start unset. |
| Statistics.Accumulator.NewTime | src/database.c:208-241 | The switch computes the bucket of its kind. |
| Statistics.Accumulator.Evaluate | src/database.c:203-258 | What one reading does to the accumulator and appends to the rows, in each of the cases of unset time, same bucket and unset value. |
| Statistics.Meter.constructor | src/statistics.c:76-79 | Three accumulators of one meter, all unset. |
| Statistics.Meter.Feed | src/statistics.c:139-143 | One reading reaches the three accumulators, and the rows come in their order. |
| Statistics.Meter.FeedAll | src/statistics.c:132-144 | Any readings, one after the other: of the rows the database then holds, those of each kind are the earlier ones followed by those of that accumulator's deltas, though the three kinds are stored among each other. |
| Statistics.StepConserves | src/database.c:243-255 | What one reading reports, and what it takes over unreported, is the change of the kept value. |
| Statistics.Conservation | src/database.c:243-255 | Over every run the reported deltas and the values taken over unreported add up to the change of the kept value. |
| Statistics.RunConcat | src/database.c:243-255 | Two runs after each other are one run. |
| Statistics.AllReported | src/database.c:246-253 | From a set value on, non-zero readings leave nothing unreported. |
| Statistics.ReportedSinceFirstChange | src/database.c:243-255 | With non-zero readings and bucket times the deltas of a fresh accumulator add up to its kept value less the reading at its first bucket change. |
| Statistics.SinceFirstChange | src/database.c:243-255 | With zero readings too: the deltas of a fresh accumulator, and what it took over silently after its first bucket change, add up to its kept value less the reading at that change. |
| Statistics.CoarseChangeIsFine | src/statistics.c:139-143 | Every coarse bucket change is a fine one on the same reading. |
| Statistics.BetweenChanges | src/database.c:243-255 | Between any two of its bucket changes an accumulator reports exactly the difference of the two readings. |
| Statistics.BetweenConserves | src/database.c:243-255 | With zero readings too: between any two of its bucket changes an accumulator reports the difference of the readings less what it took over silently. |
| Statistics.SingleReport | src/database.c:243-255 | Between consecutive bucket changes there is one row, under the bucket that ends. |
| Statistics.Agreement | src/statistics.c:139-143 | Between two coarse changes the hourly and daily, hourly and weekly, or daily and weekly deltas add up to the same; between consecutive ones to the single coarse delta. |
| Statistics.AgreementIff | src/statistics.c:139-143 | With zero readings too: between two coarse changes the fine and the coarse deltas add up to the same if and only if both accumulators took over the same amount silently. |
| Statistics.ZeroDisagrees | src/database.c:246-253 | A meter that starts counting from zero: between the same two midnights the hourly rows report 4 of 9 and the daily rows nothing. |
| Statistics.TimesIncrease | src/database.c:243-255 | With times that never go back, the reported bucket times strictly increase. |
| Statistics.StoredTimes | src/database.c:102-139 | Two stored rows of one kind and name come from two bucket times a < b. Their times are equal if and only if 2^32 divides b - a, and within 2^32 seconds they are in order if and only if no wrap of the 32 bits lies between. |
| Statistics.OneRowPerBucket | src/database.c:102-139 | In any rows that hold those of a fresh accumulator, in whatever order with others, and for ordered readings whose buckets span less than 2^32 seconds, two rows of its kind and name have different times. |
| Statistics.RowsInOrder | src/database.c:102-139 | While no wrap lies between the buckets of a run, later rows have later times. |
| Statistics.Year2038 | src/database.c:251 | Four hourly readings on 19 January 2038 store two rows in the wrong order. |
| MeterStatistics.StaysWellKept | src/dsmr.c:213-241 | With decoders that return what they are asked for, every object stays blank or of the type the table gives its reference. |
| MeterStatistics.ReadsWritten | src/statistics.c:136-193 | So the members of the union that `do_stats` reads are those that were written, or those of a blank object. |
| MeterStatistics.Totals.constructor | src/statistics.c:76-102 | Eight meters with their own names and three unset accumulators each. |
| MeterStatistics.Totals.Evaluate | src/statistics.c:139-143 | The three evaluations of a block change that meter only and append its rows. |
| MeterStatistics.Totals.Block | src/statistics.c:139-144 | A block looks its object up and evaluates it, or changes nothing; four meters use the time of the telegram and four their own. |
| MeterStatistics.Totals.DoStats | src/statistics.c:132-197 | On the heap: all eight meters read the object store through the tree, and accumulators and rows become what `Counted` says; without the time of the telegram nothing changes. |
| MeterStatistics.KeptAdded | src/statistics.c:132-197 | Of the rows that one telegram adds, those of one meter and kind are what its accumulator reports. |
| MeterStatistics.MetersApart | src/statistics.c:132-197 | Over any number of telegrams the accumulator of each meter and kind and its rows are those of a run over its own readings, whatever the other seven store in between. |
| MeterHistory.CountByte | src/main.c:85-97 | One byte: the decoder does its turn, and `do_stats` runs on the store if the callback was called. |
| MeterHistory.CountChunks | src/main.c:85-97 | Any bytes in any reads: decoder, store and statistics together; the statistics have run on exactly the stores that the callback saw, in order. |
| MeterHistory.CountStream | src/main.c:85-97 | Printed telegrams among junk, cut into reads anywhere: the statistics have seen the store after each telegram. |
| MeterHistory.MeterRows | src/statistics.c:132-197 | From a fresh start: of all the rows in the database, those of one meter and kind are the deltas of its readings, and their amounts, with what was taken over silently, add up to its kept value. |
| MeterHistory.TelegramSample | src/statistics.c:136-193 | A telegram whose lines give a time and a total is sampled at just these. |
| MeterHistory.TotalSample | src/statistics.c:136-170 | A time and an electricity total that were decoded are the reading of that meter, number for number. |
| MeterHistory.DeviceSample | src/statistics.c:172-193 | The total of a device behind the meter is read at its own time. |
| MeterHistory.StoredSample | src/statistics.c:132-197 | The objects of the clock and of a total decide the reading: their numbers, the zeroes of a blank one, and no reading when one is missing. |
| LinkedList.ListNode.constructor | src/list.c:105-117 | A node without neighbours. |
| LinkedList.List.constructor | src/list.c:90-103 | An empty well-formed list. |
| LinkedList.List.AddNode | src/list.c:153-165 | The node is linked behind the last one and head, tail and both link directions stay right. |
| LinkedList.List.Add | src/list.c:226-231 | The sequence grows by the value at its end. |
| LinkedList.List.RemoveNode | src/list.c:288-300 | Exactly the node at its place goes, at either end or between; the rest keep order and links; its value is returned. |
| LinkedList.List.IsEmpty | src/list.c:233-235 | True exactly for the empty sequence. |
| LinkedList.List.Size | src/list.c:237-245 | The length of the sequence. |
| LinkedList.List.NodeByValue | src/list.c:260-266 | The node at the first place that compares equal, null when there is none. |
| LinkedList.List.NodeByIndex | src/list.c:268-276 | The node at a place; a negative index finds the first, one past the end none. |
| LinkedList.List.IndexOf | src/list.c:247-258 | The first place that compares equal, or -1. |
| LinkedList.List.Has | src/list.c:283-286 | True exactly if some value compares equal. |
| LinkedList.List.Get | src/list.c:278-281 | The value at a place, the first for a negative one. |
| LinkedList.List.RemoveByIndex | src/list.c:302-305 | The value at that place goes and is returned. |
| LinkedList.List.RemoveByValue | src/list.c:307-316 | The first equal value goes and is returned; nothing changes when there is none. |
| LinkedList.List.Clear | src/list.c:130-145 | The list is empty and every value was freed once, in order, if the list frees values. |
| LinkedList.Iterator.constructor | src/list.c:184-186 | The iterator stands at the first node. |
| LinkedList.Iterator.Next | src/list.c:188-195 | One place on, staying past the end; true while a node is there. |
| LinkedList.Iterator.Prev | src/list.c:197-204 | One place back, staying at the first; true if it moved. |
| LinkedList.Iterator.Get | src/list.c:210-220 | The value at the place, nothing past the end. |
| LinkedList.Iterator.Eof | src/list.c:222-224 | True exactly past the end. |
| Hooks.Hook.constructor | src/dispatch.c:139-153 | A hook with its descriptor, callbacks and data. |
| Hooks.UnregisterAgrees | src/dispatch.c:251-273 | Unregistering keeps the select sets right if and only if no remaining hook has a callback of the same kind on the same descriptor, whether or not the hook was registered. |
| Hooks.SharedDescriptorLost | src/dispatch.c:251-273 | Two hooks read from one descriptor: after one is unregistered the other is registered still and no longer watched. |
| Hooks.RegisterKeepsInv | src/dispatch.c:232-249 | Registering an unused descriptor and data keeps the invariant and adds the hook at the end. |
| Hooks.LastKeepsNumber | src/dispatch.c:215-230 | When the last hook goes, nfds stays what it was. |
| Hooks.UnregisterKeepsInv | src/dispatch.c:251-273 | Unregistering a registered hook keeps the invariant and removes exactly it. |
| Hooks.UnregisterForDataKeepsInv | src/dispatch.c:275-298 | Unregistering for data keeps the invariant and unregisters exactly the hook with that data. |
| Hooks.SelectedExactly | src/dispatch.c:394-439 | A hook's bit comes back from select exactly when it has that callback and its descriptor is ready: no null callback is called, no ready hook is missed. |
| Hooks.RunInv | src/dispatch.c:215-298 | Every run of register, unregister and unregister-for-data keeps each set equal to the descriptors of the hooks with that callback and nfds one above the largest descriptor. |
| Hooks.RunFromEmpty | src/dispatch.c:215-298 | From an empty dispatcher, after any run: every descriptor is below nfds, and in a set exactly if its hook has that callback. |
| EventPasses.ChainIs | src/dispatch.c:431-439 | The chain of callbacks fails exactly if a ready one does, and what it registers is, in the order read, write, except, what those register before which none failed. |
| EventPasses.ServedInv | src/dispatch.c:428-449 | One hook of a pass: what the ready callbacks up to the first failure registered is added, and the hook goes exactly if a ready callback fails. |
| EventPasses.PassResult | src/dispatch.c:413-454 | A pass leaves the hooks none of whose ready callbacks fails, in order, followed by those registered meanwhile, none of which was called; the invariant holds. |
| EventPasses.ShutdownEmpties | src/dispatch.c:458-485 | When every hook has a close callback the shutdown pass empties the list, with no demand on descriptors or data. |
| EventPasses.ShutdownLeaves | src/dispatch.c:458-485 | The shutdown pass leaves exactly the hooks without a close callback; the list is empty if and only if there are none. |
| EventPasses.TurnsInv | src/dispatch.c:393-487 | The invariant holds after any number of turns of the event loop. |
| EventPasses.SignalEndsLoop | src/dispatch.c:393-487 | After a signal, the first turn whose select answers ends the loop if and only if every hook then registered has a close callback. |
| EventPasses.QuitEndsLoop | src/dispatch.c:391 | Once a callback has asked to quit, and select does not fail, the loop ends exactly when no hook is registered. |
| EventPasses.FailureEndsLoop | src/dispatch.c:404-412 | A failure of select ends the loop. |
| EventPasses.LoopGoesOn | src/dispatch.c:391 | Without a failure, a signal or a wish to quit it does not end. |
| Dispatch.Dispatcher.constructor | src/dispatch.c:174-204 | No hooks, empty sets. |
| Dispatch.Dispatcher.Renumber | src/dispatch.c:215-230 | nfds becomes one more than the largest descriptor, and stays when there are no hooks. |
| Dispatch.Dispatcher.Enlist | src/dispatch.c:237-245 | The hook joins the list and the sets of its callbacks. |
| Dispatch.Dispatcher.Register | src/dispatch.c:232-249 | A fresh hook, registered. |
| Dispatch.Dispatcher.Unregister | src/dispatch.c:251-273 | The bits are cleared in any case; the hook leaves the list if it is there, and -1 says it was not. |
| Dispatch.Dispatcher.UnregisterForData | src/dispatch.c:275-298 | The first hook with the data is unregistered; nothing changes when there is none. |
| Dispatch.Dispatcher.Snapshot | src/dispatch.c:416-423 | A separate list with the same hooks in the same order. |
| Dispatch.Dispatcher.SetBits | src/dispatch.c:239-241 | The bits of the hook's callbacks are set, and no others. |
| Dispatch.Dispatcher.ClearBits | src/dispatch.c:257-259 | The bits of the hook's callbacks are cleared, and no others. |
| Dispatch.Dispatcher.Call | src/dispatch.c:431-439 | A callback that exists runs: the hooks it registers join in order, and its result comes back. |
| Dispatch.Dispatcher.Open | src/dispatch.c:232-249 | Hooks registered by one callback join in order, with their bits and nfds. |
| Dispatch.Dispatcher.Close | src/http.c:401-404 | A close callback takes its hook away, by itself or by its data. |
| Dispatch.Dispatcher.Serve | src/dispatch.c:428-449 | One hook of the pass, on the list and the sets; only callbacks that exist are called. |
| Dispatch.Dispatcher.ReadyPass | src/dispatch.c:413-454 | The pass over the snapshot is `Pass`, while the live list changes under it. |
| Dispatch.Dispatcher.Shutdown | src/dispatch.c:474-480 | One hook of the shutdown pass goes if it has a close callback, and stays otherwise. |
| Dispatch.Dispatcher.ShutdownPass | src/dispatch.c:458-482 | The shutdown pass over its own snapshot is `ShutPass`. |
| Dispatch.Dispatcher.ReadyTurn | src/dispatch.c:412-486 | A turn in which select answered: the pass over the selected hooks, the hooks that timers register, and after a signal the shutdown pass. |
| Dispatch.Dispatcher.HandleEvents | src/dispatch.c:383-493 | The loop, for any answers of select and the callbacks, is `Turns`; the invariant holds at the end. |
| HttpMachine.RunConcat | src/http.c:153-271 | A stream may be cut anywhere: same state, same calls at the same bytes. |
| HttpMachine.ChunksDoNotMatter | src/http.c:382-399 | Reading any chunks is reading their concatenation. |
| HttpFraming.HeadRead | src/http.c:158-261 | Request line, headers and blank line: the line is parsed once, the last Content-Length stands, and the request is handled at the blank line exactly if no length stands. |
| HttpFraming.BodyRead | src/http.c:193-199 | A body that reaches the wanted length at its last byte gives one call, there. |
| HttpFraming.BodyMisread | src/http.c:193-199 | After earlier body bytes a body of the declared length is never answered at its last byte. |
| HttpFraming.RequestFramed | src/http.c:153-271 | One request of any line, headers and body gives exactly one call, at its last byte, if and only if the length then standing is that of its body added to the bodies before, or 0 without a body. |
| HttpFraming.StreamFramed | src/http.c:153-271 | A stream of any requests gives exactly one call for each, at its last byte, with its own method and uri, if and only if that holds of each in turn. |
| HttpFraming.ReadClean | src/http.c:240-261 | For a request whose length is declared as RFC 7230 asks and read as it asks, the condition says: its body is the first on the connection, or it has none and no length is left over. |
| HttpFraming.LastBodyFramed | src/http.c:153-271 | Streams of such requests in which at most the last one has a body are framed correctly. |
| HttpFraming.SecondBodyMisframed | src/http.c:193-199 | Two such requests with bodies on one connection never are: the length read is never reset. |
| HttpFraming.MissedLengthMisframed | src/http.c:240-261 | A first request with a body is not framed correctly when the length the decoder takes from its headers is not that of the body. |
| HttpFraming.EmptyLineFramed | src/http.c:220-239 | An empty line before any request: the call is right if and only if its line would leave the method and uri as they are, and the length standing after the line and the headers, all read as headers, fits its body. |
| HttpNumbers.DigitsPrinted | src/http.c:256-257 | The decimal digits of a number are read back as the number. |
| HttpNumbers.AtoiPrinted | src/http.c:256-257 | White space, a sign and decimal digits, up to something else, are read as the number that they print. |
| HttpNumbers.PrintedLengthFramed | src/http.c:193-257 | A first request with the header Content-Length and the length of its body in decimal gives one call, at the last byte of the body. |
| HttpNumbers.NegativeHangs | src/http.c:193-257 | With a negative length it is never answered, whatever follows. |
| HttpFields.AgreesIff | src/http.c:240-261 | For every header line, the decoder reads the length that RFC 7230 gives it if and only if the line declares one in the exact spelling and with a space, and the value is 0 or fits 255 characters, or declares none and is not noticed. |
| HttpFields.LengthMissed | src/http.c:240-261 | Any length under a lower-case name, or right behind the colon, is one by RFC 7230 and not read. |
| HttpExamples.TwoPosts | src/http.c:193-199 | Two equal requests with a Content-Length and a body, sound by RFC 7230, that are misframed on one connection. |
| HttpExamples.LengthMissedPosts | src/http.c:240-261 | A request with a lower-case field name, and one without the space, both sound by RFC 7230 and misframed. |
| HttpExamples.EmptyLineMisread | src/http.c:220-239 | An empty line before a first request that asks for something is never answered rightly. |
| HttpExamples.EmptyLineGet | src/http.c:220-239 | Such a request exists: a GET of the root. |
| HttpExamples.PlainGet | src/http.c:153-271 | A whole GET of /api, byte by byte, gives one call with that method and uri, at its last byte. |
| HttpCapacity.RequestFits | src/http.c:72-267 | A request framed correctly stays within the buffer if and only if its line, its headers and its body do. |
| HttpCapacity.StreamFits | src/http.c:153-271 | A stream of requests framed correctly stays within the buffer if and only if each of them does. |
| HttpDecoders.HttpDecoder.constructor | src/http.c:123-144 | The initial decoder is the initial machine. |
| HttpDecoders.HttpDecoder.Transition | src/http.c:157-204 | The state switch follows the machine. |
| HttpDecoders.HttpDecoder.Act | src/http.c:214-267 | The action switch: copy, drop, parse or handle, on the buffer. |
| HttpDecoders.HttpDecoder.Feed | src/http.c:155-268 | One byte moves the decoder and the answers as the machine says. |
| HttpDecoders.HttpDecoder.Read | src/http.c:153-271 | A chunk of any bytes within the buffer: the machine's run over it, and one routed answer for each call. |
| HttpService.LineParsed | src/http.c:220-239 | The method and uri of a request line are read back as they were sent. |
| HttpService.LineCut | src/http.c:220-239 | Of a longer method the first 31 characters are kept, of a longer uri the first 255. |
| HttpService.LineRefused | src/http.c:220-239 | A line with fewer than two spaces leaves method and uri as they were. |
| HttpService.RequestsAnswered | src/http.c:308-329 | However its bytes are cut into reads, the machine's calls on a correctly framed connection are answered once for each request, as the registration history answers its method and uri. |
| HttpService.ReadChunks | src/http.c:382-399 | Any reads of a connection: the decoder is the machine's run over them, and one routed answer is added for each call. |
| HttpService.ServeConnection | src/http.c:308-399 | A connection of requests that are framed correctly and fit the buffer, cut into reads anywhere: the decoder on the heap gives one answer for each, the one the registration history gives its method and uri. |
| Routing.LookedIsSearched | src/http.c:308-351 | Two levels of maps answer as a linear search of the registration history: the last registration wins, an unknown uri reaches the default, a known uri with an unknown method is refused. |
| Routing.LastIsLatest | src/http.c:337-351 | What the search finds is the latest registration of that uri and method. |
| Routing.TableAnswers | src/rest.c:170-227 | With the 51 entries registered, GET on a uri of the table reaches that entry's own callback and data, any other method on it is refused, and every other uri reaches the default. |
| ServedValues.TariffsServed | src/rest.c:181-184 | GET on the totals of both tariffs serves the references of those totals, which the meter sends in kWh. |
| ServedValues.PhasesServed | src/rest.c:185-208 | GET on a quantity of phase n serves the reference whose third number begins with 2n for powers and with 2n + 1 for currents, voltages, sags and swells, each in its unit. |
| ServedValues.DevicesServed | src/rest.c:211-226 | GET on the values of device n serves the references of channel n. |
| ServedValues.MeterValuesServed | src/rest.c:179-199 | GET on clock, tariff, power and identifier of the meter serves their references, of the types that the table of the decoder gives them. |
| ServedValues.FailuresServed | src/rest.c:200-210 | The same for the counts of failures, their log, and the messages. |
| ServedValues.ApiServed | src/rest.c:176-178 | The same for the version, and the list of devices has a callback of its own. |
| Handlers.Resource.constructor | src/http.c:347-349 | A resource with its callback and data. |
| Handlers.Handler.constructor | src/http.c:358-372 | A handler with no registrations over the shared sentinel. |
| Handlers.Handler.RegisterDefault | src/http.c:353-356 | The default callback is replaced and nothing else. |
| Handlers.Handler.NewTree | src/http.c:343-346 | A new empty tree over the one sentinel leaves the others as they were. |
| Handlers.Handler.Subtree | src/http.c:342-346 | The tree of a uri, made and put into the uri tree when there is none. |
| Handlers.Handler.Register | src/http.c:337-351 | For any state of the trees, the history grows by this registration and the trees of trees stand for it. |
| Handlers.Handler.Enter | src/http.c:347-350 | The resource joins the tree of its uri, and the trees stand for the history with it. |
| Handlers.Handler.Find | src/http.c:316-318 | The tree of a uri, if and only if the history knows it. |
| Handlers.Handler.Route | src/http.c:308-329 | The answer found through the trees is the one a search of the history gives. |
| Handlers.Handler.RestRegister | src/rest.c:234-243 | The default and all entries of the table are registered, in order. |

## Left out

- Sockets, serial line, fork, signals, logging, SQLite, Avahi and Mosquitto: rows, callbacks and answers are logs instead.
- Allocation failure: every allocation succeeds.
- Buffers filled beyond their size: the sizes are preconditions, and what happens beyond them is not modelled.
- Regular expressions and `strptime` in the OBIS value decoders: a decoder is any partial function from text to value.
- HexDec.Decode: for text of even length with characters up to 127, because the original reads outside its text and its table for others.
- `atoi` and the reading counters at the limits of `int`: they are unbounded here, except the row times.
- Time zones and daylight saving: local time has a fixed offset.
- The clipping of an accumulator's name to its buffer; the eight names of `do_stats` are shorter.
- What the callback of src/main.c does besides `do_stats`: the copy that the web server reads, and MQTT.
- Dispatch.Dispatcher.ReadyTurn: which timers are due is not modelled; the hooks their callbacks register are a parameter.
- Dispatch.Dispatcher.HandleEvents: the list of timers and the timeout they give `select` are not modelled; what `select` answers is a parameter.
- `dispatch_close`, which walks the live list while it changes.
- Callbacks that unregister a hook other than their own, and reads of a hook after its callback freed it: a callback may register hooks and fail, and closing takes its own hook away.
- The event loop is run for any finite list of answers of `select`; that it may run for ever is not modelled.
- The heap of freed nodes: freeing is a list or set of what was freed, so use after free is not a state of the model.
- `http_get_file`, the JSON texts of `src/rest.c` and the bytes of responses: an answer is the callback chosen, or a refusal with status 405.
- The state DONE of the HTTP decoder, which nothing reaches.
- `src/ini.c`, `src/options.c`, `src/mqtt.c`, `src/dnssd.c`, `src/publish.c` and the web pages are not part of this model.
- RedBlackTree.RbTree.RotateLeft: for a node of the tree whose right child is one, which every caller has. For a sentinel the original would write the sentinel's children and the root, guarded only at src/rbtree.c:85 and 98, and no call reaches that.
- RedBlackTree.RbTree.RotateRight: for a node of the tree whose left child is one, likewise.
