# HTTP/2 connection core: model and proofs

A Dafny model of a Go implementation of HTTP/2 (RFC 7540) and HPACK (RFC 7541), with proofs of what its parts promise
to each other. `dafny verify dfyconfig.toml` checks the project.

The modules follow the program:

- **HPACK** — `IntegerCodec`, `Huffman`, `HuffmanTree`, `HuffmanTable`, `HuffmanStrict`, `HeaderTable`, `HeaderIndex`, `Hpack` (encoder and
  decoder as functions of their state), `HpackChoice` (what is written for a field), `HpackChunks`, `HpackLockstep`, `HpackLimits` (the decoder
  on any input), `HpackResize`, `HpackCodec` (the encoder and decoder objects),
  `HpackStatic` and `StaticNames` (the static table).
- **Flow control** — `FlowControl` (the controllers of both sides), `FlowProtocol` (two endpoints, any number of streams
  and allocators, interleaved), `FlowExample`.
- **State machines** — `StreamState`, `StreamTable`, `SettingsList`, `SettingsSync`, `WriteQueue`.
- **Framing** — `Frames`, `FrameLayout` (frames byte by byte), `FrameReader`, `DataSplit`, `HeaderFrames`, `HeaderBlocks`, `HeaderMessages`,
  `HeaderOrder` (any order of frames), `HeaderMap`, `HeaderDesync`.
- **All of it in one direction** — `Conversation`, `Connection`.
- `Bits` and `Wrappers` are shared.

The main results:

1. Over every run of header blocks and table size changes, cut into any chunks, the HPACK decoder returns the fields that
   were encoded and ends each block with the encoder's table (`HpackLockstep.Lockstep`, `HpackStatic.StandardLockstep` for
   the actual code and static tables).
2. The trie-walking Huffman decoder is bit-by-bit prefix decoding, and inverts the encoder (`HuffmanTree.HuffmanDecode`,
   `Huffman.RoundTrip`, `HuffmanTable.TableIsGood`).
3. In every interleaving of allocators, links and receivers, credit is conserved, no window is overrun, and closing a
   stream returns exactly its bytes (`FlowProtocol.Conservation`). A call sends as much as its request and the credits it
   took allow, whatever runs in between (`FlowProtocol.CallGranted`).
4. The two ends of a stream mirror each other whenever the links are drained (`StreamState.Convergence`); the stream table,
   its counters and its identifiers are in order in every run (`StreamTable.TableAccounts`), and a GOAWAY closes no stream
   that it does not exclude (`StreamTable.GoAwaySpares`).
5. Whatever one side writes from the first frame on, the other reads back the same, byte by byte through framing,
   fragmentation and HPACK (`Connection.ConnectionArrives`, and `Connection.DuplexArrives` with the settings read off the
   other direction): frames that the wire format can carry, acknowledgements of settings under the exact condition of
   `Conversation.AckAgreesIff`, and headers with valid keys, a value for each, a regular key among them and a size within the header list limit in
   force, if any (`Connection.HeaderCanSend` gives the exact condition).
6. Whatever bytes and frames arrive, the decoder's table and field list keep to their limits (`HpackLimits.TableBounded`,
   `HpackLimits.TooLargeIff`), and header blocks are accepted only in one piece (`HeaderOrder.NoInterleaving`,
   `HeaderOrder.BlockReadIff`).

## How the program is modelled

- Objects whose methods update fields are classes (`HeaderTableObject`, `EncoderObject`, `DecoderObject`,
  `RemoteFlowController`, `FlowController`, `WriteQueueObject`, `SettingsObject`, `ConnObject`, `FrameReaderObject`,
  `HeaderObject`); loops are methods with invariants. Each is proved equal to a function of the old state, and the
  properties are proved of these functions.
- A locked region, and a compare-and-swap together with its effects, is one atomic step; a channel send or receive is a step
  of its own. Map iteration order is an arbitrary sequence.
- Shifts and masks are division and remainder; uint32 and uint64 arithmetic wraps explicitly. Theorems that need it ask for
  table sizes below 2^31 and field sizes below 2^32.
- The Huffman code is a parameter satisfying `Huffman.GoodCodes` (lengths 5 to 30, prefix-free, complete, EOS all ones);
  `HuffmanTable.TableIsGood` shows this for the 257 codes. The byte trie with its child pointers is a map from paths
  to nodes.
- The refill threshold `int(float32(upper)*0.5)` is computed with the rounding of float32 (`FlowControl.Threshold`).

## Where the code differs from its promises

- A decoded EOS yields a zero byte and bad padding is accepted, against section 5.2 of RFC 7541
  (`HuffmanStrict.EosAccepted`, `HuffmanStrict.BadPaddingAccepted`). An input is the encoding of some string exactly if it has
  no EOS and fewer than eight bits of padding, all ones, and then the decoder returns that string
  (`HuffmanStrict.ConformsIff`).
- The Pad Length octet is not flow controlled on either side, against section 6.1 of RFC 7540
  (`DataSplit.PadLengthUncharged`): what is sent has one octet more than was granted for each padded frame, and as many as
  granted exactly if there is no padding (`DataSplit.ChargedIff`).
- A header with pseudo-header fields only is never written although its fields go through the encoder
  (`HeaderMessages.PseudoOnlyLost`), and a key without values at the end of the visit brings a CONTINUATION frame after
  END_HEADERS: `HeaderFrames.FragmentsWellFormedIff` gives the exact condition.
- A header given up with an error leaves the encoder advanced. With the keys "a" and then ":" nothing is written and a fresh
  encoder and decoder are out of step (`HeaderDesync.MalformedDesyncs`). When nothing was written the peer stays in step
  exactly under a condition on the fields in front of the malformed key and the encoder before
  (`HeaderMessages.MalformedGivenUpIff`, `HeaderMessages.GivenUpIff`): without a pending size update, and while nothing would be
  evicted, exactly if none of the fields is added to the table.
- A malformed key without values at the end of the visit is reported after the block was ended
  (`HeaderBlocks.EndedThenMalformed`); `HeaderBlocks.MalformedIff` gives the exact condition on the keys.
- Closing a stream while the reader holds one of its DATA frames returns the bytes of the frame twice
  (`FlowProtocol.ClosedThenReturned`, and `FlowExample.ReturnedTwice` for a run from the start); `FlowProtocol.LateReturnIff` says exactly when a late return keeps the accounts.
- A client's ENABLE_PUSH=1 is refused by its server (`SettingsSync.ClientPushRefused`). Invalid values are not acknowledged
  (`SettingsSync.InvalidNotAcknowledged`), ENABLE_PUSH=1 that is overwritten in the same list is
  (`SettingsSync.OverwrittenPush`): `SettingsSync.AcknowledgedIff` gives the exact condition.
- The peer applies a list as it has read it, with repeated identifiers overwritten, but the sender applies the list itself.
  The values in force are the same (`SettingsSync.StoredAsRead`), but HEADER_TABLE_SIZE=0 and then 4096 in one list empties the
  decoder's table and not the encoder's (`Conversation.DipDisagrees`). The ends still agree after the acknowledgement exactly if
  each table size in the list holds what the encoder keeps (`Conversation.AckAgreesIff`), as it does without repetitions
  (`Conversation.DistinctAckAgrees`).
- Two goroutines writing SETTINGS can cross between the channel of outstanding settings and the write queue, and then
  the wrong list is applied (`SettingsSync.CrossedWritersDisagree`). In every run the sender goes by the order sent and the
  peer by the order queued (`SettingsSync.AckMeaning`), so that they agree exactly if the two orders do
  (`SettingsSync.AgreementIff`), as with writers in order (`SettingsSync.Agreement`).
- A HEADERS frame that passes the GOAWAY check before the GOAWAY is stored can still open a stream above its last
  identifier (`StreamTable.GoAwayRace`). For a frame that has its stream or would get one, no run leaks a stream exactly if
  the GOAWAY is not stored while the reader holds a frame that it excludes (`StreamTable.LeakFreeIffCalm`).
- Control frames go before ordinary ones, except those added after the write loop has emptied the channel and before it
  refills it (`WriteQueue.IntruderFirst`). While control frames wait, the ordinary frames that go first are two at most, and
  those added in these moments (`WriteQueue.Overtaken`).
- A call that waits for credit can be left waiting although there is credit, exactly if another used all it took while
  more came in (`FlowProtocol.LeftWaitingIff`).
- A PRIORITY frame that depends on stream 0 is read but not written, against section 5.3.1 of RFC 7540; every other frame
  that is read can be written again (`FrameLayout.WrittenAgainIff`).
- A received PUSH_PROMISE is checked with the parity of local identifiers: every identifier its sender may use is refused
  (`StreamTable.PromisesRefused`), and exactly those are accepted that the receiver could use next itself
  (`StreamTable.PromiseAcceptedIff`), whose next identifier a promise can thereby take (`StreamTable.OwnIdentifierPromised`).

## Model

| member | source | states |
|---|---|---|
| IntegerCodec.EncodeInteger | hpack/hpack.go:104-119 | The loop appends exactly the prefix byte and the base-128 digits of the integer |
| IntegerCodec.DecodeInteger | hpack/hpack.go:338-368 | The loop returns the value and the rest, asks for more, or reports overflow, as the recursive reading does |
| IntegerCodec.IntegerRoundTrip | hpack/hpack.go:104-119 | For prefixes 4 to 7, decoding inverts encoding and consumes exactly its bytes if and only if the integer is below 2^63+2^n-1; above, it overflows |
| IntegerCodec.EncodingShortest | hpack/hpack.go:104-119 | No byte string that decodes to an integer is shorter than its encoding |
| IntegerCodec.DecIntegerMeaning | hpack/hpack.go:338-368 | An accepted integer is the sum its digits denote, below the bound and without uint64 wrap-around, and something was consumed |
| IntegerCodec.DecIntegerExtend | hpack/hpack.go:338-368 | A decoded integer or an overflow is not changed by bytes that follow |
| Huffman.HuffmanEncode | hpack/huffman.go:43-83 | Appends the code words of the string, padded with ones to whole bytes |
| Huffman.HuffmanEncodedLen | hpack/huffman.go:85-94 | Is the number of bytes that encoding appends |
| Huffman.PaddingDecodesToNothing | hpack/huffman.go:67-83 | Up to seven one-bits never complete a symbol |
| Huffman.DecodeWord | hpack/huffman.go:3-41 | A complete code word decodes to its symbol and decoding goes on behind it |
| Huffman.RoundTrip | hpack/huffman.go:3-83 | For every string, decoding its encoding gives the string back |
| HuffmanStrict.ConformsIff | hpack/huffman.go:3-83 | A byte string is the encoding of some string exactly if no EOS is read and fewer than eight one-bits remain; the decoder then returns that string |
| HuffmanStrict.WordsBack | hpack/huffman.go:3-41 | Without EOS, the bits are the code words of the decoded string and the remainder |
| HuffmanStrict.EosAccepted | hpack/huffman.go:110-110 | Four bytes of ones decode to a zero byte |
| HuffmanStrict.BadPaddingAccepted | hpack/huffman.go:27-38 | A zero byte decodes to "0" in spite of its padding |
| HuffmanTree.NewHuffmanTree | hpack/huffman.go:101-132 | The trie has exactly the inner nodes and leaves of the codes, each leaf with its symbol and length, and no inner node lacks one of its 256 children |
| HuffmanTree.InsertCode | hpack/huffman.go:110-131 | Inserting a symbol adds its nodes and leaves and overwrites nothing |
| HuffmanTree.EveryChildPresent | hpack/huffman.go:101-132 | Completeness of the code leaves no entry of a node empty |
| HuffmanTree.HuffmanDecode | hpack/huffman.go:3-41 | Walking the byte trie returns what bit-by-bit prefix decoding returns, for every byte string |
| HuffmanTree.DecodeWholeBytes | hpack/huffman.go:11-25 | The loop over whole octets emits the symbols of the bits it consumes and keeps the rest in its accumulator |
| HuffmanTree.DecodeRemainder | hpack/huffman.go:27-38 | The loop over the last bits emits the symbols that are complete and drops the rest |
| HuffmanTable.CanonicalIsGood | hpack/huffman.go:136-397 | Codes whose left-aligned intervals touch one another from 0 to 2^30 are prefix-free and complete |
| HuffmanTable.Entries | hpack/huffman.go:136-397 | Each of the 257 codes stands at its place in the order of intervals |
| HuffmanTable.TableIsGood | hpack/huffman.go:136-397 | The 257 codes are prefix-free, complete, 5 to 30 bits long, with EOS all ones |
| HeaderTable.EvictTwice | hpack/table.go:18-39 | Successive limits keep the same entries as one limit, their minimum |
| HeaderTable.EvictKeepsNewest | hpack/table.go:18-61 | Eviction keeps the longest run of newest entries that fits the limit |
| HeaderTable.TableExact | hpack/table.go:18-61 | In reachable tables the size is the sum of entry sizes and at most the maximum; resizing and adding evict exactly the oldest entries, and an entry too large empties the table |
| HeaderTable.HeaderTableObject.SetMaxSize | hpack/table.go:18-39 | The in-place eviction and compaction is dropping the oldest entries |
| HeaderTable.HeaderTableObject.AddEntry | hpack/table.go:41-61 | The in-place insertion is appending and evicting |
| HeaderTable.HeaderTableObject.CopyDown | hpack/table.go:24-38 | Copying the tail down in place is dropping a prefix |
| HeaderIndex.FindSound | hpack/table.go:75-121 | A match is the field itself; another index has its name; index 0 means that the name is in neither table |
| HeaderIndex.FindComplete | hpack/table.go:75-121 | With a grouped static table, a field that is in the tables is matched |
| StaticNames.StaticTableGrouped | hpack/table.go:139-202 | Equal names stand together in the actual static table |
| StaticNames.StandardFindComplete | hpack/table.go:75-121 | Every field that is in the actual static table or the dynamic table is matched |
| HeaderIndex.Strcmp | hpack/table.go:123-132 | The constant-time comparison decides equality |
| HeaderIndex.StaticIndex | hpack/table.go:105-121 | The lookup through the map and the scan find what the specification finds |
| HeaderIndex.DynamicIndex | hpack/table.go:86-103 | The backward loop finds the newest match, else the newest entry with the name |
| HeaderIndex.FindField | hpack/table.go:75-84 | Static before dynamic entries, exact before name-only matches |
| HeaderIndex.BuildStaticMap | hpack/table.go:204-209 | The map holds the first index of each name |
| HpackChoice.FindLeast | hpack/table.go:75-121 | A field is matched exactly if it stands in the tables, at the first entry equal to it; otherwise the index is that of the first entry with its name, or 0 if there is none |
| HpackChoice.KnownFieldIndexed | hpack/hpack.go:69-102 | A field that fits and is not sensitive counts 0 exactly if it stands in the tables; then it is written as the one index of its first entry behind the pending updates and the table stays; otherwise it is the newest entry, if indexing is on |
| HpackChoice.AddedIff | hpack/hpack.go:69-102 | With indexing on, the table is unchanged exactly if the field stands in the tables |
| HpackChoice.AbsentFieldCounts | hpack/hpack.go:148-170 | Another field counts 32, its value, and its name unless an entry has it |
| HpackChoice.AbsentFieldBytes | hpack/hpack.go:148-170 | It is written as a literal with the index of the first entry that has its name, or with index 0 and the name, and then the value |
| HpackChoice.NeverAdded | hpack/hpack.go:72-87 | A sensitive field, or one too large for the table, is written and counted in full and never changes the table; only a sensitive one is marked as never to be indexed |
| HpackChoice.StaticOnly | hpack/hpack.go:76-83 | With a table of size 0, a field is written as one index exactly if it stands in the static table |
| HpackChoice.SecondTimeIndexed | hpack/hpack.go:69-102 | With indexing on, the same field again counts 0 and adds nothing |
| HpackChoice.MethodGet | hpack/hpack.go:88-89 | With the actual tables, :method: GET is the one byte 0x82 and counts 0 |
| HpackChoice.ShorterString | hpack/hpack.go:121-142 | A string is written in the shorter of its forms, plain if they are alike |
| Hpack.StepProgress | hpack/hpack.go:312-336 | A finished instruction consumes input and leaves the size count and the error alone |
| HpackChunks.StepExtend | hpack/hpack.go:312-336 | More input does not change a finished or failed instruction; one that lacks input can be repeated from the start |
| HpackChunks.DecodeSplit | hpack/hpack.go:230-282 | Two calls with the parts of a block are one call with the whole |
| HpackChunks.ChunkIndependence | hpack/hpack.go:230-297 | However a block is cut, the calls, the table, the size count, the sticky error and the leftover are those of one call |
| HpackLockstep.StringRoundTrip | hpack/hpack.go:121-142 | A string literal decodes to the string, Huffman-coded or not, and leaves what follows |
| HpackLockstep.ReprStep | hpack/hpack.go:69-102 | Whatever representation the encoder chooses, one decoder step returns the field, its sensitivity and size and makes the same table change |
| HpackLockstep.FieldsDecode | hpack/hpack.go:60-102 | In step, the fields of a block are decoded one by one and the tables stay equal |
| HpackLockstep.ResizeKeepsSynced | hpack/hpack.go:52-58 | A size change given to both sides between blocks keeps them synchronisable, however many precede the next block |
| HpackLockstep.UpdatesDecode | hpack/hpack.go:60-68 | The announced minimum and final size bring the decoder's table to the encoder's |
| HpackLockstep.BlockRoundTrip | hpack/hpack.go:230-297 | A block decodes to exactly its fields, without error or leftover, with equal counts and tables |
| HpackLockstep.Lockstep | hpack/hpack.go:52-102 | Over every run of blocks and size changes and every chunking, decoder and encoder agree |
| HpackLimits.TableBounded | hpack/hpack.go:230-282 | Whatever bytes arrive, the table keeps to its maximum and this to the limit announced, and after a field of the block the maximum cannot change |
| HpackLimits.LimitBounded | hpack/hpack.go:209-228 | So do the calls between blocks |
| HpackLimits.TooLargeIff | hpack/hpack.go:230-282 | The list is reported too large exactly if its fields count more than the limit; within the limit everything is as without one |
| HpackLimits.IndexIff | hpack/hpack.go:395-413 | An index hands over the entry it stands for in the tables, and any other is an error |
| HpackLimits.UpdateIff | hpack/hpack.go:465-485 | A size update is followed exactly if no field came before it in the block and it is within the limit announced |
| HpackLimits.RequiredIff | hpack/hpack.go:222-282 | After a setting, a block is refused for lack of an update exactly if it does not begin with one and the limit fell, or an earlier update is still due |
| HpackLimits.UpdateDue | hpack/hpack.go:230-282 | No field is handed over before an update that is due |
| HpackResize.DipIff | hpack/hpack.go:222-228 | If the decoder goes through several sizes and the encoder is told the last, they stay synchronisable exactly if each size holds what the encoder then has in its table |
| HpackStatic.GoodCodesGoodBook | hpack/hpack.go:121-142 | A good Huffman code serves both sides of the string codec |
| HpackStatic.StandardBookIsGood | hpack/table.go:139-203 | The actual Huffman and static tables do |
| HpackStatic.StandardLockstep | hpack/hpack.go:222-297 | Lockstep for the actual tables |
| HpackCodec.EncoderObject.SetMaxHeaderTableSize | hpack/hpack.go:52-58 | Resizes at once and remembers the minimum to announce |
| HpackCodec.EncoderObject.EncodeHeaderField | hpack/hpack.go:60-102 | Appends the pending updates and the field, returns its size, and changes the table as the specification does |
| HpackCodec.EncoderObject.EncodeLiteral | hpack/hpack.go:148-170 | Appends the literal with the chosen indexing and name index |
| HpackCodec.EncoderObject.EncodeString | hpack/hpack.go:121-142 | Appends the shorter of the plain and the Huffman form with its length |
| HpackCodec.DecoderObject.SetMaxHeaderTableSize | hpack/hpack.go:222-228 | Shrinking takes effect at once and demands an update |
| HpackCodec.DecoderObject.DecodeBlock | hpack/hpack.go:230-282 | One call steps through leftover and block, rolls back an unfinished instruction and keeps errors, as specified |
| HpackCodec.DecoderObject.ResetBlock | hpack/hpack.go:288-297 | Starts a new block and reports a truncated one |
| HpackCodec.DecoderObject.DecodeOne | hpack/hpack.go:312-336 | Dispatches on the first byte and does one specified step |
| HpackCodec.DecoderObject.TakeIndexed | hpack/hpack.go:395-413 | Returns the entry of the index or the index error |
| HpackCodec.DecoderObject.TakeLiteral | hpack/hpack.go:415-463 | Reads name and value, adds to the table if told to, and calls the handler |
| HpackCodec.DecoderObject.TakeUpdate | hpack/hpack.go:465-485 | Accepts a size update only before the first field and up to the limit |
| HpackCodec.DecoderObject.TakeString | hpack/hpack.go:370-393 | Reads a string literal or asks for more |
| FlowControl.UpdateSendConserves | flow_control.go:276-308 | Moving credit between counter and channel keeps the total but for the accepted delta, and leaves no available credit outside the channel |
| FlowControl.UpdateSendPlaces | flow_control.go:276-323 | An update is refused, and then changes nothing, exactly if the counter would pass 2^31-1; a reset puts all positive credit into the channel, otherwise parked credit stays and free credit is parked |
| FlowControl.RemoteFlowController.UpdateWindow | flow_control.go:276-308 | The locked update does this |
| FlowControl.RemoteFlowController.Cancel | flow_control.go:314-323 | Parked credit returns to the counter |
| FlowControl.ThresholdBelow | flow_control.go:189-189 | Half of a window, rounded as float32 rounds, is below the window |
| FlowControl.ThresholdIsHalf | flow_control.go:189-189 | The threshold is half of the window, rounded down, up to 2^24, and never off by more than 33 |
| FlowControl.ThresholdIsRule | flow_control.go:189-189 | The source's threshold is an admissible refill rule for all windows |
| FlowControl.ReceiveNeverFails | flow_control.go:115-202 | Within the window consuming never fails, returning what was consumed never fails, increments lie in 0 to 2^31-1 and the bounds are kept; both errors arise exactly outside |
| FlowControl.GrowGood | flow_control.go:99-106 | Raising the window keeps the bounds and never overflows |
| FlowControl.ReturnRefills | flow_control.go:138-202 | Returning bytes sends an increment exactly if the bound is positive and what is then processed is at most the threshold; the window is then processed up to its bound and granted as much more; otherwise nothing else moves |
| FlowControl.GrowRefills | flow_control.go:99-202 | So does raising the window, with the new bound, which is the old one plus delta but never below 65535 or above 2^31-1 |
| FlowControl.ShiftAccepts | flow_control.go:115-168 | After the initial window changed, exactly the bytes granted before are still accepted, and delta more if it grew |
| FlowControl.RefillNeverStalls | flow_control.go:138-202 | While no more than the threshold is granted the reader owes bytes, and returning them all, at once or in two parts, grants more than the threshold: each increment fills the window to its bound, and at least one is sent |
| FlowControl.FlowController.ConsumeBytes | flow_control.go:115-136 | Takes the bytes from the window or reports the overrun |
| FlowControl.FlowController.ReturnBytes | flow_control.go:138-155 | Returns processed bytes; sends an increment up to the bound exactly if at most half of it is then processed, and otherwise changes nothing else |
| FlowControl.FlowController.WindowUpdate | flow_control.go:182-202 | Exactly if the bound is positive and at most half of it is processed, sends the increment that fills the window to its bound; otherwise changes nothing |
| FlowControl.FlowController.UpdateWindow | flow_control.go:157-168 | Shifts the window unless it would overflow |
| FlowControl.ConsumeNested | flow_control.go:115-136 | A stream's bytes are charged to the connection first |
| FlowControl.ReturnNested | flow_control.go:138-155 | A stream's bytes are returned to the connection first |
| FlowProtocol.StepKeeps | flow_control.go:325-370 | Every step of either endpoint keeps all credit accounts |
| FlowProtocol.Conservation | flow_control.go:99-202 | In every reachable state sender credit, held credit, bytes and increments in flight add up to the receiver's window, for the connection and each live stream, and the next DATA frame overruns nothing |
| FlowProtocol.NoOverrun | conn.go:774-826 | The frame about to be received fits the connection's and its stream's window |
| FlowProtocol.RemaindersAccepted | flow_control.go:350-368 | Giving back a remainder never trips the overflow guard |
| FlowProtocol.UpdateAccepted | flow_control.go:276-308 | Nor does any WINDOW_UPDATE in flight |
| FlowProtocol.AllocationBounds | flow_control.go:325-370 | A finished allocation holds between 1 and the requested number of bytes, no more than it took from the connection, which gets the rest back; nothing else changes |
| FlowProtocol.AllocationExact | flow_control.go:350-368 | The bytes allocated are the least of the request, the stream's credit and the connection's; the stream gets the rest of its credit back, and nothing else changes |
| FlowProtocol.CallTakes | flow_control.go:325-348 | A call asks for the same number of bytes from begin to end and takes all that is parked, first from the stream and then from the connection; an aborted one gives what is parked for the connection back to the counter |
| FlowProtocol.CallGranted | flow_control.go:350-370 | Whatever the others do in between, a call that holds both credits sends a frame of exactly the least of them and its request; if both cover it, in full |
| FlowProtocol.WaitsForCredit | flow_control.go:332-341 | A call that begins to wait can go on at once exactly if there is credit |
| FlowProtocol.LeftWaitingIff | flow_control.go:362-368 | Credit is left outside the channel after an allocation exactly if the call used all it took and more came in meanwhile |
| FlowProtocol.QuietWindowsAgree | flow_control.go:276-370 | With nothing in flight both ends agree on every window |
| FlowProtocol.GiveBackKeeps | conn.go:963-976 | Returning bytes to stream and connection keeps the nested accounts |
| FlowProtocol.CloseReceiverKeeps | stream.go:236-248 | Closing a stream returns all its bytes to both accounts without error and keeps them |
| FlowProtocol.LateReturnIff | conn.go:963-976 | A late return of bytes keeps the nested accounts exactly if the stream is live, there is nothing to return, or the connection refuses; else the connection is short by that much |
| FlowProtocol.ClosedThenReturned | stream.go:244-246 | Closing a stream under the reader and returning its bytes again breaks the accounts whenever other streams owe as much |
| FlowExample.ReturnedTwice | conn.go:963-976 | A run from the start does this |
| StreamState.Forward | stream.go:337-449 | States never go back, refused events change nothing, closed is final |
| StreamState.AllowedIff | stream.go:337-449 | Which frames are allowed in which states, frame by frame |
| StreamState.Directions | stream.go:337-449 | HEADERS open an idle stream both ways and a promised one in its promiser's direction, END_STREAM closes exactly the direction it is sent in, RST_STREAM closes the stream, PUSH_PROMISE reserves an idle one; this determines every next state |
| StreamState.MirrorStep | stream.go:337-449 | Receiving an event does to the mirror image what sending it does |
| StreamState.Diamond | stream.go:337-449 | Sending and receiving commute |
| StreamState.SendThenDrain | stream.go:256-335 | Sending before or after everything under way has arrived comes to the same |
| StreamState.RunKeeps | stream.go:256-335 | Over every run the ends would mirror each other once the links are drained, and ranks only rise |
| StreamState.Convergence | stream.go:337-449 | Whenever both links are empty the two ends are in mirror-image states |
| StreamState.ClosedIff | stream.go:256-335 | Once both ends have sent END_STREAM and the links are drained, both are closed; without resets and promises exactly then |
| StreamState.Exchange | stream.go:256-335 | A request and a response of one HEADERS frame each leave the stream closed on both ends |
| StreamTable.PromisesRefused | conn.go:870-886 | No identifier that the sender of a PUSH_PROMISE may use is accepted |
| StreamTable.PromiseAcceptedIff | conn.go:870-886 | A promise is accepted exactly if push is enabled, its stream is readable, there is room, no GOAWAY came, and the identifier is of the receiver's own parity and above all it has used |
| StreamTable.OwnIdentifierPromised | conn.go:884-886 | The receiver's next identifier can be promised and is then taken |
| StreamTable.ClaimKeeps | conn.go:238-279 | An accepted identifier is larger than all before it, has its side's parity and names no stream yet |
| StreamTable.IdAcceptedIff | conn.go:238-279 | An identifier is accepted exactly if no GOAWAY came, it has the parity of its side, it is above all that the side has used, and one more stream is within the limit |
| StreamTable.SwapKeeps | stream.go:191-254 | A change of state keeps the table, the counters and the single run of closing effects in order |
| StreamTable.StepKeeps | conn.go:446-477 | Every step of writers, reader and GOAWAY does |
| StreamTable.TableAccounts | conn.go:238-279 | In every run the table holds exactly the reserved and active streams, the counters count exactly the active ones, closing effects run once, identifiers ascend and GOAWAY identifiers do not |
| StreamTable.TableMeaning | stream.go:191-254 | In every run the table holds exactly the streams that are neither idle nor closed, and each counter is the number of its side's streams that are open in some direction |
| StreamTable.HeadersReadIff | conn.go:755-770 | HEADERS of the peer are read exactly if no GOAWAY with a smaller identifier was sent |
| StreamTable.GoAwaySpares | conn.go:446-477 | In every run, sending a GOAWAY leaves own streams and those of the peer up to its last identifier as they are |
| StreamTable.GoAwayRespected | conn.go:755-770 | If no GOAWAY is stored while the reader holds a frame for a stream it excludes, no such stream is left or appears |
| StreamTable.UncalmLeaks | conn.go:755-838 | At any other moment the reader's frame, made into a stream or acceptable, can still become such a stream that no one closes |
| StreamTable.LeakFreeIffCalm | conn.go:755-838 | For such frames, no continuation leaks a stream exactly if the GOAWAY is stored at a calm moment |
| StreamTable.GoAwayRace | conn.go:446-477 | A run from the start in which it does |
| StreamTable.ConnObject.IdleStream | conn.go:238-279 | Refusals in the source's order change nothing; acceptance advances the next identifier |
| StreamTable.ConnObject.CompareAndSwap | stream.go:191-254 | The swap with all its effects, or nothing |
| SettingsList.LookupPut | util.go:165-227 | Reading returns the value set last and other settings are untouched |
| SettingsList.SettingsObject.SetValue | util.go:188-218 | Invalid values are refused; a valid one replaces the entry in place or is appended |
| SettingsList.PutAllIff | util.go:188-218 | Setting the values of a list one by one rebuilds it exactly if no identifier repeats |
| SettingsSync.ApplyMeaning | conn.go:281-339 | A list is refused exactly for ENABLE_PUSH=1 on the wrong side or an initial window that overflows a live one on the way, else stored value by value |
| SettingsSync.StoredValues | conn.go:281-339 | After a valid list each of the six settings has the last value in the list, or else the one it had before, and other identifiers are ignored |
| SettingsSync.OverflowsIff | flow_control.go:225-248 | A new initial window is refused exactly if it would carry the window of a live stream past 2^31-1 |
| SettingsSync.OneValueIff | conn.go:849-869 | A single value is acknowledged exactly within the bounds of section 6.5.2, with push only switched off, and then in force instead of its default |
| SettingsSync.InForce | conn.go:849-869 | In every run the peer has in force, for each setting, the last value in the lists it has acknowledged, in the order queued |
| SettingsSync.StoredAsRead | read.go:384-412 | A list and what is read of it leave the same values in force |
| SettingsSync.AcknowledgedIff | conn.go:849-869 | A list is acknowledged exactly if its values are valid, what is read of it does not switch push on, and live windows can take its initial window; the peer then has its values in force |
| SettingsSync.SenderApplies | conn.go:849-856 | The sender then gets the same values exactly if it is not a server with ENABLE_PUSH=1 in the list and its own windows can take it |
| SettingsSync.InvalidNotAcknowledged | read.go:393-399 | MAX_FRAME_SIZE=0 ends the connection |
| SettingsSync.OverwrittenPush | read.go:393-393 | ENABLE_PUSH=1 and then 0 in one list is acknowledged, and a server then refuses its own list |
| SettingsSync.ClientPushRefused | conn.go:856-864 | A client's legitimate ENABLE_PUSH=1 is refused |
| SettingsSync.AckMeaning | conn.go:616-629 | In every run, the sender has in force the lists acknowledged in the order sent, the peer those in the order queued, at most four are outstanding and none is lost |
| SettingsSync.AgreementIff | conn.go:849-869 | The k-th acknowledgement is for the same list on both ends, for all read, exactly if these lists were queued in the order sent |
| SettingsSync.Agreement | conn.go:616-629 | With writers in order, the k-th acknowledgement applies the k-th list on both sides |
| SettingsSync.CrossedWritersDisagree | conn.go:394-409 | Crossed writers make the ends disagree |
| WriteQueue.WriteQueueObject.AddFrame | conn.go:691-710 | Queues a frame in its class and offers the head to a free channel |
| WriteQueue.WriteQueueObject.SetNext | conn.go:669-688 | Refills the channel, control frames first, and tells whether frames wait |
| WriteQueue.RunKeeps | conn.go:592-657 | Over every interleaving nothing is lost, duplicated or reordered within a class |
| WriteQueue.Delivery | conn.go:592-657 | Frames dealt with are a prefix of those added, per class; a loop waiting at an empty channel has written and flushed everything |
| WriteQueue.OrdinaryEntersIff | conn.go:669-688 | While control frames wait, an ordinary frame enters the channel exactly if it is added between receive and refill; a refill takes the oldest control frame, else the oldest ordinary one, and asks for a flush exactly if none waits |
| WriteQueue.AddEnters | conn.go:691-710 | Adding to an empty channel brings in the oldest frame of the same class |
| WriteQueue.Overtaken | conn.go:592-657 | From every reachable state on, while control frames wait, ordinary frames done are at most the two in hand and in the channel and those added between receive and refill |
| WriteQueue.IntruderFirst | conn.go:592-710 | A run in which such a frame goes before a control frame that was added earlier |
| Frames.BigEndianRoundTrip | write.go:504-527 | Fixed-width numbers are read back |
| Frames.HeaderRoundTrip | read.go:68-78 | The nine header bytes are read back, but for the reserved bit |
| Frames.FlagsRead | write.go:50-96 | Flags are told apart |
| Frames.WriteSettings | write.go:293-299 | The loop writes six bytes per setting |
| Frames.ReadSettingsLoop | read.go:384-412 | The loop sets value by value and stops at the first invalid one |
| Frames.SettingsRoundTrip | write.go:286-305 | A SETTINGS frame is read back exactly if identifiers are distinct and values valid |
| Frames.FrameRoundTrip | read.go:185-218 | Whatever the writer accepts is read back equal exactly if the wire format can carry it, for every frame type |
| Frames.FrameReadAs | read.go:357-415 | Everything the wire can carry is read, repeated settings as their last values |
| FrameLayout.WireLayout | write.go:504-527 | A frame is three bytes of length, type, flags, four bytes of stream and the payload, most significant byte first |
| FrameLayout.HeaderLayout | read.go:68-78 | The reader takes the fields from these bytes, without the reserved bit |
| FrameLayout.WrittenAs | write.go:41-493 | Each frame is written under its type number, with its flag bits and no others, and with its payload laid out as section 6 says |
| FrameLayout.SettingAt | write.go:286-305 | The i-th setting stands at byte 6i |
| FrameLayout.RefusedIff | write.go:252-477 | A frame is not written exactly if its stream, its dependency or its increment is invalid, or it acknowledges settings and has some |
| FrameLayout.AcceptedIff | read.go:306-578 | A frame is accepted exactly if stream, length and content fit its type; an error is one of the stream exactly for PRIORITY of the wrong length and an increment of 0 |
| FrameLayout.LazyData | read.go:185-218 | DATA read lazily is accepted as it would be in whole, and hands out the same data |
| FrameLayout.WrittenAgainIff | write.go:252-271 | Every frame that is read can be written again, except PRIORITY on stream 0, and but for DATA and SETTINGS with the same payload exactly if reserved bits are clear |
| FrameReader.FrameReaderObject.ReadFrame | read.go:57-95 | Skips the rest of the last payload and reads one frame, or reports the specified error |
| FrameReader.FrameReaderObject.ReadData | read.go:185-218 | Splits the payload into data and padding and rejects too much padding |
| FrameReader.FrameReaderObject.Read | read.go:161-174 | Hands out content in order and never beyond its end |
| FrameReader.FrameReaderObject.Close | read.go:176-183 | Skips unread content and padding |
| FrameReader.StaysAligned | read.go:155-183 | After any frame, well-formed or not, that does not end the connection, the reader gets to the next frame |
| FrameReader.SessionReads | read.go:57-95 | Any sequence of frames is read back in order, however much of each content the caller took |
| DataSplit.WriteData | write.go:41-96 | The loop writes the frames of the split, or nothing for a bad stream identifier |
| DataSplit.SplitMeaning | write.go:50-96 | The frames carry the data in order and all the padding, within the limit and filled, and only the last ends the stream |
| DataSplit.SplitDataFirst | write.go:50-96 | Data goes before padding; a frame before more data is full of it, and a padded frame before another is full |
| DataSplit.WriteStream | stream.go:101-151 | The loop makes a chunk per grant and succeeds if the grants suffice |
| DataSplit.ChunksMeaning | stream.go:113-151 | Each chunk spends exactly its grant, data before padding, in order |
| DataSplit.CompletesIff | stream.go:101-151 | The write completes exactly if the grants add up to its size |
| DataSplit.TwoLevelSplit | stream.go:101-151 | Both splits together carry data and padding completely and in order, respect every grant and every limit, and set END_STREAM on the very last frame only |
| DataSplit.ChargedIff | stream.go:101-103 | The frames have as many payload octets as were granted exactly if none is padded, else one more for each padded frame |
| DataSplit.PadLengthUncharged | write.go:82-85 | One octet of padding, granted one octet, takes two |
| DataSplit.DataArrives | read.go:155-218 | A reader of these frames gets the data |
| HeaderFrames.DrainMeaning | write.go:192-248 | The write loop empties the buffer to below a frame, after the last field entirely, and flags the end there |
| HeaderFrames.WriteOut | write.go:192-248 | The loop does this |
| HeaderFrames.FragmentsWellFormedIff | write.go:163-250 | The fragments are the block in order, within the limits and ended exactly once at the end, if and only if there is a regular key and the last one visited has a value or is alone |
| HeaderFrames.FragmentsFilled | write.go:163-250 | Fragments before the last fill their frames |
| HeaderFrames.AbortedPrefix | write.go:163-185 | While values are to come, what is written is a beginning of the block that does not end it |
| HeaderFrames.AbortedFilled | write.go:163-250 | While values are to come only full frames are written and less than a frame is held back |
| HeaderFrames.EndedIff | write.go:192-248 | The end of the block is written exactly with the last of the values announced |
| HeaderBlocks.WriteHeader | write.go:141-250 | The loops with the encoder object write the specified fragments, advance the encoder and report the specified error, malformed pseudo-header and regular keys and an exceeded limit among them |
| HeaderBlocks.GroupsErrorIff | write.go:163-182 | Regular keys are written without error exactly if none is malformed and the list keeps to its limit |
| HeaderBlocks.AbortMeaning | write.go:163-185 | Whatever stops the writer, it has written the fragments of the keys finished before |
| HeaderBlocks.FinishedIsFirstBad | write.go:163-170 | Within the limit the writer stops exactly at the first malformed key |
| HeaderBlocks.AbortedIff | write.go:163-185 | Wherever it stops, the block is ended exactly if keys were finished and no value remained behind them |
| HeaderBlocks.MalformedIff | write.go:163-170 | A malformed key is reported after the block was ended exactly if it is not the first and no value comes with it or after it |
| HeaderBlocks.LargeNeverEnds | write.go:179-181 | A header list over its limit is never ended |
| HeaderBlocks.EndedThenMalformed | write.go:163-170 | The keys "a" with a value and "" without end the block and then fail |
| HeaderBlocks.WriteGroupsEncoder | write.go:163-185 | Whatever stops the writer, its encoder has taken in the fields up to there |
| HeaderBlocks.KeptIff | hpack/hpack.go:69-102 | While nothing needs to be evicted, the table is unchanged exactly if no field is added |
| HeaderBlocks.UnseenIff | write.go:157-181 | A reader that sees nothing of some fields stays in step under a condition on the fields and the encoder before: without a pending update and evictions exactly if none is added, with one and none added exactly if the reader is where the update leads |
| HeaderBlocks.PartsMeaning | write.go:152-185 | Encoding key by key writes the HPACK block of all fields |
| HeaderBlocks.WriteGroupsMeaning | write.go:163-250 | Without error the fragments are those of the encoded keys |
| HeaderMessages.OpenHeadersInverts | read.go:229-271 | Padding, priority and fragment of HEADERS are read back |
| HeaderMessages.OpenPushInverts | read.go:435-465 | Padding, promised stream and fragment of PUSH_PROMISE are read back |
| HeaderMessages.FeedIsDecode | read.go:279-295 | Feeding a fragment in read-buffer sized chunks is decoding it at once |
| HeaderMessages.BlockArrives | read.go:97-152 | The first frame and its CONTINUATION frames are put together to one message with the decoded fields |
| HeaderMessages.WriteMessageMeaning | write.go:123-250 | A header written without error is its HPACK block in frames, well formed exactly if the visit of its keys ends well |
| HeaderMessages.MessageErrorIff | write.go:98-185 | A header is written without error exactly if it is empty, or has single pseudo-header values, well-formed keys and a size within the limit |
| HeaderMessages.PseudoOnlyLost | write.go:152-190 | A header without regular keys leaves no frame and no error but advances the encoder by its fields |
| HeaderMessages.GivenUpIff | write.go:152-185 | A header given up before any fragment leaves the peer in step under that condition on the fields taken in |
| HeaderMessages.MessageReaches | write.go:152-170 | Within the limit, exactly the fields in front of the first malformed key are taken in |
| HeaderMessages.MalformedGivenUpIff | write.go:152-170 | A malformed header given up before any fragment leaves the peer in step under that condition on the fields in front of the malformed key |
| HeaderDesync.MalformedDesyncs | write.go:152-170 | The keys "a" and ":" leave nothing written and fresh encoder and decoder out of step, with the actual tables |
| HeaderMessages.WithinLimit | write.go:179-181 | A header that passes the writer's limit passes the reader's |
| HeaderMessages.MessageArrives | read.go:220-304 | The reader rebuilds the message with all its fields, and encoder and decoder stay in step |
| HeaderOrder.RefusedIff | read.go:97-130 | A frame is refused for its place exactly if it interrupts a block, or continues none or one of another stream |
| HeaderOrder.NoInterleaving | read.go:57-152 | Any frames that are accepted are single frames and whole blocks of one stream each, in the order of what is returned |
| HeaderOrder.BlockReadIff | read.go:220-304 | A block in any frames is accepted exactly if its fragments together decode without error and to the end, and returned as the fields so decoded |
| HeaderOrder.HeadersSliced | read.go:229-271 | Any HEADERS payload is too small for its fields and padding, or its fragment is what stands between them |
| HeaderOrder.PushSliced | read.go:435-465 | So is any PUSH_PROMISE payload |
| HeaderOrder.WrittenIff | write.go:163-170 | Without a limit regular keys are written exactly if none is empty or begins with a colon |
| HeaderMap.HeaderObject.Add | util.go:427-446 | Adds a value or refuses the key, as specified |
| HeaderMap.RefusedKeyIff | util.go:427-446 | A key is refused exactly if it is empty, has a capital or non-ASCII character, or begins with a colon and is unknown or behind more than five values; what is accepted may be written |
| HeaderMap.HeaderRebuilt | util.go:427-446 | For every order of the visit, adding the fields one by one rebuilds the header |
| HeaderMap.HeaderAccepted | util.go:427-446 | A header with valid keys is accepted field by field |
| Conversation.SenderApplyMeaning | conn.go:281-339 | From a list without repetitions the writer takes table size, frame size and header list size |
| Conversation.ReceiverApplyMeaning | conn.go:281-339 | The reader goes through every table size of its list, and takes the last frame size and header list size |
| Conversation.AckAgreesIff | conn.go:281-339 | At an acknowledgement, for which the writer has applied what it read and the reader applies its own list, they agree on table, frame size and header list size exactly if each table size in the list holds what the encoder keeps |
| Conversation.DistinctAckAgrees | conn.go:281-339 | A list without repetitions always leaves them in agreement |
| Conversation.DipDisagrees | conn.go:849-856 | HEADER_TABLE_SIZE=0 and then 4096 in one list does not, if the table is not empty |
| Conversation.ReadManySplit | read.go:57-152 | Reading frames in two goes is reading them in one |
| Conversation.EverythingArrives | conn.go:616-629 | Frames, headers and acknowledgements written by one side are returned in order by the other, and both agree afterwards |
| Connection.ConnectionArrives | read.go:57-152 | This holds from the start of a connection with its default settings and the actual tables |
| Connection.DuplexArrives | conn.go:849-869 | It holds when the acknowledged lists are those read off the wire from the other direction, in order |
| Connection.HeaderCanSend | write.go:98-250 | A header with valid keys, a value for each and a regular key among them can be sent, in any order of its keys, exactly if it keeps to the limit in force, and arrives as the same header |

## Left out

- client.go and server.go: dialing, TLS, upgrades and listeners.
- Timers, timeouts, retries, and the closing of the connection, including its effect on waiting allocators.
- Liveness of waiting allocators over runs: LeftWaitingIff tells when credit is left without a wake-up; otherwise safety and conservation are proved.
- Changes of SETTINGS_INITIAL_WINDOW_SIZE while streams are live: initial windows are fixed per stream.
- Total send credit above 2^31-1: the guard looks at the counter only; the peer's grants are those of a receiver as modelled.
- MAX_CONCURRENT_STREAMS as a bound on all streams: reserved streams become active without a new check.
- Priority: setPriority does nothing in the source.
- Header helpers other than add, request conversion, and canonicalisation of keys: keys are taken as already canonical.
- Undersized PUSH_PROMISE payloads, which the source does not check: the model stops at them.
- A connection that ends inside a frame: one outcome, Short, whatever the source reads or panics on there.
- Aliasing of the settings slice inside applySettings, and of the buffers hpackBuf and w.buf, which are values here.
- Races between two goroutines that write GOAWAY or open local streams at the same time: the check and the store are one step.
- FlowProtocol.Conservation: opening a stream on both ends is one step, and no reader holds a DATA frame of a stream when it closes; LateReturnIff tells what happens otherwise.
- FlowProtocol.ClosedThenReturned: the late return is judged on its own and is not one of the actions of a run.
- HpackLockstep.Lockstep: table sizes are below 2^31, field sizes below 2^32, blocks within the header list limit, and fields accepted by the handler.
- HeaderMessages.MessageArrives: under a limit, header list sizes are below 2^32, and a header whose only regular key has no value is not checked by the writer and must keep to the limit by itself.
- StreamTable.ConnObject.CompareAndSwap: creating, cancelling and returning flow-control windows is part of FlowProtocol.
- SettingsSync.AckMeaning: in these runs no initial window overflows a live one; AcknowledgedIff and SenderApplies tell when one does.
- HeaderBlocks.UnseenIff: with a pending update and fields that are added, or with evictions, only the conditions of AbandonedIff on the resulting table are given.
- SettingsSync.ApplyMeaning: what the entries before a refused one already changed is not modelled; the connection ends there.
- HeaderBlocks.WriteHeader: a pseudo-header key without values, on which the source would not return, is excluded.
- HeaderMap.HeaderAccepted: an empty name from the peer, on which add would not return, counts as refused.
