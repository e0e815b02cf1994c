# Verified models of the KP4PRA message path

The KP4PRA TNC software carries Winlink messages over packet radio. A message text is compressed with LZHUF, framed for a
B2 binary transfer, cut into I frames of an AX.25 connected-mode link, wrapped in KISS and sent over a radio channel that
loses frames; the other side undoes each layer. This project models these layers in Dafny and proves that they undo each
other, for every input and every run, and what the remaining parts of the message software (APRS chat, the WebSocket feed)
promise about their own framing and state.

Run `dafny verify dfyconfig.toml` in this directory.

## How the models are built

- Code that updates objects step by step is modelled by classes and methods that do the same updates: `Huff` keeps its
  three arrays, `Matcher` the ring buffer and the arrays `lson`, `rson` and `dad`, `AX25Stream`, `Gateway`, `KissDecoder`,
  `Conn`, `ChatStore` and `AprsChat` their fields. Each method is proved against a function of the old state, and the
  properties are proved about these functions.
- `HuffmanTree`, `HuffmanUpdate`, `HuffmanReconst` and `HuffmanCode` hold the adaptive tree as a value, its invariant
  (order, sums, adjacent sons, mutually inverse tables), the steps that keep it, and the codes it induces. `Huffman` is
  the class.
- `SearchTree`, `SearchForest` and `SearchDelete` hold the 256 search trees as values and relate them to the link tables;
  `Matcher` is the code. `Window` ties ring positions to positions in the text.
- `Lzss` gives the meaning of a compressed body as tokens; `LzssEncoder` and `LzssDecoder` are the two loops; `Lzhuf` is
  the stream with its CRC, which `Crc16` proves equal to polynomial division.
- `Ax25Link` is one endpoint as a value, `Arq` two endpoints and two channels with the invariant, `ArqSteps` its
  preservation, `ArqRuns` the theorems about runs. A run may queue, deliver, retransmit, hand on and lose frames in
  any order, more than the code does. Every frame under way carries ghost counters that no receiver can see; the
  invariant relates them to the modulo-8 numbers. `Delivery` places what the methods of `AX25Stream` do into such
  runs, `Progress` shows that a stream can always recover, `Liveness` when it does so without further loss, and
  `Stall` when a gateway still can.
- `Kiss`, `Ax25Frame`, `Wire`, `B2f`, `WebSocket` and `Aprs` are the framings, each with its inverse. `Channel` shows
  that two stations on byte streams, with reads of any size and frames lost on the air, are the two-endpoint system.
  `EndToEnd` composes compression, framing and link.
- `KnownAnswers`, `StartCode` and `PositionTables` state the compressed format in bits and bytes, apart from the functions
  that the other modules share between both directions; the framings have such lemmas of their own.
- `AprsChat` is the chat, and `ChatPage` the page that shows it, with the answers under way between them.

## Where the code differs from its documentation

- The comment above the position tables calls them canonical (src/web/lzhuf.py:41-44). Entries 10 and 11 of `p_len`, and
  `d_len` from 0x80 to 0x8F, are 6 where the prefixes in `p_code` and the entries of `d_code` leave room for 5 bits. The
  code still inverts (`PositionCode.PositionRoundTrip`), but eight lookahead bytes start no prefix
  (`PositionCode.UnusedLookahead`).
- `encode_char` justifies a code in 16 bits (src/web/lzhuf.py:319). MAX_FREQ alone bounds a code only by 21
  bits, and for one of more than 16 the shift count is negative and the call raises. `Huffman.Huff.EncodeChar` models this
  as a failure, and `HuffmanCode.CodeLength` says when it cannot occur.
- The initial insertions run from the newest space string to the oldest, and an equal string replaces the one before. For a
  text that begins with spaces, the oldest of the strings that begin before the text, end in it and consist of spaces
  therefore stands for all of them (`Window.FirstCovered` is exact), and is taken out before them. The claim that matches
  are longest leaves these strings out (`Window.FoundLongest`); for any other text it holds for the whole window
  (`Window.AllInReach`).
- `send` sends again only after a timeout, and `_pump_once` answers every report that polls with one that polls
  (src/web/rfsend.py:196-198). After a chunk out of sequence two streams therefore answer each other for ever, no timeout
  comes, and a lost chunk is not sent again until one of these reports is lost: `Liveness.DrainIff` is the exact
  condition, `Liveness.StallHappens` an instance. With a gateway as peer this cannot happen (`Liveness.GatewayDrains`).
- `_read_frame` says that it returns frames addressed to this station (src/web/rfsend.py:94-96); it compares only the source
  (`Wire.HeardAsSent` holds for every destination).
- `_ack_upto` accepts any N(R). With one from outside the window it forgets everything outstanding (`Arq.StaleForgets`); the
  exact condition is `Arq.AckSafe`. The theorems about runs assume channels that keep their order and do not duplicate, where
  no such N(R) can arise.
- `unframe_binary` checks neither the checksum nor that the last block is complete. A transfer that is cut off is noticed
  only right behind the control byte of a block (`B2f.CutErrorIff`); otherwise a prefix is returned without an error, such
  as all but the last byte (`B2f.CutUndetected`).
- A rejection marks a message as failed even after it has been acknowledged (src/web/aprschat.py:166-172):
  `AprsChat.AckedStays` is the exact condition, `AprsChat.RejectUndoesAck` the general case and `AprsChat.AckedThenFailed`
  an instance.
- A client that only polls gets every message exactly once (`AprsChat.PollRounds`). The page also moves `HEAD` to the number
  of a message it sends (src/web/templates/aprs.html:107 and 200), and never gets a message that came in between its last
  poll and that send: `ChatPage.MissedIff` is the exact condition, `ChatPage.MissedHappens` an instance.
- Status changes do not reach the page, although src/web/aprschat.py:26-31 and the comment in
  src/web/templates/aprs.html:104 speak of them: what it shows of a message is what the last answer with it said
  (`ChatPage.ShownForGood`, `ChatPage.StaleHappens`).
- A station that is linked may ask for a new link, "which is allowed to reset its own session"
  (src/rms/gateway.py:45-48). It is told that it has one, but while the task of the old session is at work, cancelling
  that task closes the new link at once (`GatewayLink.Gateway.Handle`: `remote` is none then although the CMS session is
  open).
- The gateway keeps no copy of what it sends, so it cannot recover as a stream can (`Progress.AlwaysRecovers`): exactly
  when it still can is said by `Stall.GoesOnIff` and `Stall.AllArriveIff`.
- A chat text like "ack7" sent without a number is read as a receipt by the other side (`Aprs.TakenForReceipt`).

## Model

| member | source | states |
|---|---|---|
| `EndToEnd.Transmit` | src/web/b2fsend.py:168-192 | Compresses a text, frames it and sends it; up to 3867 bytes it always gets as far as sending. Once `send` has returned, then in every run in which the sender does what was done, whatever is lost, the bytes the peer has taken in since open to the text. |
| `EndToEnd.Open` | src/web/b2f.py:166-188 | The receiver: unframing, then decompression, each with its errors. |
| `Lzhuf.Compress` | src/web/lzhuf.py:554-564 | Whenever it returns, decompression of the result gives the data; up to 3867 bytes it always returns; it raises only for a token whose code exceeds 16 bits or a length that exceeds 32; and every token it writes is a longest one. |
| `Lzhuf.Decompress` | src/web/lzhuf.py:567-579 | Rejects a stream shorter than 6 bytes or with a wrong CRC, and otherwise decodes to exactly the announced number of bytes, for any input. |
| `Lzhuf.RoundTrip` | src/web/lzhuf.py:554-579 | Compressing and decompressing gives the data back or reports one of the two errors of `compress`; below 3868 bytes it always gives the data back. |
| `Lzhuf.ShortTexts` | src/web/lzhuf.py:306-320 | The tokens of a text of at most 3867 bytes all have codes the encoder can write. |
| `Lzhuf.BurstRejected` | src/web/lzhuf.py:567-575 | A change confined to 16 consecutive bits of the length and body of an accepted stream is rejected. |
| `Lzhuf.FramedDecompresses` | src/web/lzhuf.py:554-579 | CRC, length and body are found again where `compress` put them, and the body decodes. |
| `KnownAnswers.FramedBytes` | src/web/lzhuf.py:554-564 | The stream byte by byte: the CRC of all that follows, the length, each low byte first, then the body. |
| `KnownAnswers.CompressLetter` | src/web/lzhuf.py:554-579 | The whole stream for "a", 4F 6D 01 00 00 00 F6 80; and it decompresses to "a". |
| `KnownAnswers.CompressSpaces` | src/web/lzhuf.py:421-476 | Three spaces become one copy of three bytes from the window before the text: the body begins with 8C. |
| `KnownAnswers.SymbolNumbers` | src/web/lzhuf.py:448-453 | Bytes are their own symbols, and symbol 253 + n is a copy of n bytes, for n from 3 to 60. |
| `KnownAnswers.CopyBytes` | src/web/lzhuf.py:496-506 | A copy takes every byte from as far back as the position modulo 2048, plus one, says. |
| `KnownAnswers.BeforeText` | src/web/lzhuf.py:482-484 | What lies before the text: 1988 spaces, and zeros before them. |
| `KnownAnswers.HalvedAt` | src/web/lzhuf.py:275-278 | Weights are halved, rounding up, when 32768 symbols have been counted, and at no other time. |
| `HuffmanReconst.StartValid` | src/web/lzhuf.py:224-238 | `_start` establishes the whole tree invariant and counts each of the 314 symbols once. |
| `StartCode.StartSons` | src/web/lzhuf.py:224-238 | The table of sons in numbers: symbol c at node c, then the pairs. |
| `StartCode.StartParents` | src/web/lzhuf.py:224-238 | And the table of parents. |
| `StartCode.FirstCode` | src/web/lzhuf.py:224-238 | The code of every symbol in the starting tree: the binary digits of 627 - c behind the leading one, each flipped. |
| `HuffmanReconst.JoinKeeps` | src/web/lzhuf.py:249-266 | Joining the two lightest roots and inserting the sum keeps order, sums, completeness and the total weight. |
| `HuffmanReconst.GrowCarries` | src/web/lzhuf.py:249-266 | Through the whole rebuilding every symbol keeps its own halved weight. |
| `HuffmanReconst.RelinkUndoesSon` | src/web/lzhuf.py:267-273 | After the last loop of `_reconst` every son points back at its parent. |
| `HuffmanReconst.SonUndoesRelink` | src/web/lzhuf.py:267-273 | And every node but the root, and every symbol, hangs below exactly the node it points at. |
| `HuffmanReconst.ReconstValid` | src/web/lzhuf.py:240-273 | `_reconst` keeps the invariant, brings the root below MAX_FREQ, and halves every symbol's weight, rounding up. |
| `HuffmanUpdate.SwapLinked` | src/web/lzhuf.py:291-300 | Exchanging two nodes of which neither lies below the other keeps the tables inverse to each other. |
| `HuffmanUpdate.PlaceFreq` | src/web/lzhuf.py:280-301 | One pass of the loop keeps the frequencies in order: the incremented node goes behind all nodes of its old weight. |
| `HuffmanUpdate.PlaceSums` | src/web/lzhuf.py:280-301 | After a pass only the new parent can be short of the sum of its sons, and by one. |
| `HuffmanUpdate.PlaceKeeps` | src/web/lzhuf.py:280-304 | A pass leads from one state of the climb to the next, or ends with the full invariant at the root. |
| `HuffmanUpdate.BumpWeight` | src/web/lzhuf.py:278-304 | The whole climb adds one to the weight of the symbol it started at, and to no other. |
| `HuffmanCode.UpdateCounts` | src/web/lzhuf.py:275-304 | `update` keeps the invariant and adds exactly one to the weight of its symbol, after halving all weights when the root was full. |
| `HuffmanCode.DecodeUndoesCode` | src/web/lzhuf.py:306-327 | Wherever the code of a symbol stands in a stream, the descent reads that symbol and stops right behind the code. |
| `HuffmanCode.Lockstep` | src/web/lzhuf.py:306-328 | From equal trees, with anything following, the decoder reads the symbol the encoder wrote and takes exactly its bits; both then update alike. |
| `HuffmanCode.CodeNeedsWeight` | src/web/lzhuf.py:306-320 | A code of d bits needs a root weight of at least the Fibonacci number d + 2. |
| `HuffmanCode.CodeLength` | src/web/lzhuf.py:306-320 | No code is longer than 21 bits, and none longer than 16 while the root weighs less than 4181. |
| `Huffman.Huff.constructor` | src/web/lzhuf.py:218-222 | A new object holds the valid starting tree. |
| `Huffman.Huff.Start` | src/web/lzhuf.py:224-238 | The two loops leave exactly the starting tree in the three arrays. |
| `Huffman.Huff.FindLast` | src/web/lzhuf.py:283-288 | Finds the last node lighter than the incremented weight. |
| `Huffman.Huff.Exchange` | src/web/lzhuf.py:291-300 | Both arrays after the swap, element by element. |
| `Huffman.Huff.Pass` | src/web/lzhuf.py:280-301 | The arrays after one pass are the tree after one step of the climb. |
| `Huffman.Huff.CollectLeaves` | src/web/lzhuf.py:241-247 | The leaves, halved, come to the front in order. |
| `Huffman.Huff.FindSlot` | src/web/lzhuf.py:254-257 | Finds the place behind every node that is not heavier. |
| `Huffman.Huff.ShiftIn` | src/web/lzhuf.py:258-264 | In place, the array becomes the old one with the value inserted, and nothing behind changes. |
| `Huffman.Huff.JoinNext` | src/web/lzhuf.py:252-266 | One pass joins two nodes in place. |
| `Huffman.Huff.Reconst` | src/web/lzhuf.py:240-273 | The arrays become the rebuilt tree. |
| `Huffman.Huff.Update` | src/web/lzhuf.py:275-304 | Terminates, keeps the invariant, and leaves the tree with one more count of the symbol. |
| `Huffman.Huff.Climb` | src/web/lzhuf.py:309-317 | The bits gathered from the leaf up are the code, reversed. |
| `Huffman.Huff.EncodeChar` | src/web/lzhuf.py:306-320 | Succeeds if and only if the code has at most 16 bits; then it appends exactly the code and counts the symbol, and otherwise changes nothing. |
| `Huffman.Huff.Walk` | src/web/lzhuf.py:322-326 | Returns the symbol at the end of the descent and takes one bit a level. |
| `Huffman.Huff.DecodeChar` | src/web/lzhuf.py:322-328 | The same, and counts the symbol. |
| `BitIO.BitWriter.PutBit` | src/web/lzhuf.py:165-172 | Appends one bit to the bits written, across the byte boundary. |
| `BitIO.BitWriter.PutCode` | src/web/lzhuf.py:174-179 | Appends the leading bits of a left-justified code. |
| `BitIO.BitWriter.Flush` | src/web/lzhuf.py:181-186 | The bytes are the bits written, padded with fewer than 8 zero bits. |
| `BitIO.TopBitsOfVal` | src/web/lzhuf.py:174-179 | Left-justified in 16 bits, any code of at most 16 bits comes out as itself. |
| `BitIO.BitReader.GetBit` | src/web/lzhuf.py:196-206 | The next bit of the data, and zero for ever behind its end. |
| `BitIO.BitReader.GetByte` | src/web/lzhuf.py:208-212 | Eight bits as a number. |
| `PositionCode.TablesInvert` | src/web/lzhuf.py:46-132 | The decoder's tables undo the encoder's on every lookahead byte that starts with a prefix. |
| `PositionTables.PLenEntries` | src/web/lzhuf.py:46-51 | `p_len`, entry by entry. |
| `PositionTables.PCodeEntries` | src/web/lzhuf.py:53-62 | `p_code`, entry by entry. |
| `PositionTables.DCode0Entries` | src/web/lzhuf.py:64-97 | `d_code`, entry by entry, with three more lemmas for the other quarters. |
| `PositionTables.DLen0Entries` | src/web/lzhuf.py:99-132 | `d_len`, in the same way. |
| `KnownAnswers.PositionNumber` | src/web/lzhuf.py:135-140 | The code of a position as a number: the prefix of the table, and the six low bits behind it. |
| `PositionCode.UnusedLookahead` | src/web/lzhuf.py:46-62 | The prefixes leave exactly eight lookahead bytes unused. |
| `PositionCode.EncodePosition` | src/web/lzhuf.py:135-140 | Writes exactly the prefix and the six raw bits. |
| `PositionCode.DecodePosition` | src/web/lzhuf.py:143-154 | Returns the position read and takes the bits of its code, for any bits. |
| `PositionCode.PositionRoundTrip` | src/web/lzhuf.py:135-154 | Reading inverts writing for all 4096 positions, whatever follows. |
| `SearchForest.ForestPlug` | src/web/lzhuf.py:352-423 | Exchanging a subtree for a search tree that fits keeps all 256 trees well formed: order, links, parents and the empty marks. |
| `SearchForest.AttachOk` | src/web/lzhuf.py:359-372 | Hanging a new leaf at the end of its search path keeps the forest. |
| `SearchForest.TakeoverOk` | src/web/lzhuf.py:389-398 | Replacing a node by one with the same string keeps the forest. |
| `SearchForest.PromoteOk` | src/web/lzhuf.py:418-423 | Putting a prepared node in the place of another keeps the forest. |
| `SearchDelete.RemovedBst` | src/web/lzhuf.py:403-417 | The rearranged subtree is a search tree of exactly the other nodes. |
| `SearchDelete.RemovedTop` | src/web/lzhuf.py:403-417 | With two sons the greatest string of the left one comes to the top; with one son that one moves up. |
| `SearchDelete.PrepareSeated` | src/web/lzhuf.py:403-417 | The link changes of `delete_node` before the last four lines link that subtree. |
| `SearchDelete.DeleteOk` | src/web/lzhuf.py:400-423 | Deletion keeps the forest and takes out exactly the named node. |
| `Matcher.Matcher.constructor` | src/web/lzhuf.py:338-350 | Every tree is empty and every position is outside the trees. |
| `Matcher.Matcher.Compare` | src/web/lzhuf.py:373-378 | The length of the common prefix, and the sign by which the search goes on. |
| `SearchTree.LessIs` | src/web/lzhuf.py:373-378 | One string sorts before another exactly when it is smaller in the first of 60 bytes in which they differ. |
| `Matcher.Matcher.Note` | src/web/lzhuf.py:379-388 | Keeps a longest match seen so far and, of equally long ones, the nearer: length and position in every case. |
| `Matcher.Matcher.Search` | src/web/lzhuf.py:354-388 | Terminates at an empty place or at an equal string, with every string passed ordered against the new one and none sharing more than the match; of the nodes visited that attain it, none is nearer than the position kept. |
| `Matcher.Matcher.TakeoverNode` | src/web/lzhuf.py:389-398 | The three arrays after the replacement. |
| `Matcher.Matcher.InsertNode` | src/web/lzhuf.py:352-398 | The forest stays well formed; the match is a longest over all strings of all trees, with a position that attains it; the string is entered, and only an equal string gives way. |
| `Matcher.Matcher.PrepareNode` | src/web/lzhuf.py:403-417 | Finds the successor and relinks its surroundings, in place. |
| `Matcher.Matcher.PromoteNode` | src/web/lzhuf.py:418-423 | The arrays after the successor has moved up. |
| `Matcher.Matcher.DeleteNode` | src/web/lzhuf.py:400-423 | The forest stays well formed, and loses exactly the named position, or nothing if it was in no tree. |
| `Window.FoundMatch` | src/web/lzhuf.py:352-398 | A match in the trees is a repetition in the text at that distance, also across the wrap-around and into the bytes still to come. |
| `Window.FirstCovered` | src/web/lzhuf.py:441-443 | Exactly which strings before the text the trees know before the first string of the text: all, but of those made of spaces that begin before the text and end in it only the oldest. |
| `Window.FoundLongest` | src/web/lzhuf.py:352-398 | No repetition at a distance inside the window is longer than the match, but for those strings of spaces; for a text that begins with another byte there are none. |
| `Window.FeedWaits` | src/web/lzhuf.py:457-462 | Overwriting the oldest byte and its mirror changes no string that is still in a tree. |
| `Window.DrainWaits` | src/web/lzhuf.py:467-474 | Past the end of the input the window shrinks and the trees stay right. |
| `Window.InsertSlides` | src/web/lzhuf.py:352-398 | After entering the next string, the trees hold the whole window again. |
| `Lzss.RepeatReproduces` | src/web/lzhuf.py:496-506 | Where a text repeats itself at a distance, copying byte by byte from there reproduces it, overlapping or not. |
| `Lzss.ShortFits` | src/web/lzhuf.py:306-320 | As long as the root weight stays below 4181, every code can be written. |
| `Lzss.DecodeTokens` | src/web/lzhuf.py:479-507 | Any token sequence written by the encoder is read back whole and expands to the same bytes. |
| `Lzss.BodyDecodes` | src/web/lzhuf.py:479-507 | The same from the bytes of a flushed body, with its padding. |
| `LzssEncoder.ChoiceOk` | src/web/lzhuf.py:446-454 | The token chosen reproduces the text, stays inside the input, and no string of the window in reach would give a longer one. |
| `LzssEncoder.Fill` | src/web/lzhuf.py:426-437 | The window before the first token: spaces, then the input. |
| `LzssEncoder.FirstTrees` | src/web/lzhuf.py:441-443 | The initial insertions leave the forest well formed, holding only strings of the window and every string of it in reach, with a match found for the first one. |
| `LzssEncoder.Emit` | src/web/lzhuf.py:446-454 | Cuts the match to the rest of the input and writes that token, or reports a code that does not fit. |
| `LzssEncoder.Feed` | src/web/lzhuf.py:457-465 | One pass with input left keeps the window and its trees. |
| `LzssEncoder.Drain` | src/web/lzhuf.py:469-474 | One pass without input does too, down to the last byte. |
| `LzssEncoder.Slide` | src/web/lzhuf.py:454-474 | After a token of n bytes the window has moved on by n. |
| `LzssEncoder.LzssEncode` | src/web/lzhuf.py:333-476 | The tokens written expand to the whole input, every one as long as the window allows, and the output is their code. |
| `LzssDecoder.CopyBack` | src/web/lzhuf.py:498-506 | The ring copy yields the same bytes as copying from the history, cut off at the announced length. |
| `LzssDecoder.LzssDecode` | src/web/lzhuf.py:479-507 | For any data and any length it terminates without an index error and returns exactly that many bytes, those of the specification. |
| `Crc16.DivideLinear` | src/web/lzhuf.py:520-544 | Division by the polynomial is linear over the sum of two messages. |
| `Crc16.UpdateDivides` | src/web/lzhuf.py:530-531 | One table step equals eight steps of long division. |
| `Crc16.BuildTable` | src/web/lzhuf.py:520-527 | Every entry is the remainder of its index shifted by 8. |
| `KnownAnswers.TableRows` | src/web/lzhuf.py:520-527 | Rows 1, 16 and 255 of the table are 1021, 1231 and 1EF0. |
| `KnownAnswers.LetterCrc` | src/web/lzhuf.py:534-544 | The CRC of one small message, worked out. |
| `Crc16.Crc16` | src/web/lzhuf.py:534-544 | The table-driven CRC is the remainder of the data times x^16 by 0x11021. |
| `Crc16.BurstPattern` | src/web/lzhuf.py:534-544 | A non-zero pattern within 16 consecutive bits has a non-zero remainder. |
| `Crc16.BurstDetected` | src/web/lzhuf.py:534-544 | Two messages of equal length that differ only there have different CRCs. |
| `Ax25Link.ControlFields` | src/rms/ax25.py:90-99 | N(S), N(R) and P/F come back out of I and RR control bytes, and the two kinds are told apart. |
| `Ax25Link.ControlBytes` | src/rms/ax25.py:97-99 | The same on the bits of the byte: an RR leaves 1 modulo 16. |
| `Ax25Link.ReceivedBits` | src/web/rfsend.py:186-216 | What any frame does to an endpoint, stated on the bits of its control byte: sequence, acknowledgement, and the receive-ready frame that answers it. |
| `Ax25Link.QueuedBits` | src/web/rfsend.py:165-174 | A chunk goes out as an I frame with the two sequence numbers and without a poll. |
| `ArqRuns.OnlyLinkBytes` | src/web/rfsend.py:154-226 | In every run only I frames that do not poll and receive-ready frames are on the channels. |
| `Ax25Stream.PlayBytes` | src/web/rfsend.py:154-226 | Nor do the acts of an endpoint write anything else. |
| `ArqSteps.NeverConfused` | src/web/rfsend.py:208-216 | A receiver finds a frame in sequence if and only if its unbounded number is the one it waits for. |
| `ArqSteps.NextKeeps` | src/web/rfsend.py:154-226 | Every step of either side, and every loss, keeps the invariant of the link. |
| `ArqSteps.ResentIs` | src/web/rfsend.py:218-226 | Retransmission sends exactly the outstanding chunks, oldest first, each under its old number. |
| `ArqRuns.PrefixSafety` | src/web/rfsend.py:154-226 | In every state of every run the bytes each side has accepted are a prefix of those the other has queued: nothing lost, repeated or swapped. |
| `ArqRuns.WindowSafety` | src/web/rfsend.py:165-184 | On both sides: never more than 7 chunks are outstanding, and a stream keeps exactly those, each under its number. |
| `ArqRuns.DrainedIsDelivered` | src/web/rfsend.py:176-184 | When nothing is outstanding, the peer has accepted everything queued. |
| `ArqRuns.SendDelivers` | src/web/rfsend.py:154-163 | Between two moments at which nothing is outstanding, the peer takes in exactly the bytes queued between them. |
| `Arq.AckSafe` | src/web/rfsend.py:202-206 | The exact condition on N(R) under which `_ack_upto` leaves the outstanding part of the history: it lies inside the window. |
| `Arq.AckDrops` | src/web/rfsend.py:202-206 | What `_ack_upto` keeps, for any N(R). |
| `Arq.StaleForgets` | src/web/rfsend.py:202-206 | Given an N(R) from outside the window, the stream forgets every outstanding chunk. |
| `Progress.CanDrain` | src/web/rfsend.py:165-226 | From every state with the invariant there is a way on, in which the stream sends again only after a timeout in silence, and after which all it has queued has arrived and is acknowledged. |
| `Progress.AlwaysRecovers` | src/web/rfsend.py:165-226 | So after any run, whatever was lost, the wait at the end of `send` can still end, if what keeps the channels busy may be lost. |
| `Liveness.GatewayDrains` | src/web/rfsend.py:165-226 | Without further loss and with a gateway as peer it does end: in whatever order the two receive, after a number of steps known in advance everything is across and acknowledged, and stays so. |
| `Liveness.NeverStuck` | src/web/rfsend.py:165-226 | Such a run can always go on: by a reception, or in silence by a timeout. |
| `Liveness.QuietIff` | src/web/rfsend.py:186-200 | Without further loss two streams can fall silent, so that a timeout comes, if and only if no poll is under way and every chunk under way comes in sequence. |
| `Liveness.BusyForEver` | src/web/rfsend.py:186-216 | Otherwise they answer each other for ever and nothing is sent again. |
| `Liveness.DrainIff` | src/web/rfsend.py:165-226 | Without further loss a stream whose peer is a stream can get everything across if and only if they can fall silent or no chunk is missing that is not under way. |
| `Liveness.StallHappens` | src/web/rfsend.py:186-216 | A run into a state in which it cannot. |
| `Stall.GoesOnIff` | src/rms/gateway.py:50-70 | The next chunk of a gateway can still arrive if and only if it is still on the channel. |
| `Stall.AllArriveIff` | src/rms/gateway.py:50-70 | In any state of any run, all that a gateway has sent can still arrive if and only if every chunk from the next one on is still on the channel. |
| `Stall.LossIsFinal` | src/rms/gateway.py:50-70 | Once an I frame of the gateway is lost, the peer accepts neither that chunk nor a later one in any continuation: the gateway keeps no copy. |
| `Stall.LossHappens` | src/rms/gateway.py:50-70 | Such a run exists. |
| `Delivery.RunIsPlay` | src/web/rfsend.py:154-226 | In any run the endpoint is what its own acts make of it, and its acts are legal. |
| `Delivery.SendReturned` | src/web/rfsend.py:154-163 | When `send(data)` has returned, the peer has taken in everything queued before it and then exactly `data`. |
| `Ax25Stream.AX25Stream.AckUpto` | src/web/rfsend.py:202-206 | Moves `va` up and drops what it passes. |
| `Ax25Stream.AX25Stream.AcceptIframe` | src/web/rfsend.py:208-216 | Takes an I frame in sequence and answers every one. |
| `Ax25Stream.AX25Stream.PumpOnce` | src/web/rfsend.py:186-200 | The state and the answer for any frame. |
| `Ax25Stream.AX25Stream.Retransmit` | src/web/rfsend.py:218-226 | Writes exactly the outstanding chunks again. |
| `Ax25Stream.AX25Stream.SendChunk` | src/web/rfsend.py:165-174 | Queues the chunk only with fewer than 7 outstanding; meets each frame or timeout with one act; ends early only as the readings force it. |
| `Ax25Stream.AX25Stream.DrainWindow` | src/web/rfsend.py:176-184 | Returns normally if and only if nothing is outstanding, and gives up only after the allowed number of timeouts. |
| `Ax25Stream.AX25Stream.Send` | src/web/rfsend.py:154-163 | Queues the blocks of the data in order, a prefix of them if it ends early; a normal return means all are queued and acknowledged. |
| `Ax25Stream.AX25Stream.Recv` | src/web/rfsend.py:243-253 | Hands on the bytes taken in, in order, pumping once when there are none. |
| `GatewayLink.Gateway.Handle` | src/rms/gateway.py:82-133 | What any frame does: who is granted a link and who is refused, with which bytes, when a link granted does not last, what an I, S or DISC frame of the linked station does, and that no other frame does anything. |
| `GatewayLink.OpensAndEnds` | src/rms/ax25.py:91-92 | Which control bytes ask for a link and which end one, with and without the poll bit. |
| `GatewayLink.Gateway.TakeIn` | src/rms/gateway.py:119-133 | An I or S frame of the linked station. |
| `GatewayLink.Gateway.RelayEnds` | src/rms/gateway.py:74-80 | The end of the relaying closes the session. |
| `GatewayLink.Gateway.CmsToRf` | src/rms/gateway.py:50-70 | Queues the data in 200-byte chunks, in order, each only with fewer than 7 outstanding, and takes in exactly the linked station's frames that arrive in between, up to the end of the link. Without room in the window it waits as long as there is anything to wait for; it stops early only for the end of the link. |
| `Kiss.TwoPasses` | src/rms/ax25.py:13-16 | The two replacement passes escape each byte exactly once. |
| `Kiss.NoFendInside` | src/rms/ax25.py:13-16 | No FEND remains between the two delimiters. |
| `Kiss.EncodedBytes` | src/rms/ax25.py:13-16 | What goes out, byte by byte: C0, the port, the frame with DB DC for C0 and DB DD for DB, and C0. |
| `Kiss.FedBytes` | src/rms/ax25.py:20-32 | What one byte does to the decoder. |
| `Kiss.KissDecoder.Feed` | src/rms/ax25.py:20-32 | The decoder's state and output after any bytes from any state. |
| `Kiss.ChunkingDoesNotMatter` | src/rms/ax25.py:20-32 | Feeding in pieces is feeding the whole. |
| `Kiss.Resync` | src/rms/ax25.py:13-32 | From any state an encoded frame comes out last, after at most one leftover, and the decoder is idle again. |
| `Kiss.RoundTrip` | src/rms/ax25.py:13-32 | However encoded frames are split into reads, exactly those frames come out, in order. |
| `Ax25Frame.CallRoundTrip` | src/rms/ax25.py:34-43 | A canonical callsign survives the address field, whatever its flags. |
| `Ax25Frame.AddressBytes` | src/rms/ax25.py:34-39 | The seven bytes of an address field. |
| `Ax25Frame.EncodesAnyCase` | src/rms/ax25.py:34-35 | Small letters and spaces around a callsign make no difference. |
| `Ax25Frame.MakeFrame` | src/rms/ax25.py:60-84 | Builds the address field, control, PID and payload, or fails where `int` does not take an SSID for a number. |
| `Ax25Frame.SplitFrame` | src/rms/ax25.py:45-58 | The fields, or the error, for any bytes. |
| `Ax25Frame.FrameRoundTrip` | src/rms/ax25.py:45-84 | Splitting gives back what was put in if and only if there are at most nine digipeaters and a PID is given exactly for the frames that carry one. |
| `Ax25Frame.FrameBytes` | src/rms/ax25.py:60-84 | A whole frame byte by byte, with its command and extension bits. |
| `Wire.ReadFrame` | src/web/rfsend.py:93-116 | Returns the first frame of the remote station in the first read that completes one, and loses the rest of that read. |
| `Wire.HeardAsSent` | src/web/rfsend.py:87-116 | A frame of the link is recognised by its source, whatever its destination. |
| `Wire.OnAirBytes` | src/web/rfsend.py:87-91 | What `_tx` puts on the air: I frames as commands with the PID F0, the others as responses without. |
| `Wire.ReturnedInOrder` | src/web/rfsend.py:93-116 | Whatever the reads, the frames returned are frames heard, in order, with some left out. |
| `Wire.WireIsChannel` | src/web/rfsend.py:87-116 | Frames written, KISS encoded, cut into any reads, decoded and filtered: those returned are those transmitted, in order, some left out. |
| `Channel.NextStands` | src/web/rfsend.py:87-116 | Two stations on byte streams, step by step: a write of which the air loses some frames, or a read of any size, decoder state and partial frames kept, is a number of steps of the two-endpoint system; one read is losses and at most one delivery. |
| `Channel.AirIsArq` | src/web/rfsend.py:87-253 | So every run of two stations, byte by byte, is a run of the two-endpoint system. |
| `Channel.AirPrefixSafety` | src/web/rfsend.py:87-253 | Whatever is lost and however the bytes are read, what each station has taken in is a prefix of what the other has queued. |
| `Channel.AirDelivers` | src/web/rfsend.py:87-253 | When a station has nothing outstanding, the other has taken in exactly what it has queued. |
| `B2f.FrameBinary` | src/web/b2f.py:128-163 | The transfer byte by byte for every title and body: header with the title, chunks of 250 bytes, end and checksum; and the counts. |
| `B2f.UnframeBinary` | src/web/b2f.py:166-188 | The payload, or the error, for any bytes. |
| `B2f.FirstControl` | src/web/b2f.py:166-188 | A transfer is refused at its first byte exactly when that is no control byte. |
| `B2f.Recovers` | src/web/b2f.py:166-188 | Blocks of any size from any peer, ended by EOT, give their payload. |
| `B2f.FramingRoundTrip` | src/web/b2f.py:128-188 | Unframing undoes framing for every title and body. |
| `B2f.CutGivesPrefix` | src/web/b2f.py:166-188 | What comes out of a transfer cut off at any byte. |
| `B2f.CutErrorIff` | src/web/b2f.py:166-188 | A cut is noticed if and only if it falls right behind the control byte of a block; at every other one a prefix of the payload is returned. |
| `B2f.CutMessage` | src/web/b2f.py:128-188 | The same for every cut of a framed message, checksum included. |
| `B2f.CutUndetected` | src/web/b2f.py:128-188 | For every body: one byte of it short, the transfer is unframed without an error. |
| `B2f.ChecksumBalances` | src/web/b2f.py:80-83 | Bytes and checksum add up to zero, and no other last byte does that. |
| `B2f.ChecksumNotices` | src/web/b2f.py:80-83 | A change of one byte changes the checksum. |
| `WebSocket.Conn.ReadExact` | src/tft/xara_feed.py:199-206 | Exactly the next bytes of the stream, if and only if there are enough, however it is split. |
| `WebSocket.Conn.ReadFrame` | src/tft/xara_feed.py:233-247 | What the stream says, however it is split into reads, with all error cases. |
| `WebSocket.FrameRoundTrip` | src/tft/xara_feed.py:172-247 | A frame, masked or not, is read back if and only if its payload has at most 2^20 bytes, across the three length encodings. |
| `WebSocket.WireBytes` | src/tft/xara_feed.py:172-196 | The header of a frame, with its three forms of the length, byte by byte, and the masked payload. |
| `WebSocket.XorOfBytes` | src/tft/xara_feed.py:172-196 | Masking works on every bit. |
| `WebSocket.AllRoundTrip` | src/tft/xara_feed.py:172-247 | So are any number of frames, one after the other. |
| `WebSocket.ReadFrames` | src/tft/xara_feed.py:233-247 | That many calls of `read_frame`, on a stream in any reads, return exactly these frames and leave the rest. |
| `Aprs.SanitizedClean` | src/web/aprs.py:64-70 | No forbidden character is left, and at most 67 characters. |
| `Aprs.CleanStays` | src/web/aprs.py:64-70 | A text of up to 67 allowed characters is sent as it is. |
| `Aprs.LineEnds` | src/web/aprs.py:64-70 | A line end of any kind becomes one space. |
| `Aprs.FieldIs` | src/web/aprs.py:73-103 | The information field character by character, for messages and receipts. |
| `Aprs.NormalAround` | src/web/aprs.py:48-50 | Case and spaces around a callsign do not matter. |
| `Aprs.ClosingBrace` | src/web/aprs.py:131-140 | A closing brace and space behind the number of a receipt do not matter. |
| `Aprs.BraceInText` | src/web/aprs.py:141-154 | What stands behind a brace and is no number stays in the text. |
| `Aprs.MessageRoundTrip` | src/web/aprs.py:73-154 | A numbered message comes back whatever its text: callsign, sanitized text and number. |
| `Aprs.UnnumberedRoundTrip` | src/web/aprs.py:73-154 | A text without a number comes back if and only if it does not look like a receipt. |
| `Aprs.TakenForReceipt` | src/web/aprs.py:131-136 | The text "ack7" without a number is parsed as an acknowledgement of message 7. |
| `Aprs.ReceiptRoundTrip` | src/web/aprs.py:89-154 | Acknowledgements and rejections come back and are told apart. |
| `Aprs.NumbersDiffer` | src/web/aprs.py:157-168 | Every number issued is a message number, and none comes again within 99999. |
| `AprsChat.ChatStore.Add` | src/web/aprschat.py:78-84 | Appends one message with the next sequence number to the list and to its thread. |
| `AprsChat.ChatStore.FindOutgoing` | src/web/aprschat.py:86-91 | The search in one thread finds the first match of the whole list. |
| `AprsChat.ChatStore.Since` | src/web/aprschat.py:98-100 | Exactly the messages after a sequence number. |
| `AprsChat.PollsDeliver` | src/web/aprschat.py:98-104 | Polling from head to head gives every message exactly once, in order. |
| `AprsChat.PollRounds` | src/web/aprschat.py:98-104 | So it does for a client that only polls, with any frames and sends in between. |
| `ChatPage.Page.Ingest` | src/web/templates/aprs.html:101-112 | Every message is put in its thread or replaces the one with its number there, and `HEAD` moves up. |
| `ChatPage.MissedIff` | src/web/templates/aprs.html:101-205 | With answers arriving in any order, the page misses a message if and only if the answer to a send of its own with a higher number arrives while that message is neither shown nor under way. |
| `ChatPage.ShowsAllIff` | src/web/templates/aprs.html:101-205 | When all has settled the page shows every message if and only if that never happened. |
| `ChatPage.MissedHappens` | src/web/templates/aprs.html:163-205 | A run in which it does: one message comes in, the page sends another, and no poll ever brings the first. |
| `ChatPage.ShownForGood` | src/web/templates/aprs.html:101-170 | A message once shown, with no answer that holds it under way, stays on the page as it is, whatever becomes of it. |
| `ChatPage.StaleHappens` | src/web/templates/aprs.html:101-205 | A run at the end of which the page shows a message as being sent that has been acknowledged. |
| `ChatPage.Session` | src/web/web_app.py:220-235 | Chat and page as objects: frames, sends, retry passes, polls and answers in any order are such a run, and every numbered message was transmitted once and once for each retry, up to `max_retries`. |
| `AprsChat.AprsChat.SendText` | src/web/aprschat.py:137-147 | One message stored and transmitted, with the next number. |
| `AprsChat.AprsChat.OnFrame` | src/web/aprschat.py:149-182 | What any frame does to the messages and what it is answered with; no message returns to being sent. |
| `AprsChat.Exchange` | src/web/aprschat.py:137-182 | Two chats: what one sends the other has, from the sender and with its number; it answers the sender, and the answer makes the message acknowledged, whatever else went on. |
| `AprsChat.OwnReceipt` | src/web/aprschat.py:158-164 | An acknowledgement from the peer changes exactly the message with its number. |
| `AprsChat.AprsChat.DueRetries` | src/web/aprschat.py:186-202 | Exactly the overdue messages with retries left, in order; those without are given up, and nothing else changes. |
| `AprsChat.DueIff` | src/web/aprschat.py:186-202 | A message is due exactly when it is being sent, has retries left, and as many intervals have passed as it has been transmitted. |
| `AprsChat.GivenUpIff` | src/web/aprschat.py:186-202 | And given up when it is as late and has none left. |
| `AprsChat.OtherSsid` | src/web/aprschat.py:130-134 | A frame for another SSID of the station is for this one exactly when the SSID need not match. |
| `AprsChat.AprsChat.Resend` | src/web/aprschat.py:207-209 | Message and count: exactly the one named is transmitted and counted once more; besides it only what frames and sends in between cause is sent. |
| `AprsChat.AprsChat.ResendDue` | src/web/aprschat.py:204-210 | Every due message, and no other old one, is transmitted and counted exactly once more; everything sent, in order, with frames and sends in between. |
| `AprsChat.OnlyItsOwn` | src/web/aprschat.py:137-210 | A transmission equal to that of a numbered message is one of that message: no other message and no receipt looks like it. |
| `AprsChat.AtMost` | src/web/aprschat.py:186-210 | What is transmitted for a message that asks for an acknowledgement occurs among all transmissions once and once for each retry, hence at most 1 + max_retries times. |
| `AprsChat.TransmittedFor` | src/web/aprschat.py:137-210 | For every run and any text that is no receipt: it was transmitted as often as the messages sent with it, and their retries, say, and at most 1 + max_retries times for each of them. |
| `AprsChat.AckedStays` | src/web/aprschat.py:149-172 | An acknowledged message stays so under a frame if and only if the frame does not reject it; if it does, it becomes failed. |
| `AprsChat.RejectUndoesAck` | src/web/aprschat.py:158-172 | Whenever a message is acknowledged and then rejected by its peer it ends as failed. |
| `AprsChat.AckedThenFailed` | src/web/aprschat.py:158-172 | Such a message, with both frames. |
| `AprsChat.ReceiptFindsIt` | src/web/aprschat.py:86-91 | Until the numbers come round again, the message found for a receipt is the one that carried its number. |
| `AprsChat.NeverDueAgain` | src/web/aprschat.py:186-202 | A message that has left "sending" is never due again. |

## Left out

- Sockets, asyncio, clocks, logging and randomness: reads, timeouts, arrival times and masks are parameters.
- Channels that duplicate or reorder frames, such as hearing one frame directly and through a digipeater.
- Termination of `AX25Stream.send` against a dead peer: with a full window the source waits without a limit, and the model
  then reports that the given readings are used up.
- Opening and closing links on the stream's side (`connect`, `close`, `_flush_acks`): the runs start with an established
  link.
- GatewayLink.Gateway.Handle: the order of the UA and DM frames relative to the I and S frames is not recorded, nor is a
  relay task that is cancelled before its first step; whether the CMS can be reached is part of the arrival.
- GatewayLink.Gateway.CmsToRf: frames that follow the end of the link are not followed further; the task writes nothing
  more then.
- A concrete input on which `compress` raises for a long code: the condition is given, no such input is exhibited. The
  bounds on code lengths hold for every tree with the root weight named; what 314 symbols of weight 1 or more add to that
  weight is not taken into account.
- Ax25Frame.CallRoundTrip: stated for canonical callsigns.
- Ax25Frame.MakeFrame: of the digits `int` takes only the ASCII ones are modelled, and not its limit on their number; and
  `upper` for ASCII letters.
- Aprs.MessageRoundTrip: `upper` is modelled for ASCII letters.
- AprsChat.AprsChat.OnFrame: several awaited transmissions at once are modelled one after the other.
- A response of the web server to the page that fails, and a page restarted while responses are under way.
- Liveness: a timeout is modelled as coming when nothing is under way in either direction, that is, the delays are taken to
  be shorter than `ack_timeout`.
- AprsChat.ChatStore.Add: threads hold positions in the message list where the source holds references to the messages.
- The end-to-end theorem ends at the bytes the peer has taken in; the conversation that announces and accepts proposals, CMS
  login and the MIME message are not modelled.
- APRS message numbers across restarts of the chat, APRS-IS lines and passcodes, position formats.
- The state shown on the display from the Xara feed, the WebSocket handshake, and the rest of the web application.
