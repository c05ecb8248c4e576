# UHF RFID reader protocol and fleet/stock decision rules, in Dafny

This project models the core of an RFID-driven fleet and stock system. It has two parts.

The first part is the host side of a UHF RFID reader protocol (`python_sdk/`):

- the reflected CRC-16 register (polynomial 0x8408, start 0xFFFF, no final XOR) and the frame `[len, addr, cmd, data…, crc_lo, crc_hi]`;
- the reader client `UHFReader`, with its connected flag, framed command writer, one-frame receiver and inventory listen window;
- the response frames the two mock readers build, decoded back by the driver;
- the two "A0" framings of the diagnostic and discovery scripts, and the discovery search order;
- the idle-flush tag buffer of the middleware and the per-EPC debounce table of the keyboard wedge.

The second part is the ERP decision rules that consume tag scans or drive tyre and stock records:

- the batch tag scan: vehicle voting, gate-check line marking and mass inventory;
- tyre kilometres and cost per kilometre;
- the two tyre-operation wizards;
- the gate check: scan-type toggle, lines and confirm;
- the accumulated service-interval worksheet;
- shortage-to-purchase-order grouping;
- pack availability and price;
- bulk image import;
- the service-due reminder job;
- the single-account analytic sync.

How the model is built:

- Each source file is one module (`crc16`, `frame`, `uhf_reader`, `middleware`, …). `text`, `sorting`, `hex`, `sequences` and `wrappers` model the Python built-ins the rules rely on: `strip`, `upper`, `split`, `rsplit`, `int()`, `str()`, `sorted`, `', '.join`, `.hex()` and `bytes.fromhex`.
- Objects whose fields the source updates become classes with `modifies` clauses: the reader, the connector, the buffers, the wizards, the gate check, the template records and the stores.
- Every loop of the source that updates variables step by step is a method proved equal to a specification function. The properties are lemmas about those functions. Two kinds of source loop are not methods. The generator sum in `action_compute_pack_price` is the recursive function `PackPrice`. The `for record in self` loops of the wizards and records run their body once per record, and the model states that body for one record.
- ORM searches are inputs, either a table in search order or a filter over one. A `UserError`, which rolls the transaction back, is an error result with nothing changed.
- Clock readings, reader replies and random choices are parameters.

The four CRC loops of the SDK are identical: the driver, the diagnostic script and both mocks. They share one method, `Crc16.Checksum`. The transport choice of the middleware and the keyboard wedge is identical too, and is modelled once in `Transport`.

A few behaviours of the SDK are worth stating plainly:

- `receive_response` makes one attempt and does not skip noise. A bad length byte gives `None`, and on serial the rest of the input is flushed (`python_sdk/rfid_driver.py` lines 135-142).
- The middleware never reads `seen_tags`, so it has no per-EPC debounce. It flushes when the idle time is strictly more than 1.0 s (`python_sdk/middleware.py` lines 101 and 121).
- The inventory window is a number of receive attempts (`python_sdk/rfid_driver.py` lines 197-239).

The stock-transfer module's test (`stock_transfer_to_po/tests/test_stock_purchase_request.py` lines 33-60) opens the wizard from a move and expects a proposed line and a purchase request. The wizard proposes lines only when it is opened from transfers, and `action_create_po` creates purchase orders; `TransferToPurchase.DefaultGetFromMove` states that such a context proposes nothing. The model follows the wizard.

## Model

| member | source | states |
|---|---|---|
| Crc16.Checksum | python_sdk/rfid_driver.py:61-75 | the nested loop (XOR the byte in, eight shift-or-polynomial turns) returns exactly the specification register `Crc(data)`, a 16-bit value |
| Crc16.CrcAppend | python_sdk/rfid_driver.py:68-74 | one more byte moves the register by exactly one outer-loop turn |
| Crc16.LowHigh | python_sdk/rfid_driver.py:98 | `crc & 0xFF` and `(crc >> 8) & 0xFF` are the register split base 256 and recombine to it |
| Crc16.BytesDetermineRegister | python_sdk/rfid_driver.py:98 | two registers with the same transmitted low and high byte are equal |
| Crc16.DistinctRegistersDistinctBytes | python_sdk/rfid_driver.py:98 | two different registers differ in a transmitted byte |
| Crc16.MatchesBytes | python_sdk/rfid_driver.py:158-161 | the receiver's test `payload[-2] \| (payload[-1] << 8) == crc` holds exactly when the two trailing bytes are the register's low and high byte |
| Crc16.UpdateOwnBytes | python_sdk/rfid_driver.py:66-75 | feeding a register its own low then high byte leaves 0 |
| Crc16.Residue | python_sdk/rfid_driver.py:95-98 | a frame followed by its own CRC, low byte first, has CRC 0 |
| Crc16.UpdateInjective | python_sdk/rfid_driver.py:68-74 | one outer-loop turn is one-to-one in the register for a fixed byte and in the byte for a fixed register |
| Crc16.SingleByteChangeDetected | python_sdk/rfid_driver.py:61-75 | changing any single byte of a message changes its CRC |
| Crc16.CheckSteps | python_sdk/rfid_driver.py:66-74 | the register after each of the digits `1`..`9` from the preset 0xFFFF |
| Crc16.CheckValue | python_sdk/rfid_driver.py:61-75 | the checksum of the ASCII digits `123456789` is 0x6F91, the CRC-16/MCRF4XX check value |
| Frame.Encode | python_sdk/rfid_driver.py:86-100 | a frame exists exactly when the data fits the length byte; it is `[4 + \|data\|, addr, cmd] + data` plus two CRC bytes, and its first byte counts the bytes after it |
| Frame.DecodeWhole | python_sdk/rfid_driver.py:126-173 | with the length byte in 3..64 and the body present, the response is accepted exactly when the trailing bytes are the CRC of the length byte and the body before them; it carries address, command and data, and exactly the frame is consumed |
| Frame.DecodeConsumes | python_sdk/rfid_driver.py:119-151 | every receive consumes input: the rest is a proper suffix of the stream, or empty after a serial flush |
| Frame.EncodedResidue | python_sdk/rfid_driver.py:93-98 | every encoded frame has CRC register 0 over all its bytes |
| Frame.InventoryRequestSteps | python_sdk/rfid_driver.py:192-195 | the register turns over the inventory request's header |
| Frame.InventoryRequestHeaderCrc | python_sdk/rfid_driver.py:192-195 | the CRC over the inventory request's header is 0x36AC |
| Frame.InventoryRequest | python_sdk/rfid_driver.py:192-195 | `inventory_real_time` to address 0 sends the bytes `06 00 01 04 00 AC 36` |
| Frame.ReaderInformationRequestSteps | python_sdk/rfid_driver.py:245-246 | the register turns over the reader-information request's header |
| Frame.ReaderInformationRequestHeaderCrc | python_sdk/rfid_driver.py:245-246 | the CRC over the reader-information header is 0x6AD9 |
| Frame.ReaderInformationRequest | python_sdk/rfid_driver.py:245-246 | `get_reader_information` to address 0 sends `04 00 21 D9 6A` |
| Frame.RoundTrip | python_sdk/rfid_driver.py:86-173 | the receiver takes back exactly the address, command and data the sender framed, when the frame fits the 64-byte bound, and leaves what follows waiting |
| Frame.Sound | python_sdk/rfid_driver.py:126-173 | a response accepted from a length byte of 4 or more is exactly the frame the sender would build for it, and only that frame is consumed |
| Frame.ShortFrameAccepted | python_sdk/rfid_driver.py:135-173 | a length byte of 3 passes the sanity check; the command is then the low CRC byte and the data is empty |
| Frame.BadLengthRejected | python_sdk/rfid_driver.py:135-142 | a length byte outside 3..64 gives no response and consumes that byte, or all waiting input on a serial link |
| Frame.TruncatedRejected | python_sdk/rfid_driver.py:148-151 | a body shorter than the length byte gives no response |
| Frame.CorruptionDetected | python_sdk/rfid_driver.py:157-163 | changing any byte after the length byte of a frame makes the receiver reject it |
| Frame.CorruptedFrameLayout | python_sdk/rfid_driver.py:154-159 | where the CRC input and the two CRC bytes of a frame with one changed byte sit in the receiver's view |
| Frame.ParseTag | python_sdk/rfid_driver.py:207-232 | a tag is read exactly from a command-0x01 response with more than 4 data bytes that hold the EPC and RSSI its length byte promises; RSSI and antenna come from their positions; the EPC text has two hex digits per byte |
| Frame.ParseTagEpc | python_sdk/rfid_driver.py:223-229 | the EPC text decodes back to exactly the `n` bytes after the EPC length byte |
| Frame.ParseTagFields | python_sdk/rfid_driver.py:223-231 | a well-formed response gives the tag of its own EPC bytes, RSSI and antenna |
| Frame.InventoryDataFields | python_sdk/rfid_driver.py:209-215 | the positions of antenna, EPC length, EPC and RSSI in the inventory response data |
| Frame.TagOfInventoryData | python_sdk/rfid_driver.py:217-231 | a response `[ant, r1, r2, n] + epc + [rssi]` names the tag with the EPC's upper-case hex, that RSSI and that antenna |
| Frame.Found | python_sdk/rfid_driver.py:203-232 | one receive contributes at most one tag |
| Frame.ListenStep | python_sdk/rfid_driver.py:202-232 | one turn of the listening window: the tag of this receive, then the rest of the window on what it left |
| Frame.ListenBound | python_sdk/rfid_driver.py:202-239 | the window returns at most one tag per receive |
| Frame.ListenSilent | python_sdk/rfid_driver.py:202-239 | with nothing waiting the window returns no tags |
| Hex.HexUpperShape | python_sdk/rfid_driver.py:229 | `.hex().upper()` gives two upper-case hex digits per byte |
| Hex.FromHexOfHexUpper | python_sdk/mock_server.py:50 | `bytes.fromhex` reads back exactly the bytes the driver spelled with `.hex().upper()` |
| Hex.HexUpperOfFromHex | python_sdk/mock_server.py:50 | an even-length upper-case hex string read by `bytes.fromhex` and spelled again comes back unchanged |
| Driver.InventoryFrame | python_sdk/rfid_driver.py:192-195 | the inventory frame is the encoding of command 0x01 with `[0x04, 0x00]`: 7 bytes, length byte 6 |
| Driver.UHFReader.constructor | python_sdk/rfid_driver.py:12-25 | a new reader keeps its address and link kind, is not connected and has no connection object |
| Driver.UHFReader.Connect | python_sdk/rfid_driver.py:27-52 | a refused link raises and leaves the reader disconnected; an open serial port or any TCP connect sets `connected`; a serial port reporting closed leaves `connected` as it was; the connection object is stored even when the TCP connect raises |
| Driver.UHFReader.Disconnect | python_sdk/rfid_driver.py:54-59 | `connected` is cleared only when a connection object was ever stored |
| Driver.UHFReader.SendCommand | python_sdk/rfid_driver.py:77-111 | raises without writing when not connected; raises when the frame's length byte would exceed 255; otherwise appends exactly the encoded frame to what was sent, after discarding unread input on a serial link |
| Driver.UHFReader.ReadN | python_sdk/rfid_driver.py:119-123 | returns the next `n` waiting bytes, or all when fewer wait, and removes them |
| Driver.UHFReader.TwoReads | python_sdk/rfid_driver.py:126-148 | the length byte and the payload read in turn are the first `1 + n` waiting bytes |
| Driver.UHFReader.ReceiveResponse | python_sdk/rfid_driver.py:113-182 | on a connected link the response and the bytes left waiting are those of the frame decoder `Decode` on the waiting input; on a closed or absent link the read raises, and the handler gives `None` and consumes nothing |
| Driver.UHFReader.ReceiveTag | python_sdk/rfid_driver.py:203-235 | one receive of the window yields the tag its response carries, if any, and none on a closed link |
| Driver.UHFReader.ListenWindow | python_sdk/rfid_driver.py:197-239 | on a connected link the listening window over `attempts` receives returns the tags of `Listen` and leaves its rest waiting; on a closed link it returns no tags |
| Driver.UHFReader.InventoryRealTime | python_sdk/rfid_driver.py:184-239 | not connected: raises and changes nothing; otherwise sends the inventory frame and returns the tags the window decodes from the reply |
| Driver.UHFReader.GetReaderInformation | python_sdk/rfid_driver.py:241-247 | sends command 0x21 with no data and returns one decoded response |
| Transport.PortOr | python_sdk/middleware.py:80 | a given non-zero port is used; a missing or zero port gives the default |
| Transport.SelectTransport | python_sdk/middleware.py:77-91 | a mode exists exactly when a serial port or an IP is given; serial takes precedence; the target and the port or baud follow the chosen mode |
| Transport.SerialWins | python_sdk/keyboard_wedge.py:19-33 | once a serial port is named, the IP makes no difference and the link is serial |
| Transport.Defaults | python_sdk/keyboard_wedge.py:22-28 | without a port: 57600 baud on serial, TCP port 6000 |
| Middleware.Connector.constructor | python_sdk/middleware.py:12-18 | a new connector has no uid, no object proxy and has made no call |
| Middleware.Connector.Connect | python_sdk/middleware.py:20-34 | with no URL or a failing server nothing changes; otherwise the uid is stored and the object proxy is made only for a truthy uid |
| Middleware.Connector.PushBatch | python_sdk/middleware.py:47-58 | appends exactly the calls `Pushed` gives: one call with the EPC set when the set is non-empty and the connector is authenticated, none otherwise |
| Middleware.Pushed | python_sdk/middleware.py:47-58 | at most one call; a call exactly when authenticated with a non-empty set; it carries that set and the reader address |
| Middleware.Gather | python_sdk/middleware.py:112-117 | the buffer gains exactly the EPCs of the poll, and the last-tag time becomes the poll's time iff it reported a tag |
| Middleware.FreshTagsStay | python_sdk/middleware.py:112-123 | a poll that reports tags never flushes in the same iteration, and its tags are buffered |
| Middleware.FlushOnlyWhenIdle | python_sdk/middleware.py:119-123 | a flush happens only after an empty poll with a non-empty buffer more than 1.0 s after the last tag; it pushes exactly the buffer and empties it |
| Middleware.RunConserves | python_sdk/middleware.py:108-125 | over any run, the batches flushed plus what is still buffered are exactly the earlier buffer plus every EPC the polls reported |
| Middleware.BatchesNonEmpty | python_sdk/middleware.py:121-123 | every batch a run flushes is non-empty |
| Middleware.CrashPushesEverything | python_sdk/middleware.py:127-134 | after an exception every EPC seen is pushed; after Ctrl-C the last buffer is lost |
| Middleware.Buffer.constructor | python_sdk/middleware.py:101-105 | the buffer starts empty with last-tag time 0 |
| Middleware.Buffer.Poll | python_sdk/middleware.py:108-123 | one loop iteration leaves the buffer and time of `Iterate` and appends the push of its flush, if any |
| Middleware.Buffer.RunPolls | python_sdk/middleware.py:108-125 | the polls in turn leave the state of `Run` and append the calls of its flushes |
| Middleware.RunStep | python_sdk/middleware.py:108-125 | a run is its first iteration followed by the run of the remaining polls |
| Middleware.Start | python_sdk/middleware.py:76-136 | without `--serial` or `--ip` nothing is pushed; otherwise the calls are those of the session's batches, made only when authenticated |
| Middleware.CallsAppend | python_sdk/middleware.py:121-134 | the calls of two runs of batches are the calls of each in turn |
| Middleware.UnionAppend | python_sdk/middleware.py:121-134 | the EPCs of two runs of batches are the union of each |
| KeyboardWedge.ScanTypes | python_sdk/keyboard_wedge.py:48-61 | an EPC is typed iff reported and not typed in the last 2 s; a typed EPC's time becomes now, every other keeps its time; nothing is typed twice in one poll |
| KeyboardWedge.Purge | python_sdk/keyboard_wedge.py:64 | keeps exactly the entries younger than 60 s, with their times |
| KeyboardWedge.PurgeInvisible | python_sdk/keyboard_wedge.py:52-64 | with clock readings that do not run backwards, purging never changes whether a later read is typed |
| KeyboardWedge.Wedge.constructor | python_sdk/keyboard_wedge.py:42 | nothing seen and nothing typed |
| KeyboardWedge.Wedge.PollOnce | python_sdk/keyboard_wedge.py:45-64 | types what `Scan` types and keeps the purged times |
| KeyboardWedge.Start | python_sdk/keyboard_wedge.py:11-73 | without `--serial` or `--ip` nothing is typed; otherwise what the polls debounce to |
| Diagnostic.TwosChecksumCancels | python_sdk/diagnostic_e710.py:4-7 | the two's-complement byte makes the byte sum vanish modulo 256, and it is the only byte that does |
| Diagnostic.A0LengthExcludesChecksum | python_sdk/diagnostic_e710.py:26-38 | in both A0 framings the length byte counts address, command and data but not the check bytes; the two's-complement byte cancels the bytes after the header |
| Diagnostic.RawIsDriverFrame | python_sdk/diagnostic_e710.py:39-46 | the raw variant is exactly the driver's frame to address 0xFF |
| Diagnostic.A0VariantsShareBody | python_sdk/diagnostic_e710.py:26-38 | the two A0 variants carry the same packet and differ only in the check bytes |
| Diagnostic.TestProtocol | python_sdk/diagnostic_e710.py:22-58 | writes the frame of its variant and reports an answer exactly when bytes were waiting |
| Diagnostic.Plan | python_sdk/diagnostic_e710.py:75-90 | six probes: two commands times three variants |
| Diagnostic.RunDiagnostic | python_sdk/diagnostic_e710.py:60-92 | nothing is written when the port does not open; otherwise the six probes in the order of the loop |
| Diagnostic.FirstProbe | python_sdk/diagnostic_e710.py:76-84 | the first probe on the wire is `A0 02 FF 21 DE` |
| Discover.ProbeFrameLayout | python_sdk/discover_reader.py:20-23 | the probe is 5 bytes whose length byte counts the bytes after it, and its checksum cancels address, command and length |
| Discover.LengthConventionsDisagree | python_sdk/discover_reader.py:21 | for the same command, the discovery probe's length byte is 3 where the diagnostic frame's is 2, and the rest of the header agrees |
| Discover.SearchOrder | python_sdk/discover_reader.py:48-60 | six configurations are tried at most |
| Discover.Search | python_sdk/discover_reader.py:46-63 | the configurations tried are a prefix of the order ending at the first that answers, or all of them; found iff some configuration answers |
| MockServer.TagFrameIsDriverFrame | python_sdk/mock_server.py:54-65 | the mock's tag frame is byte for byte the driver's frame for address 0x01, command 0x01 and the tag payload |
| MockServer.TagFrameLayout | python_sdk/mock_server.py:54-65 | `[n+9, 01, 01, 03, 01, 01, n] + epc + [81, lo, hi]`, and the CRC over the whole frame is 0 |
| MockServer.TagFrameHeard | python_sdk/mock_server.py:50-67 | the driver decodes a mock frame, whatever follows it, to the mock response, and its parser reports the tag: EPC in upper-case hex, RSSI 0x81, antenna 3 |
| MockServer.TagParsed | python_sdk/mock_server.py:54 | the driver's parser turns the mock payload into that tag |
| MockServer.EntryBytes | python_sdk/mock_server.py:49-51 | `bytes.fromhex` accepts a table entry, gives half as many bytes, and the driver spells them back as the entry |
| MockServer.TagsDbWellFormed | python_sdk/mock_server.py:29-32 | both entries are 24 hex digits, 12-byte EPCs |
| MockServer.DrawnEntryHex | python_sdk/mock_server.py:49 | whatever `random.choice` draws is a 12-byte hex EPC |
| MockServer.EntryHeard | python_sdk/mock_server.py:49-67 | the driver hears an entry's frame, whatever follows, as exactly the tag the entry names, and consumes exactly the frame |
| MockServer.EntryFrameSize | python_sdk/mock_server.py:54-65 | an entry's frame is ten bytes longer than its EPC |
| MockServer.TagsOf | python_sdk/mock_server.py:48-67 | one expected tag per frame of the burst |
| MockServer.TagsOfOne | python_sdk/mock_server.py:48-67 | a burst of one entry names that entry's tag |
| MockServer.FramesOne | python_sdk/mock_server.py:48-67 | a burst of one entry is that entry's frame |
| MockServer.FramesCons | python_sdk/mock_server.py:48-67 | a burst is its first entry's frame followed by the rest |
| MockServer.EntryThenRest | python_sdk/mock_server.py:48-67 | a window hearing an entry's frame then other bytes reports the entry's tag, then what one receive fewer makes of the rest |
| MockServer.BurstHeard | python_sdk/mock_server.py:46-67 | a listen window of at least one receive per frame hears a burst as exactly its tags, in order, and leaves nothing |
| MockServer.BurstStep | python_sdk/mock_server.py:48-67 | one more frame in front of a burst gives one more tag in front of the report |
| MockServer.BuildTagFrame | python_sdk/mock_server.py:54-65 | the loop body, CRC loop included, builds exactly the tag frame |
| MockServer.EntryFrameOf | python_sdk/mock_server.py:49-65 | the frame built for a drawn entry is that entry's frame |
| MockServer.SendBurst | python_sdk/mock_server.py:48-67 | the bytes of a burst are its frames in turn |
| MockServer.AppendFrame | python_sdk/mock_server.py:49-67 | one turn of the burst loop sends the next frame after what was already sent |
| MockServer.AnswerChunk | python_sdk/mock_server.py:40-67 | one turn of the connection loop sends the answer to the next chunk after what was already sent |
| MockServer.ServeConnection | python_sdk/mock_server.py:39-67 | on one connection, the bytes sent are the answers to the chunks up to the first empty one |
| MockServer.BurstSize | python_sdk/mock_server.py:45-67 | a chunk that is not an inventory request gets nothing; one that is gets one 22-byte frame per pick, 22 to 66 bytes in all |
| MockServer.FramesSize | python_sdk/mock_server.py:48-67 | every frame of a burst of 12-byte EPCs is 22 bytes |
| TestMock.TagsDbWellFormed | python_sdk/test_mock.py:34-40 | all five entries are 24 hex digits, 12-byte EPCs |
| TestMock.EarlyEntriesWellFormed | python_sdk/test_mock.py:35-37 | the first three entries are 12-byte hex EPCs |
| TestMock.LateEntriesWellFormed | python_sdk/test_mock.py:38-39 | the last two entries are 12-byte hex EPCs |
| TestMock.DrawnEntryHex | python_sdk/test_mock.py:43 | whatever is drawn is a 12-byte hex EPC |
| TestMock.AnswersEnd | python_sdk/test_mock.py:15-18 | nothing is sent once the peer has closed |
| TestMock.AnswerSize | python_sdk/test_mock.py:22-84 | an inventory request gets a single 22-byte frame, anything else nothing |
| TestMock.AnswerOne | python_sdk/test_mock.py:22-84 | the answer to one chunk is the frame of the drawn entry when the chunk is an inventory request, else nothing |
| TestMock.AnswerNext | python_sdk/test_mock.py:15-84 | one turn of the loop sends the answer to the next chunk after what was already sent |
| TestMock.MockReaderServer | python_sdk/test_mock.py:15-88 | the bytes sent are the answers to the chunks up to the first empty one |
| TestMockRun.InventoryRequestTriggers | python_sdk/test_mock.py:22 | the driver's inventory request is one the mock answers |
| TestMockRun.AnswerHeard | python_sdk/test_mock.py:43-84 | the mock's answer to the inventory request is heard as exactly the drawn tag |
| TestMockRun.Scenario | python_sdk/test_mock.py:93-105 | a TCP reader at address 0 sends the inventory command and reports exactly the tag the mock drew |
| TagScan.FindReader | rfid_reader_integration/models/rfid_tag_scan.py:35-39 | no reader exactly when none has the key as IP or serial port; otherwise the first reader that does |
| TagScan.BatchLogs | rfid_reader_integration/models/rfid_tag_scan.py:134-139 | one log record per EPC, in order, with the sender's address and no reader |
| TagScan.ScanLogs.constructor | rfid_reader_integration/models/rfid_tag_scan.py:6-16 | the log starts empty |
| TagScan.ScanLogs.RecordScan | rfid_reader_integration/models/rfid_tag_scan.py:27-50 | appends one record with the EPC, the address and the matching reader's id or none, and returns the new record's id |
| TagScan.ScanLogs.LogBatch | rfid_reader_integration/models/rfid_tag_scan.py:134-139 | appends exactly the batch's log records |
| TagScan.SingleScanReader | rfid_reader_integration/models/rfid_tag_scan.py:35-47 | a single scan is attached to a reader exactly when some reader's IP or serial port is the address, and then to the first such |
| TagScan.Tagged | rfid_reader_integration/models/rfid_tag_scan.py:65 | the tyres found are exactly the tagged tyres whose tag was read |
| TagScan.TallyKeys | rfid_reader_integration/models/rfid_tag_scan.py:83-86 | the vote dictionary has a key exactly for each vehicle carrying a tyre read, listed once each |
| TagScan.TallyCounts | rfid_reader_integration/models/rfid_tag_scan.py:83-86 | each key counts the tyres read on that vehicle |
| TagScan.TallyOrder | rfid_reader_integration/models/rfid_tag_scan.py:83-86 | keys are listed in the order their vehicles were first met |
| TagScan.FirstMax | rfid_reader_integration/models/rfid_tag_scan.py:93 | `max` with a key picks the first key in insertion order with the highest count |
| TagScan.WinnerExists | rfid_reader_integration/models/rfid_tag_scan.py:83-93 | there is a winner exactly when some tyre read is mounted; the winner is such a vehicle |
| TagScan.WinnerHasMostVotes | rfid_reader_integration/models/rfid_tag_scan.py:93 | the winner has at least as many tyres read as any vehicle |
| TagScan.WinnerFirstAmongTied | rfid_reader_integration/models/rfid_tag_scan.py:93 | of the vehicles tied with the winner, a tyre of the winner was read first |
| TagScan.NoVotes | rfid_reader_integration/models/rfid_tag_scan.py:84-86 | a vehicle with no tyre read has count 0 |
| TagScan.Vote | rfid_reader_integration/models/rfid_tag_scan.py:83-93 | the voting loop and `max` give exactly `Winner` |
| TagScan.InventoryMoves | rfid_reader_integration/models/rfid_tag_scan.py:164-192 | one move per tyre read that is not at the destination, from its location or the main stock |
| TagScan.Moving | rfid_reader_integration/models/rfid_tag_scan.py:165-168 | the ids of the tyres read that are elsewhere |
| TagScan.Relocate | rfid_reader_integration/models/rfid_tag_scan.py:195 | each listed tyre is set to the destination; others are unchanged |
| TagScan.EveryTyreReadEndsAtTarget | rfid_reader_integration/models/rfid_tag_scan.py:156-209 | every tyre read ends at the destination and every tyre not read is untouched |
| TagScan.MassInventory | rfid_reader_integration/models/rfid_tag_scan.py:156-209 | no destination: `False` and no change; otherwise `True`, the moves of `InventoryMoves` and the tyres relocated |
| TagScan.OpenCheck | rfid_reader_integration/models/rfid_tag_scan.py:105-131 | today's draft check of the winner is reused, or a new one is created with its expected lines and scan type; then exactly the lines of the tyres read are marked scanned; other checks are untouched |
| TagScan.IdsOf | rfid_reader_integration/models/rfid_tag_scan.py:126 | exactly the ids of the tyres read |
| TagScan.Marked | rfid_reader_integration/models/rfid_tag_scan.py:129-131 | a line is scanned iff it was or its tyre was read; nothing else of a line changes |
| TagScan.GateBranch | rfid_reader_integration/models/rfid_tag_scan.py:82-154 | no mounted tyre: `False` and nothing written; otherwise one log record is written per EPC and the winner's check is today's draft, either the existing one or a new check with the next direction and one line per mounted tyre, with exactly the read tyres' lines newly marked scanned |
| TagScan.BatchScan | rfid_reader_integration/models/rfid_tag_scan.py:52-154 | no EPC or no tyre found: `False` and no change; an inventory reader moves the tyres; otherwise the gate-check branch, whose check is today's draft of the winner, reused or newly created, with exactly the read tyres' lines newly marked |
| FleetRecords.TreadOf | fleet_tyre_management/models/fleet_tyre.py:47 | the depth read is that of a record with the id; with unique ids, of every such record |
| FleetRecords.SetTread | fleet_tyre_management/models/fleet_gate_check.py:95 | the records with the id get the new depth; all other records are unchanged |
| FleetRecords.SetTreadReads | fleet_tyre_management/models/fleet_gate_check.py:95 | a depth written reads back, and the depth of every other record is what it was |
| FleetRecords.Get | fleet_tyre_management/wizards/tyre_operation_wizard.py:98 | `browse` returns a record of the table with that id, the only one when ids are unique |
| FleetRecords.Put | fleet_tyre_management/wizards/tyre_operation_wizard.py:192-245 | `write` replaces the record with that id and leaves the others; the tire wizard writes its records with it too |
| FleetRecords.PutReads | fleet_tyre_management/wizards/tyre_operation_wizard.py:192-245 | a write keeps ids unique and every record present, reads back what was written, and leaves the others readable as before |
| GateCheck.AssignName | fleet_tyre_management/models/fleet_gate_check.py:29-34 | a name other than `New` is kept; otherwise the sequence's next name, or `New` when it gives nothing |
| GateCheck.LastDone | fleet_tyre_management/models/fleet_gate_check.py:45-48 | the last done check of the vehicle, newest by date then id; none exactly when the vehicle has no done check |
| GateCheck.FirstCheckIsCheckIn | fleet_tyre_management/models/fleet_gate_check.py:50-53 | a vehicle without a done check is checked in |
| GateCheck.DirectionsAlternate | fleet_tyre_management/models/fleet_gate_check.py:45-53 | after a newest done check the next one takes the opposite direction |
| GateCheck.MountedOn | fleet_tyre_management/models/fleet_gate_check.py:61-64 | exactly the tyres mounted on the vehicle |
| GateCheck.LinesFor | fleet_tyre_management/models/fleet_gate_check.py:66-72 | one unscanned line per mounted tyre, in order, with its depth and the vehicle odometer |
| GateCheck.OneLinePerMountedTyre | fleet_tyre_management/models/fleet_gate_check.py:56-72 | with unique ids, a tyre gets one line if mounted on the vehicle and none otherwise |
| GateCheck.ConfirmHistory | fleet_tyre_management/models/fleet_gate_check.py:80-91 | one gate-check history record per line, with the line's tyre, odometer and new depth, the check's direction and vehicle |
| GateCheck.ConfirmTreads | fleet_tyre_management/models/fleet_gate_check.py:80-95 | after confirming, a tyre with lines has the depth of its last line and any other keeps its depth |
| GateCheck.ApplyTreadsKeepsIds | fleet_tyre_management/models/fleet_gate_check.py:94-95 | writing depths keeps every tyre in the table |
| GateCheck.Check.constructor | fleet_tyre_management/models/fleet_gate_check.py:10-34 | a new check is a draft with no lines, named by `AssignName` |
| GateCheck.Check.OnchangeVehicle | fleet_tyre_management/models/fleet_gate_check.py:36-72 | no vehicle: nothing changes; otherwise the direction and lines are recomputed and nothing else changes |
| GateCheck.Check.Confirm | fleet_tyre_management/models/fleet_gate_check.py:74-97 | a draft check appends its history, writes the depths and becomes done; any other check leaves everything unchanged |
| GateCheck.Check.MarkScanned | rfid_reader_integration/models/rfid_tag_scan.py:126-131 | exactly the lines whose tyre was read become scanned; nothing else changes |
| TyreKms.NotAfterIsPreorder | fleet_tyre_management/models/fleet_tyre.py:69 | the `(date, id)` key orders history records totally |
| TyreKms.SortByDate | fleet_tyre_management/models/fleet_tyre.py:69 | the sorted history is in `(date, id)` order and a permutation of the history |
| TyreKms.StepAdds | fleet_tyre_management/models/fleet_tyre.py:73-84 | a record never lowers the total, and adds only the positive distance since the baseline |
| TyreKms.KmsNonNegative | fleet_tyre_management/models/fleet_tyre.py:66-86 | the total is never negative |
| TyreKms.UnmountedReadingIgnored | fleet_tyre_management/models/fleet_tyre.py:77 | a dismount or gate check of an unmounted tyre changes nothing |
| TyreKms.MountResets | fleet_tyre_management/models/fleet_tyre.py:74-76 | a mount sets the baseline and mounts the tyre, adding nothing |
| TyreKms.GateChecksTelescope | fleet_tyre_management/models/fleet_tyre.py:77-82 | rising gate readings on a mounted tyre add exactly the distance from the baseline to the last reading |
| TyreKms.MountGateDismount | fleet_tyre_management/tests/test_tyre_lifecycle.py:34-73 | mount at 1000, gate check at 1500, dismount at 2000 gives 1000 km |
| TyreKms.TotalOfOrdered | fleet_tyre_management/models/fleet_tyre.py:66-86 | for a history already in order, the sort changes nothing and the total is the loop over it |
| TyreKms.Cpk | fleet_tyre_management/models/fleet_tyre.py:89-97 | with positive kilometres, cpk times kms is price plus all history costs; otherwise 0 |
| TyreKms.TyreMeter.constructor | fleet_tyre_management/models/fleet_tyre.py:62-97 | both computed fields start at zero |
| TyreKms.TyreMeter.ComputeTotalKms | fleet_tyre_management/models/fleet_tyre.py:64-86 | the loop over the sorted history stores `TotalKms`, which is never negative; cpk is unchanged |
| TyreKms.TyreMeter.ComputeCpk | fleet_tyre_management/models/fleet_tyre.py:88-97 | stores `Cpk` of the price, the history and the stored kms; kms unchanged |
| TyreKms.CpkExamples | fleet_tyre_management/tests/test_tyre_lifecycle.py:98-137 | 100 over 1000 km is 0.1; with a repair costing 20 it is 0.12 |
| TyreWizard.Occupant | fleet_tyre_management/wizards/tyre_operation_wizard.py:165-169 | the first tyre mounted at the vehicle's position; none exactly when the position is free |
| TyreWizard.Partners | fleet_tyre_management/wizards/tyre_operation_wizard.py:174-178 | exactly the tyres mounted on the same axle of the vehicle |
| TyreWizard.Complaint | fleet_tyre_management/wizards/tyre_operation_wizard.py:179-189 | a partner raises nothing exactly when its tread is within 3 mm and its brand matches (or a product is missing) |
| TyreWizard.Conflict | fleet_tyre_management/wizards/tyre_operation_wizard.py:179-189 | the loop raises nothing exactly when every partner passes; otherwise it raises some partner's complaint |
| TyreWizard.CheckPartners | fleet_tyre_management/wizards/tyre_operation_wizard.py:179-189 | the partner loop raises exactly `Conflict` |
| TyreWizard.StockMove | fleet_tyre_management/wizards/tyre_operation_wizard.py:249-260 | a move is made exactly when both locations are known and differ, from the lot's location to the destination |
| TyreWizard.Histories | fleet_tyre_management/wizards/tyre_operation_wizard.py:146-150 | one history record per processed tyre, in order, each a copy of the wizard's values with that tyre |
| TyreWizard.OtherMounted | fleet_tyre_management/wizards/tyre_operation_wizard.py:75-80 | exactly the ids of the other tyres mounted on the vehicle |
| TyreWizard.MountAllowedIff | fleet_tyre_management/wizards/tyre_operation_wizard.py:160-189 | a mount passes its guards iff vehicle and position are given, the position is free, and every axle partner is balanced and of the same brand |
| TyreWizard.MountOccupiesPosition | fleet_tyre_management/wizards/tyre_operation_wizard.py:165-197 | after a mount, another mount at the same place raises `PositionOccupied` naming the tyre just mounted |
| TyreWizard.MountGetsGateLine | fleet_tyre_management/wizards/tyre_operation_wizard.py:192-197 | a mounted tyre is among the vehicle's mounted tyres that a gate check lists |
| TyreWizard.OffVehicleNoGateLine | fleet_tyre_management/wizards/tyre_operation_wizard.py:199-247 | after a dismount, repair, retread or disposal no gate check lists the tyre |
| TyreWizard.RetreadCountedOnce | fleet_tyre_management/wizards/tyre_operation_wizard.py:223-232 | only a retread changes the retread count, by exactly one |
| TyreWizard.TreadOnlyFromGivenDepth | fleet_tyre_management/wizards/tyre_operation_wizard.py:199-215 | the tread changes only on a dismount or inspection, and only to a non-zero depth given in the wizard |
| TyreWizard.LightOperations | fleet_tyre_management/wizards/tyre_operation_wizard.py:209-236 | a gate check changes nothing on the tyre, an inspection at most its tread, a return to stock keeps vehicle and position |
| TyreWizard.OffVehicle | fleet_tyre_management/wizards/tyre_operation_wizard.py:199-247 | dismount, repair, retread and disposal leave the tyre on no vehicle, at no position and not mounted |
| TyreWizard.HistoryPerTyre | fleet_tyre_management/wizards/tyre_operation_wizard.py:125-150 | one history per processed tyre: the tyre, then each related tyre of a gate check, all of the operation's type and with the wizard's vehicle or the tyre's |
| TyreWizard.DisposeTypeUnlisted | fleet_tyre_management/wizards/tyre_operation_wizard.py:129 | as written, a disposal logs type `dispose`, which the history selection does not list; every other operation's key is listed |
| TyreWizard.HistoryType | fleet_tyre_management/models/fleet_tyre_history.py:11-20 | every operation maps to a listed type; all keep their key except a disposal, logged as `disposal` |
| TyreWizard.DefaultGet | fleet_tyre_management/wizards/tyre_operation_wizard.py:84-119 | context keys win; an active tyre suggests mount or dismount by its state; an active vehicle forces an operation; a missing or zero depth is the chosen tyre's |
| TyreWizard.ContextDefaults | fleet_tyre_management/wizards/tyre_operation_wizard.py:88-94 | the explicit context keys replace the framework's values and nothing else |
| TyreWizard.ActiveDefaults | fleet_tyre_management/wizards/tyre_operation_wizard.py:96-112 | the active record only fills missing keys, except that an active vehicle also sets an empty operation to mount |
| TyreWizard.FillTread | fleet_tyre_management/wizards/tyre_operation_wizard.py:114-117 | a missing or zero depth becomes the chosen tyre's depth; nothing else changes |
| TyreWizard.TyreOperationWizard.constructor | fleet_tyre_management/wizards/tyre_operation_wizard.py:8-49 | the wizard holds exactly the given form |
| TyreWizard.TyreOperationWizard.OnchangeOperationType | fleet_tyre_management/wizards/tyre_operation_wizard.py:71-82 | a gate check with a vehicle selects the other mounted tyres; otherwise the selection is cleared; nothing else changes |
| TyreWizard.TyreOperationWizard.Apply | fleet_tyre_management/wizards/tyre_operation_wizard.py:121-271 | a failing guard returns its error and writes nothing; otherwise the histories are appended, the tyre written and the move, if any, returned |
| TireWizard.GetTire | fleet_tire/wizards/tire_operation_wizard.py:40 | `browse` returns a tire of the table with that id, the only one when ids are unique |
| TireWizard.TireStateByOperation | fleet_tire/wizards/tire_operation_wizard.py:66-99 | the state after each operation: mounted, available, in repair, sent for retread or scrapped; an inspection keeps the state |
| TireWizard.TireFieldsByOperation | fleet_tire/wizards/tire_operation_wizard.py:76-99 | repair, retread and disposal clear vehicle, position and location; a return to stock only sets state and location; a dismount sets the given location and clears the position |
| TireWizard.UnlistedTireTypes | fleet_tire/wizards/tire_operation_wizard.py:59 | as written, `return_stock` and `dispose` are not keys of the tire history's type selection; every other operation's key is |
| TireWizard.TireHistoryType | fleet_tire/models/fleet_tire_history.py:11-18 | every operation maps to a listed type (with `return_stock` added); all keep their key except a disposal, logged as `disposal` |
| TireWizard.TireDefaultGet | fleet_tire/wizards/tire_operation_wizard.py:36-49 | any active id is read as a tire and overwrites the tire, its vehicle when set, and the operation its state suggests; no active id changes nothing |
| TireWizard.TireRegistry.constructor | fleet_tire/models/fleet_tire.py:1-40 | the registry holds the given tires and no history |
| TireWizard.TireOperationWizard.constructor | fleet_tire/wizards/tire_operation_wizard.py:8-34 | the wizard holds exactly the given form |
| TireWizard.TireOperationWizard.Apply | fleet_tire/wizards/tire_operation_wizard.py:51-102 | a mount without vehicle or position raises and changes nothing; any other call writes the tire and appends exactly one history |
| TireWizard.TireWriteReadsBack | fleet_tire/wizards/tire_operation_wizard.py:69-101 | the written tire stays in the table and reads back as written |
| Worksheet.ParseFieldString | maintenance_worksheet_templates/models/worksheet_template.py:51-55 | a string without a colon is in group `OTHER` with the string itself as caption |
| Worksheet.GroupNormalised | maintenance_worksheet_templates/models/worksheet_template.py:51-55 | a parsed group is always stripped and has no lower-case letter |
| Worksheet.FormatThenParse | maintenance_worksheet_templates/models/worksheet_template.py:51-55 | parsing `GROUP: caption` gives back a normalised group and a stripped caption |
| Worksheet.CleanFuelTank | maintenance_worksheet_templates/models/worksheet_template.py:50 | `CLEAN: Fuel Tank` parses to group `CLEAN` and caption `Fuel Tank` |
| Worksheet.IntervalOfName | maintenance_worksheet_templates/models/worksheet_template.py:64-67 | the interval of a name is `int()` of the first word after the last ` - `, with commas removed, whatever the prefix holds |
| Worksheet.IntervalPlain | maintenance_worksheet_templates/models/worksheet_template.py:64 | `JD 8230 - 250 Hour Service` has interval 250 |
| Worksheet.IntervalWithComma | maintenance_worksheet_templates/models/worksheet_template.py:64-67 | `Isuzu - 5,000 km Service` has interval 5000 |
| Worksheet.NoSeparatorNoInterval | maintenance_worksheet_templates/models/worksheet_template.py:65-73 | a name without ` - ` raises `IndexError`, which is skipped: no interval |
| Worksheet.LowerCandidates | maintenance_worksheet_templates/models/worksheet_template.py:61-73 | exactly the templates found whose interval is a proper factor of this one |
| Worksheet.LowerAsWrittenAgrees | maintenance_worksheet_templates/models/worksheet_template.py:61-73 | as written the loop raises exactly when this interval is positive and some template has interval 0; otherwise it selects what `LowerCandidates` selects |
| Worksheet.ZeroIntervalRaises | maintenance_worksheet_templates/models/worksheet_template.py:70 | a template `JD 8230 - 0 Hour Service` makes the generation of the 250-hour service raise |
| Worksheet.ByIntervalIsPreorder | maintenance_worksheet_templates/models/worksheet_template.py:75 | the sort key orders lower templates totally |
| Worksheet.LowerTemplates | maintenance_worksheet_templates/models/worksheet_template.py:75 | the lower templates in ascending interval, a permutation of the candidates |
| Worksheet.LowerTemplatesStable | maintenance_worksheet_templates/models/worksheet_template.py:57-75 | the templates of any one interval keep the order in which the search found them |
| Worksheet.LowerTemplatesSelect | maintenance_worksheet_templates/models/worksheet_template.py:57-75 | a template is selected iff it was found and its interval is a proper factor of this interval |
| AccumulatedTemplate.Names | maintenance_worksheet_templates/models/worksheet_template.py:77 | the keys of `items_map` are the items' names, in insertion order |
| AccumulatedTemplate.Assign | maintenance_worksheet_templates/models/worksheet_template.py:98 | a dict assignment keeps an existing key's place and puts a new key last; keys stay unique |
| AccumulatedTemplate.SpecificItems | maintenance_worksheet_templates/models/worksheet_template.py:80-98 | the map after loop 2 has each specific name once, in order of first appearance, each from an entry of the input |
| AccumulatedTemplate.LastSpecificWins | maintenance_worksheet_templates/models/worksheet_template.py:98 | of entries with the same name, the last one's item is in the map |
| AccumulatedTemplate.NewFields | maintenance_worksheet_templates/models/worksheet_template.py:17-30 | exactly the entries whose name the model lacks, each as a new boolean-by-default field |
| AccumulatedTemplate.AddFields | maintenance_worksheet_templates/models/worksheet_template.py:32-33 | creating the fields keeps every existing definition, adds each new name and nothing else |
| AccumulatedTemplate.PreloadIdempotent | maintenance_worksheet_templates/models/worksheet_template.py:8-33 | after the preload, a second preload of the same checklist creates nothing |
| AccumulatedTemplate.ExtendsKeepsNames | maintenance_worksheet_templates/models/worksheet_template.py:125-134 | harvesting never removes a name from the map |
| AccumulatedTemplate.HarvestNode | maintenance_worksheet_templates/models/worksheet_template.py:120-134 | a node is added only when its name starts with `x_`, is new and is defined on the model, with its definition's group; such a name ends in the map |
| AccumulatedTemplate.HarvestNodes | maintenance_worksheet_templates/models/worksheet_template.py:120-134 | the node loop only adds names of the view's nodes and keeps keys unique |
| AccumulatedTemplate.HarvestNodesIncludes | maintenance_worksheet_templates/models/worksheet_template.py:120-134 | every `x_` node defined on the model is in the map after the loop |
| AccumulatedTemplate.SplitXmlId | maintenance_worksheet_templates/models/worksheet_template.py:110 | a successful unpacking gives a module and name without dots that join back to the id |
| AccumulatedTemplate.SplitJoined | maintenance_worksheet_templates/models/worksheet_template.py:110 | an id with one dot unpacks to its module and name |
| AccumulatedTemplate.ViewNameOfTemplate | maintenance_worksheet_templates/models/worksheet_template.py:111-113 | `template_<rest>` becomes `view_<rest>` |
| AccumulatedTemplate.JohnDeere4500View | maintenance_worksheet_templates/models/worksheet_template.py:158-161 | `template_jd8230_4500h` has view `view_jd8230_4500h` |
| AccumulatedTemplate.LowerViewId | maintenance_worksheet_templates/models/worksheet_template.py:102-114 | an error exactly for an id that cannot be unpacked; no view exactly for a missing id or a name without `template_` |
| AccumulatedTemplate.HarvestLower | maintenance_worksheet_templates/models/worksheet_template.py:101-134 | one lower template fails exactly on a malformed id; otherwise the map only grows, keys stay unique, and a known view's nodes are harvested |
| AccumulatedTemplate.HarvestAll | maintenance_worksheet_templates/models/worksheet_template.py:101-134 | loop 3 fails exactly when some lower template's id is malformed; otherwise the map only grows with unique keys |
| AccumulatedTemplate.HarvestFails | maintenance_worksheet_templates/models/worksheet_template.py:101-134 | loop 3 fails iff some lower template's id cannot be unpacked |
| AccumulatedTemplate.HarvestStopsAtError | maintenance_worksheet_templates/models/worksheet_template.py:110 | loop 3 stops with the first malformed id |
| AccumulatedTemplate.HarvestAllIncludes | maintenance_worksheet_templates/models/worksheet_template.py:101-134 | every `x_` node of a lower view that the model defines is in the map after loop 3 |
| AccumulatedTemplate.GroupsOf | maintenance_worksheet_templates/models/worksheet_template.py:142-143 | the group of each item, in map order |
| AccumulatedTemplate.Groups | maintenance_worksheet_templates/models/worksheet_template.py:147 | each group of the map once, in ascending order |
| AccumulatedTemplate.Members | maintenance_worksheet_templates/models/worksheet_template.py:141-143 | exactly the names of the group's items |
| AccumulatedTemplate.FlattenCovers | maintenance_worksheet_templates/models/worksheet_template.py:149-153 | with every group listed once, the groups' members are exactly the map's names |
| AccumulatedTemplate.LayoutListsEachOnce | maintenance_worksheet_templates/models/worksheet_template.py:140-153 | the form lists every field of the map exactly once |
| AccumulatedTemplate.GroupInArch | maintenance_worksheet_templates/models/worksheet_template.py:149-153 | each group's element is in the arch |
| AccumulatedTemplate.FieldInGroup | maintenance_worksheet_templates/models/worksheet_template.py:151-152 | a member's field element is inside its group's element |
| AccumulatedTemplate.LabelInGroup | maintenance_worksheet_templates/models/worksheet_template.py:150 | a group's label is inside its element |
| AccumulatedTemplate.FieldInArch | maintenance_worksheet_templates/models/worksheet_template.py:146-155 | every field of the map is in the arch |
| AccumulatedTemplate.LabelInArch | maintenance_worksheet_templates/models/worksheet_template.py:146-155 | every group label of the map is in the arch |
| AccumulatedTemplate.GenerateFails | maintenance_worksheet_templates/models/worksheet_template.py:36-182 | generation fails iff the template is unknown, a lower template's id is malformed, or the template's own id is malformed |
| AccumulatedTemplate.GenerateParts | maintenance_worksheet_templates/models/worksheet_template.py:36-182 | a successful generation's map is loop 3's result, its arch is built from that map, and its new fields are loop 2's |
| AccumulatedTemplate.MergedItems | maintenance_worksheet_templates/models/worksheet_template.py:80-134 | this interval's fields come first with the last entry per name, then only `x_` fields defined on the model; no name twice |
| AccumulatedTemplate.GenerateAccumulates | maintenance_worksheet_templates/models/worksheet_template.py:36-155 | every `x_` field of a lower template's view that the model defines is in the map and in the arch |
| AccumulatedTemplate.WorksheetRegistry.constructor | maintenance_worksheet_templates/models/worksheet_template.py:4-5 | the registry holds the given templates, fields and views |
| AccumulatedTemplate.WorksheetRegistry.PreloadFields | maintenance_worksheet_templates/models/worksheet_template.py:7-33 | an unknown template raises and creates nothing; otherwise exactly `NewFields` is created |
| AccumulatedTemplate.WorksheetRegistry.GenerateAccumulated | maintenance_worksheet_templates/models/worksheet_template.py:35-182 | the result is `Generate`; on success the fields are created and the view written or created with the arch; on error nothing changes |
| AccumulatedTemplate.WorksheetRegistry.SelectLower | maintenance_worksheet_templates/models/worksheet_template.py:57-75 | loop 1 and the sort give exactly `LowerTemplates` |
| AccumulatedTemplate.WorksheetRegistry.MergeSpecific | maintenance_worksheet_templates/models/worksheet_template.py:80-98 | loop 2 gives exactly `SpecificItems` and `NewFields` |
| AccumulatedTemplate.WorksheetRegistry.HarvestViews | maintenance_worksheet_templates/models/worksheet_template.py:100-134 | loop 3 gives exactly `HarvestAll` |
| AccumulatedTemplate.WorksheetRegistry.HarvestViewNodes | maintenance_worksheet_templates/models/worksheet_template.py:120-134 | the node loop gives exactly `HarvestNodes` |
| AccumulatedTemplate.WorksheetRegistry.GroupFields | maintenance_worksheet_templates/models/worksheet_template.py:140-143 | each group of the map is a key, exactly those, with the group's members |
| AccumulatedTemplate.WorksheetRegistry.BuildArch | maintenance_worksheet_templates/models/worksheet_template.py:146-155 | the built arch is exactly `Arch` of the map |
| AccumulatedTemplate.WorksheetRegistry.AppendGroups | maintenance_worksheet_templates/models/worksheet_template.py:149-153 | the group loop builds exactly `GroupsXml` |
| AccumulatedTemplate.KeysSorted | maintenance_worksheet_templates/models/worksheet_template.py:147 | sorting the grouping's keys gives the map's sorted groups, each with its members |
| TransferToPurchase.ShortMoves | stock_transfer_to_po/wizard/stock_transfer_po_wizard.py:25-27 | exactly the moves that are waiting or partially available and not pack moves |
| TransferToPurchase.MoveLines | stock_transfer_to_po/wizard/stock_transfer_po_wizard.py:29-45 | one line per move with a positive shortage, for the missing quantity, from the product's first vendor |
| TransferToPurchase.ShortageLinesExactly | stock_transfer_to_po/wizard/stock_transfer_po_wizard.py:17-45 | a line is proposed iff it is the shortage line of a short move with missing stock in an internal picking |
| TransferToPurchase.ShortagesPositive | stock_transfer_to_po/wizard/stock_transfer_po_wizard.py:33-35 | every proposed line asks for a positive quantity |
| TransferToPurchase.DefaultGet | stock_transfer_to_po/wizard/stock_transfer_po_wizard.py:10-47 | lines are filled iff they are asked for from transfers, and then they are exactly the shortage lines |
| TransferToPurchase.MoveShortages | stock_transfer_to_po/wizard/stock_transfer_po_wizard.py:29-45 | the move loop gives exactly `MoveLines` |
| TransferToPurchase.FirstWithoutVendor | stock_transfer_to_po/wizard/stock_transfer_po_wizard.py:56-59 | the first line without a vendor; none iff every line has one |
| TransferToPurchase.Vendors | stock_transfer_to_po/wizard/stock_transfer_po_wizard.py:55-62 | the keys of `grouped` are distinct |
| TransferToPurchase.VendorsExactly | stock_transfer_to_po/wizard/stock_transfer_po_wizard.py:55-62 | a vendor is a key iff some line names it |
| TransferToPurchase.LinesOfExactly | stock_transfer_to_po/wizard/stock_transfer_po_wizard.py:60-62 | a vendor's group holds exactly the lines naming it |
| TransferToPurchase.PickingNamesExactly | stock_transfer_to_po/wizard/stock_transfer_po_wizard.py:67 | the picking names collected are exactly those of the lines with a transfer |
| TransferToPurchase.OriginNames | stock_transfer_to_po/wizard/stock_transfer_po_wizard.py:67-71 | the origin joins each transfer name of the vendor's lines once, in ascending order, with `, ` |
| TransferToPurchase.OrderLines | stock_transfer_to_po/wizard/stock_transfer_po_wizard.py:77-99 | one order line per line with a product |
| TransferToPurchase.OrderLinesExactly | stock_transfer_to_po/wizard/stock_transfer_po_wizard.py:77-99 | an order holds exactly the order lines of the lines with a product |
| TransferToPurchase.OrdersFor | stock_transfer_to_po/wizard/stock_transfer_po_wizard.py:65-100 | one order per vendor, in the vendors' order |
| TransferToPurchase.CreatePoOutcome | stock_transfer_to_po/wizard/stock_transfer_po_wizard.py:49-100 | no lines: nothing; some line without a vendor: an error naming the first such line's product; otherwise orders |
| TransferToPurchase.OnePoPerVendor | stock_transfer_to_po/wizard/stock_transfer_po_wizard.py:55-100 | exactly one order per vendor of the lines, none for any other |
| TransferToPurchase.CreatedOrders | stock_transfer_to_po/wizard/stock_transfer_po_wizard.py:55-100 | a successful run orders for the vendors of the lines, in order of first appearance |
| TransferToPurchase.LineInItsVendorsPo | stock_transfer_to_po/wizard/stock_transfer_po_wizard.py:65-100 | each line with a product is in its vendor's order, every order line comes from a line of that vendor, and the origin is that vendor's transfers |
| TransferToPurchase.PriceOfLine | stock_transfer_to_po/wizard/stock_transfer_po_wizard.py:87-97 | the unit price is the vendor's supplier price when there is one and the standard price otherwise |
| TransferToPurchase.EveryLineOrderedOnce | stock_transfer_to_po/wizard/stock_transfer_po_wizard.py:55-100 | the orders hold as many lines as the wizard has lines with a product |
| TransferToPurchase.Partition | stock_transfer_to_po/wizard/stock_transfer_po_wizard.py:65-100 | over distinct vendors covering every line, each line with a product is ordered once |
| TransferToPurchase.PurchaseBook.constructor | stock_transfer_to_po/wizard/stock_transfer_po_wizard.py:64 | no orders yet |
| TransferToPurchase.TransferPoWizard.constructor | stock_transfer_to_po/wizard/stock_transfer_po_wizard.py:8 | the wizard holds the given lines |
| TransferToPurchase.TransferPoWizard.ActionCreatePo | stock_transfer_to_po/wizard/stock_transfer_po_wizard.py:49-108 | the result is `CreatePo`; on success exactly its orders are appended, otherwise no order is created |
| TransferToPurchase.TransferPoWizard.CreateOrders | stock_transfer_to_po/wizard/stock_transfer_po_wizard.py:65-100 | the order loop creates exactly `OrdersFor` the vendors, appended in turn |
| TransferToPurchase.TransferPoWizard.GroupByVendor | stock_transfer_to_po/wizard/stock_transfer_po_wizard.py:55-62 | the loop stops at the first line without a vendor; otherwise it groups the lines by vendor in order of first appearance |
| TransferToPurchase.TransferPoWizard.CreateOrder | stock_transfer_to_po/wizard/stock_transfer_po_wizard.py:66-99 | one order for the vendor with its origin and order lines, appended |
| TransferToPurchase.TransferPoWizard.CreateOrderLines | stock_transfer_to_po/wizard/stock_transfer_po_wizard.py:77-99 | the line loop gives exactly `OrderLines` |
| TransferToPurchase.GroupingStep | stock_transfer_to_po/wizard/stock_transfer_po_wizard.py:60-62 | one turn of the grouping loop keeps the grouping right |
| TransferToPurchase.OrderFromGroup | stock_transfer_to_po/wizard/stock_transfer_po_wizard.py:65-99 | the order of each vendor is built from that vendor's group |
| TransferToPurchase.DefaultGetFromMove | stock_transfer_to_po/wizard/stock_transfer_po_wizard.py:13 | opened from a move (`active_model` is `stock.move`), `default_get` proposes no line whatever transfers exist |
| TransferToPurchase.TransferScenarioLines | stock_transfer_to_po/wizard/stock_transfer_po_wizard.py:13-45 | one internal transfer waiting for 10 units of a product with one vendor gives one line of 10 from that vendor |
| TransferToPurchase.TransferScenarioOrder | stock_transfer_to_po/wizard/stock_transfer_po_wizard.py:64-99 | that line becomes one order at the supplier price 10.0 with the transfer's name as origin |
| TransferToPurchase.SingleLineCreatePo | stock_transfer_to_po/wizard/stock_transfer_po_wizard.py:49-100 | a single line with a vendor gives that vendor's order alone |
| ProductPack.SetsBound | product_pack/models/product_template.py:32 | `qty_available // quantity` sets of a component are covered by stock, and one more set is not |
| ProductPack.FloorBounds | product_pack/models/product_template.py:32 | floor division by a positive quantity lies within one quantity below the stock |
| ProductPack.Possible | product_pack/models/product_template.py:24-33 | at most one entry per line |
| ProductPack.PossibleExactly | product_pack/models/product_template.py:24-33 | each entry is the sets of a line with positive quantity, and each such line gives one |
| ProductPack.Min | product_pack/models/product_template.py:36 | `min` is an element no greater than any other |
| ProductPack.MinLoop | product_pack/models/product_template.py:36 | the loop computes exactly `Min` |
| ProductPack.AvailabilityZero | product_pack/models/product_template.py:19-21 | a non-pack, an empty pack, or a pack without a positive line has availability 0 |
| ProductPack.AvailabilityIsLimitingComponent | product_pack/models/product_template.py:23-36 | the availability is the least number of sets over the positive lines, attained by one of them |
| ProductPack.AvailabilityCanBeAssembled | product_pack/models/product_template.py:13 | the stock holds every component of that many packs |
| ProductPack.OneMorePackRunsShort | product_pack/models/product_template.py:13 | one more pack would run short of some component |
| ProductPack.PackPriceConcat | product_pack/models/product_template.py:43 | the price of two component lists together is the sum of their prices |
| ProductPack.PackPriceScales | product_pack/models/product_template.py:43 | scaling every quantity by k scales the price by k |
| ProductPack.Scaled | product_pack/models/product_template.py:43 | each line with its quantity scaled by k |
| ProductPack.PackTemplate.constructor | product_pack/models/product_template.py:6-14 | a template with the given pack fields and availability 0 |
| ProductPack.PackTemplate.ComputePackAvailability | product_pack/models/product_template.py:16-38 | stores exactly `Availability`; nothing else changes |
| ProductPack.PackTemplate.ActionComputePackPrice | product_pack/models/product_template.py:40-44 | stores the sum of list price times quantity over the components; nothing else changes |
| BulkImageImport.Shrunk | product_bulk_image_import/models/import_wizard.py:48-49 | `int(side * 0.8)` of a side over 400 is smaller and at least 320 |
| BulkImageImport.LowerQuality | product_bulk_image_import/models/import_wizard.py:34-41 | the quality loop keeps the size, lowers the quality in steps of 10 not below 25, and stops within the limit or at quality 30 or less |
| BulkImageImport.Shrink | product_bulk_image_import/models/import_wizard.py:43-52 | the size loop keeps the quality, never grows a side nor takes it below 320, and stops within the limit or at a side of 400 or less |
| BulkImageImport.SmallImageUnchanged | product_bulk_image_import/models/import_wizard.py:22-23 | empty data or data within the target comes back unchanged |
| BulkImageImport.RecompressedSchedule | product_bulk_image_import/models/import_wizard.py:25-54 | a recompressed picture has quality 95, 85, ..., 25, its own size or sides of at least 320, and is within the target unless both loops reached their floor |
| BulkImageImport.ResizeImage | product_bulk_image_import/models/import_wizard.py:18-57 | the two loops compute exactly `Resize` |
| BulkImageImport.ReferenceShape | product_bulk_image_import/models/import_wizard.py:90-93 | the reference has no folder and is the file name cut before its last dot, what was cut being empty or a dot-free extension |
| BulkImageImport.ImageNameExample | product_bulk_image_import/models/import_wizard.py:80-82 | `folder/FURN001_1.JPG` is a picture; `folder/` is not |
| BulkImageImport.ReferenceExample | product_bulk_image_import/models/import_wizard.py:90-93 | `folder/FURN001_1.JPG` has reference `FURN001_1` |
| BulkImageImport.FallbackExample | product_bulk_image_import/models/import_wizard.py:99-101 | `FURN001_1` falls back to `FURN001` |
| BulkImageImport.Search | product_bulk_image_import/models/import_wizard.py:97 | the first product with that internal reference; none iff no product has it |
| BulkImageImport.FindProduct | product_bulk_image_import/models/import_wizard.py:95-102 | the product with the reference, or else, for a reference with an underscore, the one with the text before its last underscore; none iff both searches fail |
| BulkImageImport.PlaceMatched | product_bulk_image_import/models/import_wizard.py:109-123 | a matched picture counts as a success; it is stored as the main image of a product whose main image is unset or empty, and that image is set afterwards iff the picture is non-empty; a product with a non-empty main image gets it as an extra image of its template |
| BulkImageImport.EmptyPictureThenPicture | product_bulk_image_import/models/import_wizard.py:111-123 | an empty picture stored as a main image leaves it unset, so the next picture of that product replaces it rather than becoming an extra image; both count as successes |
| BulkImageImport.FindSameCatalogue | product_bulk_image_import/models/import_wizard.py:79-107 | earlier files do not change which product a file matches |
| BulkImageImport.RunAccounted | product_bulk_image_import/models/import_wizard.py:74-126 | after the loop, successes and skips add up to the pictures, the skipped names are exactly the unmatched ones in order, extra images are only appended, no set main image is lost, and new main images plus extra images are at most the successes, equal to them when no picture shrinks to empty data |
| BulkImageImport.MatchedHaveImages | product_bulk_image_import/models/import_wizard.py:109-123 | every product matched by some non-empty picture ends with a set main image |
| BulkImageImport.RunCatalogue | product_bulk_image_import/models/import_wizard.py:79-126 | the loop changes no product's reference or template |
| BulkImageImport.ImageStays | product_bulk_image_import/models/import_wizard.py:113-122 | a product with a main image keeps one |
| BulkImageImport.StepKeepsImages | product_bulk_image_import/models/import_wizard.py:79-126 | one file changes no reference or template and removes no main image |
| BulkImageImport.SummaryListsNames | product_bulk_image_import/models/import_wizard.py:129-133 | each of the first 20 unmatched names appears in the message |
| BulkImageImport.NotificationKind | product_bulk_image_import/models/import_wizard.py:135-144 | the notification is a success iff every picture matched a product, and it is sticky |
| BulkImageImport.ProductStore.constructor | product_bulk_image_import/models/import_wizard.py:11-16 | the store holds the given products and extra images |
| BulkImageImport.ImportWizard.constructor | product_bulk_image_import/models/import_wizard.py:15 | the wizard holds the given archive |
| BulkImageImport.ImportWizard.ActionImportImages | product_bulk_image_import/models/import_wizard.py:59-144 | an unreadable archive is an error that changes nothing; otherwise the notification and the stored images are those of `Import` |
| BulkImageImport.ImportEntry | product_bulk_image_import/models/import_wizard.py:79-126 | one pass of the loop on the store is exactly `Step` |
| BulkImageImport.LookUp | product_bulk_image_import/models/import_wizard.py:95-102 | the two searches give exactly `FindProduct` |
| BulkImageImport.PlaceImage | product_bulk_image_import/models/import_wizard.py:104-126 | storing one picture is exactly `Place` |
| FleetWorkshop.ServiceDueMeaning | fleet_workshop/models/fleet_vehicle.py:14-22 | due iff the interval is positive and the vehicle has driven at least one interval since its last service |
| FleetWorkshop.ServiceClearsDue | fleet_workshop/models/fleet_vehicle.py:14-22 | a service recorded at the current odometer ends the due state |
| FleetWorkshop.DueStaysDue | fleet_workshop/models/fleet_vehicle.py:19-22 | driving on never ends the due state |
| FleetWorkshop.FindReminder | fleet_workshop/models/fleet_vehicle.py:58-62 | the first `Service Due` activity of the vehicle; none iff it has none |
| FleetWorkshop.NoReminders | fleet_workshop/models/fleet_vehicle.py:58-64 | the search finds nothing iff the vehicle has no reminder |
| FleetWorkshop.OneReminderPerDueVehicle | fleet_workshop/models/fleet_vehicle.py:49-70 | after the job a vehicle keeps the reminders it had, and one without any has exactly one iff it is due |
| FleetWorkshop.CheckStep | fleet_workshop/models/fleet_vehicle.py:55-70 | one more vehicle adds a reminder only for itself, when it is due and has none yet |
| FleetWorkshop.CheckOnlyAppends | fleet_workshop/models/fleet_vehicle.py:49-70 | the job only appends activities |
| FleetWorkshop.CheckIdempotent | fleet_workshop/models/fleet_vehicle.py:49-70 | a second run right after the first schedules nothing |
| FleetWorkshop.NothingNew | fleet_workshop/models/fleet_vehicle.py:63-64 | when every due vehicle has a reminder the job changes nothing |
| FleetWorkshop.ActivityStore.constructor | fleet_workshop/models/fleet_vehicle.py:58-62 | the store holds the given activities |
| FleetWorkshop.ActivityStore.CronCheckServiceDue | fleet_workshop/models/fleet_vehicle.py:49-70 | the loop over the vehicles leaves exactly `CheckServiceDue` of the old activities |
| PurchaseAnalytic.SyncedAccountCases | purchase_analytic_auto_dist/models/purchase_order_line.py:21-39 | an empty or multi-account distribution, or one share other than 100, clears the account; a single 100% key that `int()` rejects keeps it; otherwise the account becomes that key's number |
| PurchaseAnalytic.AccountRoundTrip | purchase_analytic_auto_dist/models/purchase_order_line.py:12-39 | choosing an account and letting the distribution onchange run keeps that account, and clearing it keeps it clear |
| PurchaseAnalytic.DistributionRoundTrip | purchase_analytic_auto_dist/models/purchase_order_line.py:12-39 | a 100% distribution on one account id is what choosing that account produces |
| PurchaseAnalytic.PurchaseOrderLine.constructor | purchase_analytic_auto_dist/models/purchase_order_line.py:3-10 | a line with the given account and distribution |
| PurchaseAnalytic.PurchaseOrderLine.OnchangeAccountAnalyticId | purchase_analytic_auto_dist/models/purchase_order_line.py:12-19 | the distribution becomes `DistributionFor` the account; the account is unchanged |
| PurchaseAnalytic.PurchaseOrderLine.OnchangeAnalyticDistribution | purchase_analytic_auto_dist/models/purchase_order_line.py:21-39 | the account becomes `SyncedAccount` of the distribution; the distribution is unchanged |
| Text.ParseIntToString | purchase_analytic_auto_dist/models/purchase_order_line.py:17-29 | `int(str(i)) == i` for every integer |
| Text.SortedSetBySet | stock_transfer_to_po/wizard/stock_transfer_po_wizard.py:67 | `sorted(set(names))` depends only on which names occur |
| Text.RFind | product_bulk_image_import/models/import_wizard.py:93 | the last index holding the character; none iff it does not occur |
| Text.AfterLastOccurrence | maintenance_worksheet_templates/models/worksheet_template.py:65 | the text after the last occurrence of the separator; none (`IndexError`) iff it does not occur |
| Text.StripIdempotent | maintenance_worksheet_templates/models/worksheet_template.py:54 | stripping twice is stripping once |
| Text.Strip | maintenance_worksheet_templates/models/worksheet_template.py:54 | `strip()` leaves no whitespace at either end |
| Text.StripShape | maintenance_worksheet_templates/models/worksheet_template.py:54 | the stripped text is the input after its leading whitespace, followed only by whitespace |
| Text.Upper | maintenance_worksheet_templates/models/worksheet_template.py:54 | `upper()` maps every character by the ASCII case mapping |
| Text.CaseMappings | maintenance_worksheet_templates/models/worksheet_template.py:54 | an upper-cased string has no lower-case letter, and upper-casing twice is once |
| Text.Find | maintenance_worksheet_templates/models/worksheet_template.py:52-53 | the first index of the character; none iff it does not occur |
| Text.BeforeLast | product_bulk_image_import/models/import_wizard.py:101 | `rsplit(c, 1)[0]` is the prefix before the last `c`, or everything when there is none |
| Text.AfterLast | product_bulk_image_import/models/import_wizard.py:92 | `split(c)[-1]` is the suffix after the last `c`, or everything |
| Text.DigitsValue | maintenance_worksheet_templates/models/worksheet_template.py:67 | `int()` accepts only digits with single underscores between two digits |
| Text.UnderscoreBetweenDigits | maintenance_worksheet_templates/models/worksheet_template.py:67 | `int()` accepts one underscore between two digits |
| Text.MisplacedUnderscores | maintenance_worksheet_templates/models/worksheet_template.py:67 | `int()` rejects a doubled, leading or trailing underscore |
| Text.RemoveChar | maintenance_worksheet_templates/models/worksheet_template.py:67 | `replace(',', '')` removes every comma and keeps every other character in order |
| Text.JoinShape | stock_transfer_to_po/wizard/stock_transfer_po_wizard.py:71 | `', '.join` holds every part with one separator between neighbours |
| Text.SortedSet | stock_transfer_to_po/wizard/stock_transfer_po_wizard.py:67 | `sorted(set(names))` lists each name once, in ascending order, and only those |
| Text.StrOrder | stock_transfer_to_po/wizard/stock_transfer_po_wizard.py:67 | Python's string comparison is a total, antisymmetric order |
| Text.Dedup | stock_transfer_to_po/wizard/stock_transfer_po_wizard.py:55-62 | a dict's keys fed in order: each element once, in order of first appearance |
| Sorting.Sort | maintenance_worksheet_templates/models/worksheet_template.py:75 | Python's sort gives an ascending permutation of its input |
| Sorting.SortStable | maintenance_worksheet_templates/models/worksheet_template.py:75 | the sort is stable: the elements with any one key come out in input order |
| Sorting.SortKeepsAscending | fleet_tyre_management/models/fleet_tyre.py:69 | a list already in order comes out of the sort unchanged |
| Sorting.AscendingUnique | stock_transfer_to_po/wizard/stock_transfer_po_wizard.py:67 | under an antisymmetric order there is only one sorted list of given elements |

## Left out

- Serial and TCP I/O: opening, timeouts, `sleep` and the input flush are left out. The link is two byte sequences, and the serial flush discards everything waiting.
- Wall-clock time: the 500 ms listen window is a number of receive attempts, and `time.time()` readings are parameters.
- The XML-RPC client, `pynput` keyboard output, `argparse`, threads and DTR/RTS line control are left out. A server answer, a typed key and a line setting are parameters or recorded values.
- `random` in the mock servers: the tag chosen and the burst size are parameters.
- The ORM itself is left out. Record creation, `search` with domains and ordering, `env.ref`, sequences, `get_external_id`, the stock-move confirm/assign/done calls and bus notifications are not modelled. A search result is an input, in search order.
- Record sets: a `for record in self` loop over several records is modelled by its body on one record. Calling the one-record operation once per record in turn gives the loop.
- Record ids, creation order beyond the order of appended records, and the transaction rollback mechanism are not modelled. An error leaves the state unchanged.
- Floats are `real`, with no IEEE rounding. The float formatting in the service-due activity note is a parameter (`format`).
- Case mapping is ASCII only (`upper`, `lower`, the `.jpg` suffix test); Python's Unicode case mapping is not modelled. `strip` uses Python's full whitespace set (`Text.IsSpace`).
- Text.DigitsValue: `int()` is modelled on ASCII digits only. Python also accepts other Unicode decimal digits, which `Text.ParseInt` rejects; this reaches `Worksheet.IntervalOfName` and `PurchaseAnalytic.SyncedAccount`.
- `lxml` parsing of view archs is left out. A view is given as the list of its `field` node names in document order.
- The imaging library and zip/base64 handling are left out. `open` and `save` are oracles, and the archive's entry list and the decoding outcome are parameters.
- The `except` branch around image assignment (`product_bulk_image_import/models/import_wizard.py` lines 124-126) is left out. With base64 encoding and field assignment modelled as total, it cannot be reached.
- `rfid_tag_scan.py` `_compute_product` and the bus payload of `batch_rfid_scan_action` are not part of this model.
- `fleet_vehicle.py` `_search_service_due` (a placeholder domain), `_compute_work_order_count` and `action_view_work_orders` are not part of this model.
- Purchase order `date_order`, `date_planned`, company and unit of measure: only the vendor, origin, products, quantities, names and prices are modelled. The supplier price lookup `_select_seller` is an oracle (`supplierPrice`).
- `_get_vehicle_location`, which finds or creates the vehicle's stock location, is an oracle in the tyre wizard (`Locations`). The lot move is returned as a value, not confirmed.
- The recycle-bin layer, work orders, requisitions, purchase requests, the HTTP controller, JS widgets, manifests and the setup, sniffing and verification scripts are outside the modelled core.
- AccumulatedTemplate.AddFields: when a name occurs twice among the specific fields, the source proposes two field definitions for it, because its `search` sees only the database, and the batch `create` then fails on the uniqueness of (model, name). The model keeps one definition per name, so this failure is not modelled.
- MockServer.EntryFrame: where `bytes.fromhex` would raise, or the EPC is too long for a frame, the model sends nothing and keeps serving; the source raises and the connection ends. No table entry reaches this case (`MockServer.TagsDbWellFormed`).
- TyreWizard.DefaultGet: an active id that names no record reads as empty (`Browse` gives none) and the defaults carry on. In the source, `browse` gives an empty record and reading its fields raises `MissingError`.
- TyreWizard.ActiveDefaults: for an active tyre id that names no record, only the tyre field is set by default; the source raises `MissingError` there.
- TireWizard.TireDefaultGet: an active id that names no tire only sets the tire field. In the source, reading the missing record's fields raises `MissingError`.
- Driver.UHFReader.SendCommand: the address and the command are bytes by type, so the `ValueError` that `bytes([...])` raises for a value above 255 is not modelled. The data length check is modelled.
- TyreWizard.TyreOperationWizard.Apply: a history stores its operation, whose selection key is `HistoryType`. So a disposal is stored as `disposal` and succeeds. As written, the disposal fails; see Findings.
- TireWizard.TireOperationWizard.Apply: a history stores its operation, whose selection key is `TireHistoryType`. So a return to stock and a disposal succeed. As written, both fail; see Findings.
- AccumulatedTemplate.WorksheetRegistry.GenerateAccumulated: uses the corrected lower-template selection, which skips an interval of 0. As written, such a template raises `ZeroDivisionError`; see Findings.

## Findings

| source | as written | input that shows it | evidently intended | confidence | as-written member | corrected member |
|---|---|---|---|---|---|---|
| maintenance_worksheet_templates/models/worksheet_template.py:70 | `interval % t_interval` is evaluated for a lower template whose parsed interval is 0, and `ZeroDivisionError` is not caught by `except (IndexError, ValueError)` | a template named `JD 8230 - 0 Hour Service` found while generating the 250-hour service | a template without a usable interval is skipped like one whose name does not parse | not executed | Worksheet.ZeroIntervalRaises | Worksheet.LowerCandidates |
| fleet_tyre_management/wizards/tyre_operation_wizard.py:129 | the history `type` is the operation key, and for a disposal that is `dispose`, which the history's selection (`fleet_tyre_history.py` lines 11-20) does not list, so creating the history fails and the disposal is rolled back | `action_apply` with operation `dispose` | a disposal is logged with the listed type `disposal` | not executed | TyreWizard.DisposeTypeUnlisted | TyreWizard.HistoryType |
| fleet_tire/wizards/tire_operation_wizard.py:59 | the history `type` is the operation key; `return_stock` and `dispose` are not in the tire history's selection (`fleet_tire_history.py` lines 11-18), so both operations fail at line 101 | `action_apply` with operation `return_stock` or `dispose` | a disposal is logged as `disposal` and a return to stock under a listed `return_stock` type, as the tyre history does | not executed | TireWizard.UnlistedTireTypes | TireWizard.TireHistoryType |
