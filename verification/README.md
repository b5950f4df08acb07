# Verified models of the devourer driver's header-level cores

devourer drives Realtek 802.11 adapters from user space. Most of it is register tables; this project models the parts
whose correctness is an argument rather than a table, and proves that argument for every input, every run or every
reachable state. `dafny verify dfyconfig.toml` checks all of it.

| area | files | main results |
|---|---|---|
| Keyed channel hopping | Shuffle, SipHash, SipHashVector, HopWords, HopSchedule, HopSeed, HopSyncMarker | the shuffle is a bijection and exactly uniform over accepted words; coverage of every block and window; the streaming hash is the specified fold; the marker scanner finds exactly the encoded markers |
| Station identity over a faulty transport | Port, AckResponder, StationArm | no open gate ever answers for half an address (strong transport); a restore verdict can be trusted on any transport; giving an arm up means the port is back where that arm found it |
| CLM busy window and the CCX lock | BusyWindow, CcxLocking | every reading reported valid is genuine in every interleaving if, and only if, note and re-arm share the lock; of one channel if, and only if, a register lock spans the retune; no interleaving deadlocks |
| Firmware parameter offload | CfgParamWire, HalmacCfgParam | the batched, flushed stream replays to the same registers as direct writes; what a read-back certifies, exactly |
| Compressed beamforming reports | Bits, BfReport, BfAngles, BfSense | parsing inverts building and back; packing then decoding returns the angles; the split search has at most one answer; variance and motion energy lie in [0, 1] |
| Crystal (CFO) tracking loop | CfoTracker | for every slope but zero and every memory of the controller, exactly when the loop settles, in how many ticks and after how many polarity flips |
| Event stream | Json, EventText, EventLine, Event, EventRun | three buffer tiers refine one append-only string; a line is one JSON object exactly when no field was left half written; however events are interleaved on a thread, each emitted line is its own event's name and fields |
| Adapter health | AdapterHealth | the EFUSE probe's counters and the verdict, each characterised in both directions |

Bytes, Arith and Wrappers are shared helpers.

## How it is modelled

- Objects the driver updates in place are classes (`Transport`, `StationArm`, `ClmWindow`, `Chip`, `Offload`,
  `CfoTracker`, `BitReader`, `MotionMeter`, `Ev`, `Scratch`, `EventSink`) with the same fields; loops are loops; tables,
  packings and predicates are functions. Methods are proved equal to a specification function, and the lemmas are about
  that function.
- The register port is byte-addressed memory. Every write may succeed, report failure or throw, and any subset of its
  bytes may land, also between the two (`Fault`). "Strong" means that a write reported as successful has landed whole,
  while a refused or thrown one may still land, or land in part; "weak" promises nothing. Reads are truthful or throw.
  Every intermediate state is kept in `history`. Reads and writes are counted apart, and `Strong` and `WentRight` speak of
  those the attempt made, never of later ones.
- The CLM hardware and the callers are a state machine whose steps are single lock acquisitions, register accesses and
  notes; a run is any sequence of steps the locks allow, for any number of threads.
- The rejection loop of the hop schedule has no bound in the source. Its methods require that the round has an acceptable
  word for each bound (`Drawable`), and `DrawStopsIff` shows that this is exactly when the loop stops.
- Angles are rational multiples of pi. Cosine, sine and square root are parameters of which only
  cos^2 + sin^2 = 1 and sqrt(x)^2 = x are used.

## Where the code and its own description part

- A two-sided note around a retune that does not hold the register lock (Jaguar1,
  src/jaguar1/RtlJaguarDevice.cpp:2031-2049) still lets a reading that mixes two channels come out valid: a call armed
  after the first note and read before the second. `CcxLocking.OneChannelIffRegLock` shows that one-channel readings
  need, and need only, the register lock held over the retune, however histogram reads are locked;
  `CcxLocking.BracketedRun` gives the run.
- `restore_station` re-opens the saved net type even when the identity did not go back (src/AckResponder.h:406-411), so
  on a strong transport it can leave the gate open on half an address exactly when the saved type was open:
  `AckResponder.RestoreTears` gives the run for every such record, `AckResponder.RestoreStation` the guarantee
  otherwise. StationArm only records closed snapshots, so its callers never meet this.
- `retarget` says that both halves must be attempted (src/AckResponder.h:154-167); a throw on the low half skips the
  high one.
- The command count sent to the firmware is a 16-bit field: it covers the batch if and only if the batch has fewer than
  65536 commands (`HalmacCfgParam.CountCoversBatch`). The read-back proves the replay up to the last BB write if and
  only if neither the register beforehand nor an earlier write of the batch to it held that value
  (`HalmacCfgParam.CertifiesIffNews`); `HalmacCfgParam.BelievedUnreplayed` is a batch reported done of which nothing
  was replayed. The poll is also taken as the gate after which the page may be reused; it is one only for batches that
  end in such a write (`HalmacCfgParam.CertifiesWholeIff`). `_last_was_bb` means "this batch held a BB
  write": RF and MAC writes do not clear it.
- `decode_angles` reads all phi before all psi. That is the standard's order (section 19.3.12.3.6 of IEEE 802.11) if
  and only if nc = 1 or nr = 2 (`BfAngles.OrderAgreesIff`); for other shapes the psi it keeps is not the standard's
  first (`BfAngles.FirstAnglesIff`).
- The CFO loop learns its polarity only from steps it takes and that change the offset by more than 1 kHz, and stops only
  at a code within 10 kHz. So it never settles when, with an offset to correct, it acts on the wrong polarity at the
  rail that polarity pushes into, or on the wrong polarity at a slope of at most 1 kHz per code, or when the nearest
  code is more than 10 kHz off; `CfoTracker.SettlesIff` shows that these are all. A right polarity can also be lost:
  an offset that jumps after a step reads as that step having made things worse (`CfoTracker.JumpLosesPolarity`).
- docs/logging.md:34-35 and src/Event.h:29-30 say that an overflowing field is dropped, or becomes null. A string or
  blob does when null still fits; any other value leaves its key behind without a value, an array can lose single
  elements, and an array of one can come out as []. `EventLine.ReadableIff` says exactly when the line is still JSON,
  `EventLine.TruncatedMayBreak` gives a line that is not.
- `hexf` takes any width (src/Event.h:147-156), but its 24-byte buffer holds the text of a 64-bit value for widths up to
  19 and no more (`EventText.HexWidthFits`).
- A "blank" EFUSE is judged by its ID alone (src/AdapterHealth.h:170-172), not by the whole map as the comment above it
  says (`AdapterHealth.BlankByIdAlone`); and the last clause of the Failing test there is implied by the one before it.

## Model

| member | source | states |
|---|---|---|
| `Shuffle.ShuffleIsBijection` | src/HopSchedule.h:70-88 | for every n, each ordering of 0..n-1 comes from exactly one sequence of swap choices |
| `Shuffle.ResiduesEqual` | src/HopSchedule.h:76-82 | the rejection limit is the largest multiple of the bound in a 64-bit word, and every residue has the same number of accepted words |
| `Shuffle.ShuffleIsUniform` | src/HopSchedule.h:70-88 | every ordering of 0..n-1 is produced by the same number of sequences of accepted words |
| `HopSchedule.DrawStopsIff` | src/HopSchedule.h:77-81 | the rejection loop stops, from any counter, exactly when the round has an accepted word at all |
| `HopSchedule.Draw` | src/HopSchedule.h:76-82 | the loop returns the residue of the first accepted word at or after the counter, and the counter behind it |
| `HopSchedule.Permutation` | src/HopSchedule.h:70-88 | the in-place shuffle equals the order of OrderIsPicked, which is an ordering of 0..n-1 |
| `HopSchedule.OrderIsPicked` | src/HopSchedule.h:70-88 | for every word stream: one word for each bound n, n-1, ..., 2, at strictly increasing counters from 0 on, each the first one behind the word before it that is accepted for its bound; their residues pick the channels out of those left, last place first |
| `HopSchedule.DrawsTakenAt` | src/HopSchedule.h:76-82 | and that from any counter, counted without end and reduced modulo 2^64 |
| `HopSchedule.ChannelIndex` | src/HopSchedule.h:90-97 | an empty hop set is refused; otherwise the channel is slot mod n when sequential, and else place slot mod n in the order of round slot / n |
| `HopSchedule.BlockVisitsOnce` | src/HopSchedule.h:90-97 | in every aligned block of n slots whose round can be drawn, each channel has exactly one slot, which is returned |
| `HopSchedule.WindowVisitsAll` | src/HopSchedule.h:90-97 | any 2n-1 consecutive slots whose rounds can be drawn contain every channel |
| `HopSchedule.RevisitGap` | src/HopSchedule.h:90-97 | successive visits to a channel are at most 2n-1 slots apart, and exactly n when sequential, if the rounds between them can be drawn |
| `SipHash.Siphash24` | src/HopSchedule.h:104-124 | the streaming loop with its tail word equals the fold of SipHash-2-4 over the zero-padded, length-tagged words (section 2 of the SipHash paper) |
| `SipHash.RoundIsBijection` | src/HopSchedule.h:139-154 | one sip round has an inverse on both sides |
| `SipHash.TailIsWord` | src/HopSchedule.h:115-117 | or-ing the shifted tail bytes and the length gives the little-endian word of the padded tail |
| `SipHash.Round` | src/HopSchedule.h:139-154 | the in-place round on four words is the specified round |
| `SipHash.LastWord` | src/HopSchedule.h:115-120 | absorbing the padded message word by word ends with the tail word |
| `SipHash.LeWordBytes` | src/HopSchedule.h:132-137 | byte i of a loaded word, by shift and mask, is byte i of the input |
| `SipHash.TagIsShift` | src/HopSchedule.h:115 | the tag in the top byte is any 64-bit length with that low byte shifted left by 56 |
| `SipHashVector.TestVector` | src/HopSchedule.h:104-124 | key 00..0f and message 00..0e hash to 0xa129ca6149be45e5, the vector in appendix A of the paper, derived state by state |
| `HopWords.MessagesDistinct` | src/HopSchedule.h:160-165 | distinct (round, counter) pairs hash distinct 17-byte messages |
| `HopWords.MessageSays` | src/HopSchedule.h:160-165 | the message is 0x48, the round in bytes 1 to 8 and the counter in bytes 9 to 16, least significant first |
| `HopWords.ReadWord` | src/HopSchedule.h:160-167 | the word drawn is the hash of that message under the key |
| `HopWords.WordIsHash` | src/HopSchedule.h:160-167 | said of the word stream by counter |
| `HopSeed.ParseSeed` | src/HopSchedule.h:33-54 | a seed is accepted exactly when its digits are 1 to 32 hexadecimal ones; the 16 key bytes are that number, big-endian; which error otherwise |
| `HopSeed.FillKey` | src/HopSchedule.h:46-53 | the digits fill the key from its end, zeros in front |
| `HopSeed.DigitsAre` | src/HopSchedule.h:129-131 | the 22 accepted characters and the value of each |
| `HopSeed.PrefixOff` | src/HopSchedule.h:36-40 | one 0x or 0X in front is taken off, and nothing else is |
| `HopSeed.MostSignificantFirst` | src/HopSchedule.h:46-53 | digits and bytes weigh most in front |
| `HopSeed.BigEndianInjective` | src/HopSchedule.h:33-54 | keys of one length that denote one number are the same, so two seeds writing the same number give the same key |
| `HopSyncMarker.Encode` | src/HopSchedule.h:174-183 | fills 29 bytes with the marker's encoding |
| `HopSyncMarker.FramedEncodes` | src/HopSchedule.h:174-196 | a window passes the decoder's checks only if it is the encoding of the marker read from it |
| `HopSyncMarker.EncodedFramed` | src/HopSchedule.h:174-196 | an encoding passes the checks and reads back as its marker |
| `HopSyncMarker.Layout` | src/HopSchedule.h:174-183 | the fixed bytes, and where each field lies, least significant byte first |
| `Bytes.LittleEndian` | src/HopSchedule.h:174-183 | two and four bytes as numbers, least significant first |
| `HopSyncMarker.Decode` | src/HopSchedule.h:184-196 | the scanning decoder returns the marker of the first 29-byte window that is an encoding, or nothing |
| `HopSyncMarker.FirstMarkerMeans` | src/HopSchedule.h:184-196 | nothing means that no window is an encoding; a marker comes from the first window that is one |
| `HopSyncMarker.FoundBehindPrefix` | src/HopSchedule.h:184-196 | an encoded marker is found behind any prefix without an earlier match, whatever follows |
| `AckResponder.Enable` | src/AckResponder.h:75-106 | in every intermediate state on a strong transport an open gate implies the old identity whole or the new one whole; on any transport nothing but the port's own bits moves, a close not reported done leaves the identity alone, and past a close that landed a failed identity write leaves the gate closed; a refused close and a refused open are each followed by one more close, which closes the gate if it lands; how many writes are made in every case; true exactly when all its transfers were reported done |
| `AckResponder.OpenFor` | src/AckResponder.h:88-100 | the identity and then the gate: four writes at most when one of them fails, five when the open was reported done or threw, six when it was refused, the sixth closing the gate |
| `AckResponder.Verify` | src/AckResponder.h:280-286 | true exactly when no read failed, the gate reads open as an access point and MACID is this address |
| `Port.RegisterMap` | src/AckResponder.h:75-100 | the gate field and the two addresses at their register numbers, and the values of the gate |
| `AckResponder.IdentityUntilRefused` | src/AckResponder.h:88-92 | the four half-address writes in order, each only after the one before was reported done; registers and verdict for every fault |
| `AckResponder.DisableVerified` | src/AckResponder.h:169-183 | true exactly when neither read nor the write threw and the gate is closed, on any transport; the identity is never touched |
| `AckResponder.Retarget` | src/AckResponder.h:154-167 | which halves were tried and landed, for every fault; only MACID bytes change; true exactly when both were reported |
| `AckResponder.SnapshotStation` | src/AckResponder.h:318-328 | a snapshot is the port as it is, and is missing exactly when a read failed |
| `AckResponder.SavedRoundTrip` | src/AckResponder.h:188-193 | unpacking the saved register words and packing them again gives the same words |
| `AckResponder.IdentityDetermines` | src/AckResponder.h:54-60 | the packed words are equal exactly when both addresses are |
| `AckResponder.RestorePortIdentity` | src/AckResponder.h:213-236 | all four writes are tried whatever happens to the others; true exactly when all were reported |
| `AckResponder.PortIdentityIs` | src/AckResponder.h:238-248 | true exactly when no read failed and both packed addresses read back as recorded |
| `AckResponder.ArmStation` | src/AckResponder.h:337-355 | as Enable, for two different addresses, every identity write tried unless one throws; how many writes are made in every case |
| `AckResponder.StationIs` | src/AckResponder.h:361-372 | true exactly when no read failed and the port reads as armed with these addresses |
| `AckResponder.StationMatches` | src/AckResponder.h:382-394 | true exactly when no read failed and gate, MACID and BSSID equal the record |
| `AckResponder.RestoreStation` | src/AckResponder.h:396-415 | on a weak transport true means gate and identity equal the record, an attempt in which nothing went wrong is true whatever fails later, a failed close leaves the identity alone, foreign bits never move; never torn when the record is closed and the transport strong |
| `AckResponder.RestoreTears` | src/AckResponder.h:406-411 | for every record with an open gate, a strong transport on which restoring leaves the gate open on half an address |
| `AckResponder.IdentityTriedWhole` | src/AckResponder.h:213-236 | four writes that each land whole or not at all and all land give the record's identity |
| `StationArm.StationArm.Arm` | src/StationArm.h:111-163 | a new arm records the port as it found it and is refused when its gate is open; true only if the port reads as armed; not keeping an arm means the port is back where the arm found it; exactly when it succeeds if nothing goes wrong; never torn on a strong transport |
| `StationArm.StationArm.Configure` | src/StationArm.h:137-163 | a failed configuration falls back to the record: the restore begins where the arm's writes ended, and if nothing goes wrong from there on the arm is given up; given up only when the port reads back as recorded |
| `StationArm.StationArm.Clear` | src/StationArm.h:167-181 | true exactly when unarmed afterwards; an arm given up means the port is as recorded; nothing is touched when there was none; the first attempt in which nothing goes wrong succeeds |
| `StationArm.StationArm.Retire` | src/StationArm.h:88-104 | at the next bring-up: tries the clear, keeps the record when it does not verify, and with it the invariant |
| `BusyWindow.PeriodFor` | src/BusyWindow.h:67-74 | the period is clamped to the range and, within it, the largest whose window is no longer than asked |
| `BusyWindow.ClmWindow.Arm` | src/BusyWindow.h:86-99 | new state, programmed period and armed length; a window of 0 programs and changes nothing |
| `BusyWindow.ArmedWindowRead` | src/BusyWindow.h:86-158 | an unspoiled elapsed window, whatever went before its arm and however many reads were too early, gives a valid reading of the armed period whose transmit count is the growth of the counter since that arm, 0 if it did not grow and at most 2^32 - 1 |
| `BusyWindow.NoReadingSays` | src/BusyWindow.h:112-137 | when there is no reading, what is said instead, what is remembered, and that only a window still running stays armed |
| `BusyWindow.ClmWindow.Read` | src/BusyWindow.h:112-158 | state and answer of a read in every state and for every hardware result |
| `BusyWindow.ClmWindow.NoteRetune` | src/BusyWindow.h:167-170 | the first spoil noted while armed is kept, later ones change nothing |
| `BusyWindow.ClmWindow.NoteNhmRead` | src/BusyWindow.h:163-166 | likewise for a histogram read |
| `BusyWindow.ReadingMeans` | src/BusyWindow.h:138-157 | busy_pct is 100 * ticks / period to the nearest whole number and at most 100; own_tx_frames is the saturated difference |
| `BusyWindow.EarlyReadStutters` | src/BusyWindow.h:129-137 | over any run, an early read adds one invalid answer and changes nothing before or after it |
| `BusyWindow.FirstSpoilReported` | src/BusyWindow.h:118-127 | after any notes the read answers with the first one's reason and disarms |
| `BusyWindow.OneReadingPerArm` | src/BusyWindow.h:86-158 | over any run at most one reading is consumed per arm |
| `CcxLocking.StepKeeps` | src/IRtlRadio.h:131-168 | every step of every thread keeps the invariant tying the armed window to the hardware's |
| `CcxLocking.ReadingsGenuine` | src/IRtlRadio.h:131-168 | with the CCX lock held over note and re-arm, in every interleaving every valid reading is of the hardware window its own arm started, not re-armed in between |
| `CcxLocking.GenuineIffDisciplined` | src/IRtlRadio.h:358-384 | that holds for all interleavings if and only if the lock spans both |
| `CcxLocking.UndisciplinedRun` | src/IRtlRadio.h:358-367 | without it, a run that reports a window the NHM read had taken over |
| `CcxLocking.UndisturbedRun` | src/IRtlRadio.h:131-168 | in every family an arm left alone is read, validly, and of its own window |
| `CcxLocking.OneChannelIffRegLock` | src/jaguar2/RtlJaguar2Device.cpp:1011-1030 | for every family, valid readings are of one channel in all interleavings if and only if the register lock spans the retune |
| `CcxLocking.BracketedRun` | src/jaguar1/RtlJaguarDevice.cpp:2031-2049 | without that lock, two notes around the retune let a two-channel reading out |
| `CcxLocking.NeverDeadlocked` | src/IRtlRadio.h:379-382 | with the register lock always taken first, by arms, reads, retunes and the families' histogram reads, no interleaving deadlocks: while a thread is inside a call, some thread can take its next step |
| `CfgParamWire.DecodeEncode` | src/HalmacCfgParam.cpp:24-58 | a 12-byte command decodes to the write it encodes (RF data cut to 20 bits), and the end command to none |
| `CfgParamWire.CommandSays` | src/HalmacCfgParam.cpp:24-67 | each command byte by byte: length 12, code, address or RF register and path, data least significant first, zeros; and the end command |
| `CfgParamWire.MacWriteSays` | src/HalmacCfgParam.cpp:48-51 | a direct MAC write reaches one, two or four bytes, least significant first, and nothing else |
| `CfgParamWire.CommandsOfBuffer` | src/HalmacCfgParam.cpp:24-67 | firmware walking a flushed page for n commands finds the first n writes, in order, and stops at the end command |
| `CfgParamWire.OnChipAllSame` | src/HalmacCfgParam.cpp:41-58 | the masked writes leave the registers the unmasked ones would |
| `CfgParamWire.NumFieldIs` | src/HalmacCfgParam.cpp:73-82 | the count field of the trigger packet is the count mod 65536 |
| `CfgParamWire.TriggerSays` | src/HalmacCfgParam.cpp:70-82 | the trigger packet byte by byte |
| `HalmacCfgParam.StreamPreserved` | src/HalmacCfgParam.cpp:24-86 | however auto-flush cut the stream, replaying the flushed pages and then the pending writes equals applying every write issued |
| `HalmacCfgParam.ReplayIsDirect` | src/HalmacCfgParam.cpp:24-86 | replaying the pages of any batches equals applying their writes in order |
| `HalmacCfgParam.CertifiesIffNews` | src/HalmacCfgParam.cpp:87-109 | a matching read-back proves that the replay passed the last BB write exactly when that value was not in the register before |
| `HalmacCfgParam.CertifiesWholeIff` | src/HalmacCfgParam.cpp:87-92 | a matching read-back proves the whole batch replayed exactly when the value is news and nothing follows its write |
| `HalmacCfgParam.BelievedUnreplayed` | src/HalmacCfgParam.cpp:87-127 | a run reported done whose last value the register held before and of which nothing was replayed |
| `HalmacCfgParam.FullReplayShowsLast` | src/HalmacCfgParam.cpp:87-109 | a complete replay always leaves the polled register at the last BB value, so the check never refuses one |
| `HalmacCfgParam.CountCoversBatch` | src/HalmacCfgParam.cpp:60-86 | the count sent makes the firmware take the whole batch exactly when it has fewer than 65536 commands |
| `HalmacCfgParam.Offload.Deliver` | src/HalmacCfgParam.cpp:60-128 | true exactly when both transfers succeeded and, where there is a BB write to read back, its register shows it; against firmware that replays any in-order prefix the registers show a prefix, and verified success means at least up to the last BB write when that is news; nothing moves when the page was not downloaded |
| `HalmacCfgParam.Offload.Transfer` | src/HalmacCfgParam.cpp:70-86 | true exactly when the page download and the trigger both succeeded; the batch taken is the first count mod 65536 writes, or nothing |
| `HalmacCfgParam.Offload.Confirm` | src/HalmacCfgParam.cpp:93-109 | true exactly when the register shows the last BB value at the end of at most 40 polls, and false only after all 40 |
| `HalmacCfgParam.Offload.Flush` | src/HalmacCfgParam.cpp:60-128 | true exactly when the page download and the trigger succeeded and the read-back, if there is one, shows the last BB value; empties the buffer, ok() stays false once false, total grows by what was confirmed; against firmware that did all it was asked the registers are those of direct writes |
| `HalmacCfgParam.Offload.Push` | src/HalmacCfgParam.cpp:24-39 | the write is issued and buffered; at the batch limit everything buffered goes out as one batch, and failed transfers are remembered; keeps total + pending = issued while ok |
| `HalmacCfgParam.Offload.WriteBb` | src/HalmacCfgParam.cpp:41-46 | a BB write is appended to what was issued and remembered for the read-back |
| `HalmacCfgParam.Offload.WriteMac` | src/HalmacCfgParam.cpp:48-51 | a MAC write of any width likewise |
| `HalmacCfgParam.Offload.WriteRf` | src/HalmacCfgParam.cpp:53-58 | an RF write is appended and does not disturb what the read-back remembers |
| `BfReport.ParseReport` | src/BfReportDecode.h:66-112 | the parser computes the specified header or refuses |
| `BfReport.BuiltFrameParses` | src/BfReportDecode.h:66-112 | every frame put together from its fields parses to exactly those fields, with or without FCS |
| `BfReport.ParsedWasBuilt` | src/BfReportDecode.h:66-112 | whatever parses was put together that way, so the parser accepts nothing else |
| `BfReport.ControlRoundTrip` | src/BfReportDecode.h:73-85 | the control field, built from its parts, gives the parts back |
| `BfReport.ControlFieldsSay` | src/BfReportDecode.h:73-85 | and the parts give its three bytes back |
| `BfReport.ControlBits` | src/BfReportDecode.h:78-84 | which bits of which byte each part is |
| `BfReport.ReportNsIs` | src/BfReportDecode.h:36-46 | the twelve subcarrier counts |
| `BfReport.GroupingIs` | src/BfReportDecode.h:83 | the grouping of each code |
| `BfReport.ParsedFits` | src/BfReportDecode.h:86-112 | the angle bytes lie inside the frame before the FCS and hold every subcarrier's bits |
| `Bits.BitReader.Read` | src/BfReportDecode.h:115-134 | a read returns the next n bits, least significant first, zeros past the end, and never moves past it |
| `Bits.FieldNumber` | src/BfReportDecode.h:115-134 | the field of n bits at position p is the data, as one little-endian number, divided by 2^p, modulo 2^n |
| `Bits.PackedField` | src/BfReportDecode.h:115-134 | a value packed at any bit position is read back there |
| `BfAngles.AngleCounts` | src/BfReportDecode.h:145-159 | the counting loop gives as many phi as psi |
| `BfAngles.PairsClosed` | src/BfReportDecode.h:145-159 | and that many: m(2nr - m - 1)/2 over m columns |
| `BfAngles.PairsOf` | src/BfReportDecode.h:145-159 | with m = min(nc, nr - 1) columns, and one pair where there is none |
| `BfAngles.Midpoints` | src/BfReportDecode.h:136-141 | the codes of b bits dequantise to the midpoints of 2^b equal parts of [0, 2 pi] for phi and [0, pi / 2] for psi, in order |
| `BfAngles.DecodeAngles` | src/BfReportDecode.h:165-196 | succeeds exactly when the bits suffice, and then gives the first phi and psi of every subcarrier |
| `BfAngles.PackedDecodes` | src/BfReportDecode.h:136-196 | packing any quantised angles and decoding returns the dequantised first phi and psi of every subcarrier |
| `BfAngles.ParsedDecodes` | src/BfReportDecode.h:165-196 | a parsed report decodes under any split that uses exactly its bits per subcarrier |
| `BfAngles.OrderAgreesIff` | src/BfReportDecode.h:141-159 | the angles decoded, each with its row and column, are in the standard's order if and only if nc = 1 or nr = 2 |
| `BfAngles.FirstAnglesIff` | src/BfReportDecode.h:161-196 | the phi kept is always the standard's first; the psi kept stands where the standard's first does if and only if nc = 1 or nr = 2 |
| `BfSense.SplitEquation` | src/BfReportDecode.h:218-224 | a split uses 2N(bpsi + 1) bits per subcarrier |
| `BfSense.UsableUnique` | src/BfReportDecode.h:214-259 | at most one split is usable, so the variance tie-break never decides |
| `BfSense.MeanVariance` | src/BfReportDecode.h:225-250 | gives the mean over the tones of the variance of psi across the batch, exactly when every report decodes under the split |
| `BfSense.PairVariance` | src/BfReportDecode.h:236-250 | for two reports the variance of a tone is the square of half the difference of their psi |
| `BfSense.SplitUnique` | src/BfReportDecode.h:218-224 | two splits of one bit count are the same split |
| `BfSense.PickSplit` | src/BfReportDecode.h:214-259 | for reports of one number of tones a split is found exactly when a usable one exists, and it is that one |
| `BfSense.MotionMeter.Push` | src/BfReportDecode.h:273-283 | the window is exactly the last min(window, accepted) reports in order; refusals change nothing |
| `BfSense.MotionMeter.Trim` | src/BfReportDecode.h:280-281 | dropping from the front leaves exactly the last window reports |
| `BfSense.MotionMeter.PerToneVar` | src/BfReportDecode.h:287-306 | each tone's value is its circular variance over the window, in [0, 1]; all 0 below two reports |
| `BfSense.MotionMeter.MotionEnergy` | src/BfReportDecode.h:308-317 | the mean of the tones' variances, in [0, 1] |
| `BfSense.VarianceBounded` | src/BfReportDecode.h:287-306 | one minus the length of a mean of unit vectors lies in [0, 1] |
| `BfSense.EqualAnglesStill` | src/BfReportDecode.h:287-306 | a tone with equal angles has variance 0 |
| `BfSense.OppositeAnglesMove` | src/BfReportDecode.h:287-306 | one with two opposite angles has variance 1 |
| `CfoTracker.CfoTracker.Step` | src/CfoTracker.h:41-84 | new state and cap of one step as a function of the mean tail, with the accumulators cleared |
| `CfoTracker.DecideSays` | src/CfoTracker.h:41-84 | correction starts above 11 kHz and stops at 10, a growth of more than 1 kHz behind a step flips the polarity, and a correcting step is one code in the polarity acted on unless that leaves the range |
| `CfoTracker.CfoTracker.Add` | src/CfoTracker.h:32-35 | a tail is accumulated and nothing else changes |
| `CfoTracker.StepsCloser` | src/CfoTracker.h:41-84 | on a plant with a code within the stop threshold, acting on the right polarity moves one code towards the zero each tick, or settles |
| `CfoTracker.LearnsPolarity` | src/CfoTracker.h:51-84 | acting on the wrong polarity away from the rail, above 1 kHz per code: two ticks return to the start with the polarity learned |
| `CfoTracker.Settles` | src/CfoTracker.h:41-84 | from every state that can settle, whatever the memory, the loop is within its threshold for good after at most the distance plus 3 ticks; besides a pending flip it flips at most once, to learn a wrong polarity |
| `CfoTracker.SettlesIff` | src/CfoTracker.h:41-84 | for every slope but zero and every memory the loop settles exactly if it has nothing to correct, or the nearest code is within 10 kHz, the polarity acted on is right or the slope above 1, and it is not stuck |
| `CfoTracker.JumpLosesPolarity` | src/CfoTracker.h:51-56 | a state in which a right polarity is flipped to the wrong one |
| `CfoTracker.GentleSlopeRests` | src/CfoTracker.h:87-88 | at up to 20 kHz per code the nearest code is always within the stop threshold |
| `CfoTracker.SettledForever` | src/CfoTracker.h:41-84 | a settled loop never steps or flips again |
| `CfoTracker.SettlesIffNotStuck` | src/CfoTracker.h:41-84 | between 1 and 20 kHz per code it settles if and only if it is not about to act on the wrong polarity at the rail that one pushes into |
| `CfoTracker.StuckForever` | src/CfoTracker.h:74-81 | a stuck loop never moves and stays stuck |
| `CfoTracker.RestlessForever` | src/CfoTracker.h:59-84 | without a code within the stop threshold a loop that has started never stops correcting |
| `CfoTracker.DriftsForever` | src/CfoTracker.h:51-84 | a wrong polarity at 1 kHz per code or less only leads away |
| `CfoTracker.ShallowSlopeNeverLearns` | src/CfoTracker.h:51-57 | with at most 1 kHz per code and no flip pending the polarity is never flipped |
| `EventText.PrintedRead` | src/Event.h:101-189 | every kind of field, printed, reads back as its value and leaves the text behind it |
| `EventText.EscapedRead` | src/Event.h:269-307 | unescaping (section 7 of RFC 8259) what was escaped gives back every string and stops at the closing quote |
| `EventText.PrintSays` | src/Event.h:101-139 | numbers, truth values, null and strings by example |
| `EventText.ShortEscapes` | src/Event.h:269-307 | the five short escapes and a long one |
| `EventText.HexNumDenotes` | src/Event.h:147-156 | a hex number reads back as its value, in at least the digits asked for |
| `EventText.HexWidthFits` | src/Event.h:147-156 | a 64-bit value with its NUL fits the 24-byte buffer exactly for widths up to 19 |
| `EventText.HexRoundTrip` | src/Event.h:158-174 | a blob's hex digits give its bytes back |
| `EventText.PrintHexSays` | src/Event.h:147-174 | hex numbers and blobs by example |
| `EventText.PrintIntsSays` | src/Event.h:177-189 | arrays: brackets around, commas between |
| `EventLine.LineReads` | src/Event.h:101-307 | what a JSON reader gets from any event's line: name, each field as it landed, the mark; or nothing once a field is torn |
| `EventLine.UntruncatedReads` | src/Event.h:6-13 | an untruncated line is one JSON object with exactly the name first and then the fields given, in order |
| `EventLine.UntruncatedIs` | src/Event.h:82-222 | such a line, character by character |
| `EventLine.WholeIff` | src/Event.h:237-307 | when a field lands whole, in bytes: a key needs 4 more than its letters, a string 6 a character and 2, a blob 2 a byte and 2 |
| `EventLine.ReadableIff` | src/Event.h:237-307 | a line is a JSON object if and only if the name's closing quote fitted and no field was left half written |
| `EventLine.TruncatedMayBreak` | src/Event.h:269-274 | a line that is not JSON: behind a blob the key fitted, neither value nor null did |
| `EventLine.OneEventOneLine` | src/Event.h:28-30 | every line is at most 64 KiB, has one newline, at its end, and begins with the event name in its quotes unless the name itself was too long |
| `Event.Ev.Ensure` | src/Event.h:314-352 | grows or spills without changing the text; fails exactly when the cap would be passed, and then only marks the line; storage is kept while it suffices, else at least doubled, and the thread's is taken exactly when free |
| `Event.Ev.BeginField` | src/Event.h:237-251 | the key goes in whole or not at all, and only a lost one marks the line |
| `Event.Ev.Quoted` | src/Event.h:269-307 | the escaped string, snprintf's NUL included, stays in the room asked for |
| `Event.Ev.FStr` | src/Event.h:135-139 | a string field on the buffers is the same field on the string |
| `Event.Ev.Arr` | src/Event.h:177-189 | an array field on the buffers is the same field on the string |
| `Event.Ev.Put` | src/Event.h:101-189 | so is every kind of field, in whichever of the three buffers the event is |
| `Event.Ev.Hexf` | src/Event.h:147-156 | a hex number field on the buffers is the same field on the string |
| `Event.Ev.FHex` | src/Event.h:158-174 | a blob field on the buffers is the same field on the string |
| `Event.Ev.constructor` | src/Event.h:86-96 | an event on a disabled sink is dead; any other starts with its name |
| `Event.Ev.Emit` | src/Event.h:212-222 | the closer always fits, the whole line goes out once, a second call does nothing, the thread's buffer is given back |
| `Event.Ev.CloseWith` | src/Event.h:260-267 | the closer spends the reserve and cannot fail within it |
| `Event.DecShort` | src/Event.h:101-112 | 64-bit and 32-bit numbers fit their temporary buffers |
| `EventRun.ScratchExclusive` | src/Event.h:225-235 | two live events never write to one buffer, and at most one holds the thread's |
| `EventRun.PutOne` | src/Event.h:225-360 | a field put on one event leaves every other event on the thread unchanged |
| `EventRun.Run` | src/Event.h:82-370 | any number of events opened, filled and emitted in any order on one thread refine the same run on strings; the sink gets exactly the lines of the events emitted |
| `EventRun.LinesAreOwn` | src/Event.h:82-222 | whatever was interleaved, the line an event emits is its own name and the fields put on it, in order, and the lines come in the order of the emits |
| `EventRun.RunGivesLines` | src/Event.h:15-19 | every one of those lines is whole, within 64 KiB, with one newline at its end |
| `AdapterHealth.ProbeEfuseStability` | src/AdapterHealth.h:53-82 | over any sequence of reads: no mismatch exactly when all completed reads are equal, the offset is the first difference of the first mismatching pass and never the sentinel, stable reads give 0 or all invalid IDs |
| `AdapterHealth.MismatchedMeans` | src/AdapterHealth.h:53-82 | counting each read against the first is zero exactly when all are equal |
| `AdapterHealth.SameIdCounts` | src/AdapterHealth.h:53-82 | equal reads count no invalid ID or all of them |
| `AdapterHealth.CountsAre` | src/AdapterHealth.h:53-82 | the two counts are the number of passes that differ from the first and of those that do not start 29 81 |
| `AdapterHealth.IdReads` | src/AdapterHealth.h:66 | the ID is the first byte and 256 times the second |
| `AdapterHealth.ClassifyAdapterHealth` | src/AdapterHealth.h:153-216 | when each verdict is given and when each reason is set, in both directions |
| `AdapterHealth.BlankByIdAlone` | src/AdapterHealth.h:170-178 | any map with the ID 0xFFFF and some other byte, read stably, is called blank |
| `AdapterHealth.ProbeAndClassify` | src/AdapterHealth.h:52-216 | after bring-up the verdict is Failing exactly when two completed reads differ, or the receiver is deaf to known traffic, or the firmware failed beside a bad ID |

## Left out

- Register tables, power sequences and firmware images under hal/: constant data whose interpreters are not shown.
- USB and PCIe transports, device probing, logging, timers, sleeps and the firmware poll's timing: input and output; polling is a bounded wait on a chip that may or may not progress.
- BeamformingSounder.h, DeviceConfig.h, AdapterCaps.h and similar one-branch headers: they would only add easy members.
- `from_env`, `fingerprint`, hex printing of keys and the environment itself: straight-line.
- The strength of SipHash as a cipher: only its equality with the specification is proved.
- SipHash.TagIsShift: speaks of any 64-bit word that has the length's low byte; that a 64-bit length has it is the meaning of the type.
- Other sources of a busy reading (MT7612U, channel time) and the energy fields of ChannelBusy: separate code paths without the shared engine.
- `with_ccx` refusing calls before bring-up: the state machine starts with the device up.
- Floating-point rounding: reals and rationals throughout, pi as a rational constant.
- `localized()` of the motion meter: a threshold heuristic without a stated property.
- `count()` and the other accessors: they return a field.
- Widths of the CFO accumulator and of the angle counters (no overflow), and shifts by 32 bits or more for absurd splits: modelled unbounded.
- HalmacCfgParam.Offload.Deliver: BB registers are keyed by their address, so writes to overlapping dwords are not modelled.
- HalmacCfgParam.Chip: a new page ends the replay of the old batch; a page written over while firmware still reads it is not expressed.
- HopSchedule.Permutation: requires that every bound has an accepted word in its round, because the source's loop has no other exit; SipHash itself is not shown to have one.
- AckResponder.Retarget: says what landed, not that the address is whole, which the source does not promise either.
- Event.Ev.Put: doubles and the time stamp are left out; hex widths are 0 to 19, because the source reads past its buffer for larger ones and what it finds there has no meaning; keys and names are taken not to need escaping, as the source says.
- Event.Ev.Hexf: likewise widths 0 to 19; negative widths are not modelled.
- Event.Ev.Widen: a vector always moves to new storage when it grows; the allocator's own choices are not modelled.
- EventRun.Run: one thread and one sink; stdout's atomicity across threads, flushing and the sink's reconfiguration are not part of this model.
- EventLine.LineReads: text is characters, so whether a string field is valid UTF-8 is not considered; the reader rejects surrogate pairs, which the writer never emits.
